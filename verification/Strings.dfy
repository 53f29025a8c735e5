/** Searching, splitting (as strings.Split does for a one-character separator) and ordering strings. */
module Strings {
  /** Where c first occurs, or the length of s. */
  function Find(s: string, c: char): (i: nat)
    ensures i <= |s| && (forall j :: 0 <= j < i ==> s[j] != c) && (i < |s| ==> s[i] == c)
  {
    if s == "" || s[0] == c then 0 else 1 + Find(s[1..], c)
  }

  lemma FindAfter(head: string, c: char, tail: string)
    requires c !in head
    ensures Find(head + [c] + tail, c) == |head|
  {
    var s := head + [c] + tail;
    assert s[|head|] == c;
    assert forall j :: 0 <= j < |head| ==> s[j] == head[j] && s[j] in head;
  }

  function Split(s: string, c: char): (segments: seq<string>)
    ensures segments != [] && forall t :: t in segments ==> c !in t
    decreases |s|
  {
    var i := Find(s, c);
    if i == |s| then [s] else [s[..i]] + Split(s[i + 1..], c)
  }

  lemma SplitNone(s: string, c: char)
    requires c !in s
    ensures Split(s, c) == [s]
  {
    assert Find(s, c) == |s|;
  }

  lemma SplitFirst(head: string, c: char, tail: string)
    requires c !in head
    ensures Split(head + [c] + tail, c) == [head] + Split(tail, c)
  {
    FindAfter(head, c, tail);
    var s := head + [c] + tail;
    assert s[..|head|] == head && s[|head| + 1..] == tail;
  }

  // ----- The byte order of strings -----

  predicate Less(a: string, b: string) {
    if b == "" then false
    else if a == "" then true
    else if a[0] != b[0] then a[0] < b[0]
    else Less(a[1..], b[1..])
  }

  /** Two strings first differ at i, where a has the smaller character. */
  predicate SmallerAt(a: string, b: string, i: nat) {
    i < |a| && i < |b| && a[..i] == b[..i] && a[i] < b[i]
  }

  /** One string is less than another exactly if it is a proper prefix, or has the smaller character where they first
      differ. */
  lemma {:induction false} LessIff(a: string, b: string)
    ensures Less(a, b) <==> (a != b && a <= b) || exists i: nat :: SmallerAt(a, b, i)
  {
    if a != "" && b != "" && a[0] == b[0] {
      LessIff(a[1..], b[1..]);
      TailsDiffer(a, b);
      assert a == [a[0]] + a[1..] && b == [b[0]] + b[1..];
      assert a[1..] <= b[1..] <==> a <= b;
    } else if a != "" && b != "" {
      assert a[..0] == b[..0];
      assert a[0] < b[0] ==> SmallerAt(a, b, 0);
      forall i: nat | SmallerAt(a, b, i) ensures a[0] <= b[0] {
        HeadIsNoGreater(a, b, i);
      }
    }
  }

  lemma HeadIsNoGreater(a: string, b: string, i: nat)
    requires SmallerAt(a, b, i)
    ensures a[0] <= b[0]
  {
    if i > 0 {
      assert a[0] == a[..i][0] && b[0] == b[..i][0];
    }
  }

  lemma TailsDiffer(a: string, b: string)
    requires a != "" && b != "" && a[0] == b[0]
    ensures (exists i: nat :: SmallerAt(a[1..], b[1..], i)) <==> exists i: nat :: SmallerAt(a, b, i)
  {
    if i: nat :| SmallerAt(a[1..], b[1..], i) {
      assert a[..i + 1] == [a[0]] + a[1..][..i] && b[..i + 1] == [b[0]] + b[1..][..i];
      assert SmallerAt(a, b, i + 1);
    }
    if i: nat :| SmallerAt(a, b, i) {
      assert i > 0;
      assert a[1..][..i - 1] == a[..i][1..] && b[1..][..i - 1] == b[..i][1..];
      assert SmallerAt(a[1..], b[1..], i - 1);
    }
  }

  lemma {:induction false} LessIsTotal(a: string, b: string)
    ensures a == b || Less(a, b) || Less(b, a)
    ensures !(Less(a, b) && Less(b, a)) && !Less(a, a)
  {
    if a != "" && b != "" && a[0] == b[0] {
      LessIsTotal(a[1..], b[1..]);
      assert a == [a[0]] + a[1..] && b == [b[0]] + b[1..];
    }
    if a != "" {
      LessIsTotal(a[1..], a[1..]);
    }
  }

  lemma {:induction false} LessIsTransitive(a: string, b: string, c: string)
    requires Less(a, b) && Less(b, c)
    ensures Less(a, c)
  {
    if a != "" && a[0] == b[0] == c[0] {
      LessIsTransitive(a[1..], b[1..], c[1..]);
    }
  }

  // ----- Keys of two parts -----

  /** How Redis lock keys and group keys are put together. */
  function ColonKey(head: string, tail: string): string {
    head + ":" + tail
  }

  /** Two heads can make the same key exactly when one of them, with its colon, starts the other. */
  lemma HeadsCollideIff(p: string, q: string)
    ensures (exists k, l :: ColonKey(p, k) == ColonKey(q, l)) <==> p + ":" <= q + ":" || q + ":" <= p + ":"
  {
    if k, l :| ColonKey(p, k) == ColonKey(q, l) {
      var full := ColonKey(p, k);
      assert full[..|p| + 1] == p + ":";
      assert full[..|q| + 1] == q + ":";
      if |p| <= |q| {
        assert (q + ":")[..|p| + 1] == full[..|q| + 1][..|p| + 1] == p + ":";
      } else {
        assert (p + ":")[..|q| + 1] == full[..|p| + 1][..|q| + 1] == q + ":";
      }
    }
    if p + ":" <= q + ":" {
      var k := (q + ":")[|p| + 1..];
      assert ColonKey(p, k) == ColonKey(q, "");
    }
    if q + ":" <= p + ":" {
      var l := (p + ":")[|q| + 1..];
      assert ColonKey(q, l) == ColonKey(p, "");
    }
  }

  /** A key can be made in another way exactly when one of its parts has a colon of its own. */
  lemma KeyIsSharedIff(head: string, tail: string)
    ensures (exists h, t :: (h != head || t != tail) && ColonKey(h, t) == ColonKey(head, tail)) <==> ':' in head || ':' in tail
  {
    var key := ColonKey(head, tail);
    if ':' in head {
      var i := Find(head, ':');
      var h, t := head[..i], head[i + 1..] + ":" + tail;
      assert ColonKey(h, t) == key && |h| < |head|;
    } else if ':' in tail {
      var i := Find(tail, ':');
      var h, t := head + ":" + tail[..i], tail[i + 1..];
      assert ColonKey(h, t) == key && |h| > |head|;
    } else {
      forall h, t | ColonKey(h, t) == key ensures h == head && t == tail {
        OneColon(head, tail);
        assert key[|h|] == ':';
        assert h == key[..|h|] && head == key[..|head|] && t == key[|h| + 1..] && tail == key[|head| + 1..];
      }
    }
  }

  lemma OneColon(head: string, tail: string)
    requires ':' !in head && ':' !in tail
    ensures forall at :: 0 <= at < |ColonKey(head, tail)| && ColonKey(head, tail)[at] == ':' ==> at == |head|
  {
    var key := ColonKey(head, tail);
    forall at | 0 <= at < |key| && at != |head| ensures key[at] != ':' {
      if at < |head| {
        assert key[at] == head[at] && head[at] in head;
      } else {
        assert key[at] == tail[at - |head| - 1] && tail[at - |head| - 1] in tail;
      }
    }
  }
}

/**
 The canonical string that is signed (components/auths/jwt.go:111-132): the map's keys in byte order, each with its
 value as key=value, joined by &. Characters stand for bytes.
 */
module SigningString {
  import opened Sets
  import opened Strings

  ghost predicate Sorted(keys: seq<string>) {
    forall i, j :: 0 <= i < j < |keys| ==> Less(keys[i], keys[j])
  }

  /** There is only one way to list a set of keys in order. */
  lemma {:induction false} SortedIsUnique(a: seq<string>, b: seq<string>)
    requires Sorted(a) && Sorted(b) && forall k :: k in a <==> k in b
    ensures a == b
  {
    assert a != [] ==> a[0] in b;
    assert b != [] ==> b[0] in a;
    if a != [] {
      SameHead(a, b);
      assert forall k :: k in a[1..] <==> k in a && k != a[0] by {
        TailHas(a);
      }
      assert forall k :: k in b[1..] <==> k in b && k != b[0] by {
        TailHas(b);
      }
      SortedIsUnique(a[1..], b[1..]);
      assert a == [a[0]] + a[1..] && b == [b[0]] + b[1..];
    }
  }

  lemma TailHas(a: seq<string>)
    requires Sorted(a) && a != []
    ensures forall k :: k in a[1..] <==> k in a && k != a[0]
  {
    LessIsTotal(a[0], a[0]);
    assert a == [a[0]] + a[1..];
    forall i | 1 <= i < |a| ensures a[i] != a[0] {
      assert Less(a[0], a[i]);
    }
  }

  lemma SameHead(a: seq<string>, b: seq<string>)
    requires Sorted(a) && Sorted(b) && a != [] && b != [] && a[0] in b && b[0] in a
    ensures a[0] == b[0]
  {
    LessIsTotal(a[0], b[0]);
    var i :| 0 <= i < |b| && b[i] == a[0];
    var j :| 0 <= j < |a| && a[j] == b[0];
  }

  // ----- The string -----

  function Segment(data: map<string, string>, key: string): string
    requires key in data
  {
    key + "=" + data[key]
  }

  function Render(data: map<string, string>, keys: seq<string>): string
    requires forall k :: k in keys ==> k in data
  {
    if keys == [] then ""
    else if |keys| == 1 then Segment(data, keys[0])
    else Segment(data, keys[0]) + "&" + Render(data, keys[1..])
  }

  lemma {:induction false} RenderAppends(data: map<string, string>, keys: seq<string>, key: string)
    requires (forall k :: k in keys ==> k in data) && key in data
    ensures Render(data, keys + [key]) == Render(data, keys) + (if keys == [] then "" else "&") + Segment(data, key)
  {
    if keys == [] {
      assert [] + [key] == [key];
    } else {
      assert (keys + [key])[1..] == keys[1..] + [key];
      RenderAppends(data, keys[1..], key);
    }
  }

  ghost predicate IsListing(keys: seq<string>, data: map<string, string>) {
    Sorted(keys) && forall k :: k in keys <==> k in data
  }

  /** text is the canonical string of data. */
  ghost predicate Canonical(text: string, data: map<string, string>) {
    exists keys :: IsListing(keys, data) && text == Render(data, keys)
  }

  method SortStrings(keys: seq<string>) returns (sorted: seq<string>)
    requires forall i, j :: 0 <= i < j < |keys| ==> keys[i] != keys[j]
    ensures Sorted(sorted) && forall k :: k in sorted <==> k in keys
  {
    sorted := [];
    var i := 0;
    while i < |keys|
      invariant 0 <= i <= |keys|
      invariant Sorted(sorted) && forall k :: k in sorted <==> k in keys[..i]
    {
      var at := 0;
      while at < |sorted| && Less(sorted[at], keys[i])
        invariant 0 <= at <= |sorted|
        invariant forall j :: 0 <= j < at ==> Less(sorted[j], keys[i])
      {
        at := at + 1;
      }
      InsertKeepsSorted(sorted, at, keys[i]);
      assert keys[..i + 1] == keys[..i] + [keys[i]];
      sorted := sorted[..at] + [keys[i]] + sorted[at..];
      i := i + 1;
    }
    assert keys[..i] == keys;
  }

  lemma InsertKeepsSorted(sorted: seq<string>, at: nat, key: string)
    requires Sorted(sorted) && key !in sorted && at <= |sorted|
    requires forall j :: 0 <= j < at ==> Less(sorted[j], key)
    requires at < |sorted| ==> !Less(sorted[at], key)
    ensures Sorted(sorted[..at] + [key] + sorted[at..])
    ensures forall k :: k in sorted[..at] + [key] + sorted[at..] <==> k in sorted || k == key
  {
    assert sorted == sorted[..at] + sorted[at..];
    forall j | at <= j < |sorted| ensures Less(key, sorted[j]) {
      LessIsTotal(key, sorted[at]);
      if j > at {
        LessIsTransitive(key, sorted[at], sorted[j]);
      }
    }
  }

  /** Ranges over the map, in whatever order. */
  method MapKeys(data: map<string, string>) returns (keys: seq<string>)
    ensures forall k :: k in keys <==> k in data
    ensures forall i, j :: 0 <= i < j < |keys| ==> keys[i] != keys[j]
  {
    keys := [];
    var left := data.Keys;
    while left != {}
      invariant left <= data.Keys
      invariant forall k :: k in keys <==> k in data && k !in left
      invariant forall i, j :: 0 <= i < j < |keys| ==> keys[i] != keys[j]
      decreases |left|
    {
      var k :| k in left;
      keys := keys + [k];
      left := left - {k};
    }
  }

  /** The string does not depend on the order in which the map yields its keys. */
  method SortMapToString(data: map<string, string>) returns (text: string)
    ensures Canonical(text, data)
  {
    var keys := MapKeys(data);
    keys := SortStrings(keys);
    text := "";
    var i := 0;
    while i < |keys|
      invariant 0 <= i <= |keys|
      invariant text == Render(data, keys[..i])
    {
      RenderAppends(data, keys[..i], keys[i]);
      assert keys[..i + 1] == keys[..i] + [keys[i]];
      if i > 0 {
        text := text + "&";
      }
      text := text + keys[i];
      text := text + "=";
      text := text + data[keys[i]];
      i := i + 1;
    }
    assert keys[..i] == keys;
  }

  /** Every map has exactly one canonical string. */
  lemma CanonicalIsUnique(data: map<string, string>, one: string, two: string)
    requires Canonical(one, data) && Canonical(two, data)
    ensures one == two
  {
    var a :| IsListing(a, data) && one == Render(data, a);
    var b :| IsListing(b, data) && two == Render(data, b);
    SortedIsUnique(a, b);
  }

  // ----- A parser for it -----

  function KeyOf(segment: string): string {
    segment[..Find(segment, '=')]
  }

  function ValueOf(segment: string): string {
    var i := Find(segment, '=');
    if i < |segment| then segment[i + 1..] else ""
  }

  function Gather(segments: seq<string>): map<string, string> {
    if segments == [] then map[] else Gather(segments[1..])[KeyOf(segments[0]) := ValueOf(segments[0])]
  }

  function Parse(text: string): map<string, string> {
    if text == "" then map[] else Gather(Split(text, '&'))
  }

  /** Keys without = and &, values without &. */
  ghost predicate Clean(data: map<string, string>) {
    forall k :: k in data ==> '=' !in k && '&' !in k && '&' !in data[k]
  }

  lemma {:induction false} GatherIsClean(segments: seq<string>)
    requires forall t :: t in segments ==> '&' !in t
    ensures Clean(Gather(segments))
  {
    if segments != [] {
      GatherIsClean(segments[1..]);
      assert segments[0] in segments;
      assert '=' !in KeyOf(segments[0]);
    }
  }

  lemma SegmentReadsBack(data: map<string, string>, key: string)
    requires Clean(data) && key in data
    ensures '&' !in Segment(data, key) && KeyOf(Segment(data, key)) == key && ValueOf(Segment(data, key)) == data[key]
  {
    FindAfter(key, '=', data[key]);
    var s := Segment(data, key);
    assert s == key + ['='] + data[key];
    assert s[..|key|] == key && s[|key| + 1..] == data[key];
  }

  function Segments(data: map<string, string>, keys: seq<string>): seq<string>
    requires forall k :: k in keys ==> k in data
  {
    if keys == [] then [] else [Segment(data, keys[0])] + Segments(data, keys[1..])
  }

  lemma {:induction false} SplitRendered(data: map<string, string>, keys: seq<string>)
    requires Clean(data) && keys != [] && forall k :: k in keys ==> k in data
    ensures Split(Render(data, keys), '&') == Segments(data, keys)
  {
    var first := Segment(data, keys[0]);
    SegmentReadsBack(data, keys[0]);
    if |keys| == 1 {
      assert Find(first, '&') == |first|;
    } else {
      var rest := Render(data, keys[1..]);
      assert Render(data, keys) == first + ['&'] + rest;
      SplitFirst(first, '&', rest);
      SplitRendered(data, keys[1..]);
    }
  }

  lemma {:induction false} GatherSegments(data: map<string, string>, keys: seq<string>)
    requires Clean(data) && forall k :: k in keys ==> k in data
    ensures var m := Gather(Segments(data, keys));
            (forall k :: k in m <==> k in keys) && forall k :: k in m ==> m[k] == data[k]
  {
    if keys != [] {
      var rest := keys[1..];
      assert Segments(data, keys)[1..] == Segments(data, rest);
      GatherSegments(data, rest);
      SegmentReadsBack(data, keys[0]);
      assert keys == [keys[0]] + rest;
    }
  }

  /** Parsing undoes printing for exactly the maps whose keys and values keep clear of the separators. */
  lemma ParseUndoesPrintIff(data: map<string, string>, text: string)
    requires Canonical(text, data)
    ensures Parse(text) == data <==> Clean(data)
  {
    if Clean(data) {
      var keys :| IsListing(keys, data) && text == Render(data, keys);
      if keys == [] {
        assert data == map[];
      } else {
        assert text != "";
        SplitRendered(data, keys);
        GatherSegments(data, keys);
        assert Parse(text) == data;
      }
    }
    GatherIsClean(Split(text, '&'));
  }

  /** So among those maps the canonical string tells maps apart: equal strings, and hence equal signed texts, come
      from equal maps. */
  lemma CanonicalIsInjective(one: map<string, string>, two: map<string, string>, text: string)
    requires Clean(one) && Clean(two) && Canonical(text, one) && Canonical(text, two)
    ensures one == two
  {
    ParseUndoesPrintIff(one, text);
    ParseUndoesPrintIff(two, text);
  }

  // ----- When a string belongs to one map only -----

  /** No entry, or one entry without = in key and value: the string has at most one =. */
  ghost predicate OneEquals(data: map<string, string>) {
    |data| <= 1 && forall k :: k in data ==> '=' !in k && '=' !in data[k]
  }

  lemma SingletonCanonical(key: string, value: string)
    ensures Canonical(key + "=" + value, map[key := value])
  {
    var data := map[key := value];
    assert IsListing([key], data) && Render(data, [key]) == key + "=" + value;
  }

  /** A map of two or more entries prints like a single entry that has all but the first in its value. */
  lemma ManyEntriesShare(data: map<string, string>, keys: seq<string>) returns (other: map<string, string>)
    requires IsListing(keys, data) && |keys| >= 2
    ensures |other| == 1 && Canonical(Render(data, keys), other)
  {
    var key, rest := keys[0], Render(data, keys[1..]);
    var value := data[key] + "&" + rest;
    other := map[key := value];
    SingletonCanonical(key, value);
    assert key + "=" + value == Segment(data, key) + "&" + rest;
  }

  /** A second = in a single entry can be read as the first one. */
  lemma SecondEqualsShares(key: string, value: string) returns (other: map<string, string>)
    requires '=' in key || '=' in value
    ensures other != map[key := value] && Canonical(key + "=" + value, other)
  {
    var k, v: string;
    if '=' in key {
      var i := Find(key, '=');
      k, v := key[..i], key[i + 1..] + "=" + value;
    } else {
      var i := Find(value, '=');
      k, v := key + "=" + value[..i], value[i + 1..];
    }
    assert k + "=" + v == key + "=" + value && |k| != |key|;
    other := map[k := v];
    assert k in other && k !in map[key := value];
    SingletonCanonical(k, v);
  }

  lemma RenderedEquals(data: map<string, string>, keys: seq<string>)
    requires keys != [] && forall k :: k in keys ==> k in data
    ensures var text, at := Render(data, keys), |keys[0]|;
            && at < |text| && text[at] == '=' && text[..at] == keys[0]
            && (|keys| == 1 ==> text[at + 1..] == data[keys[0]])
            && (|keys| > 1 ==> exists i :: at < i < |text| && text[i] == '=')
  {
    var text, first := Render(data, keys), Segment(data, keys[0]);
    if |keys| > 1 {
      var rest := Render(data, keys[1..]);
      RenderedEquals(data, keys[1..]);
      assert text == first + "&" + rest;
      assert text[|first| + 1 + |keys[1]|] == '=';
    }
  }

  lemma OnlyEquals(key: string, value: string)
    requires '=' !in key && '=' !in value
    ensures forall at :: 0 <= at < |key + "=" + value| && (key + "=" + value)[at] == '=' ==> at == |key|
  {
    var text := key + "=" + value;
    forall at | 0 <= at < |text| && at != |key| ensures text[at] != '=' {
      if at < |key| {
        assert text[at] == key[at] && key[at] in key;
      } else {
        assert text[at] == value[at - |key| - 1] && value[at - |key| - 1] in value;
      }
    }
  }

  lemma OneEqualsIsAlone(key: string, value: string, other: map<string, string>)
    requires '=' !in key && '=' !in value && Canonical(key + "=" + value, other)
    ensures other == map[key := value]
  {
    var text := key + "=" + value;
    var keys :| IsListing(keys, other) && text == Render(other, keys);
    OnlyEquals(key, value);
    assert keys != [];
    RenderedEquals(other, keys);
    assert text[..|key|] == key && text[|key| + 1..] == value;
    assert |keys| == 1;
    assert forall k :: k in other <==> k in keys;
  }

  lemma ListingSize(keys: seq<string>, data: map<string, string>)
    requires IsListing(keys, data)
    ensures |keys| == |data|
  {
    forall i, j | 0 <= i < j < |keys| ensures keys[i] != keys[j] {
      LessIsTotal(keys[i], keys[j]);
    }
    assert Elements(keys) == data.Keys;
    assert |data| == |data.Keys|;
  }

  lemma SharesUnlessOneEquals(data: map<string, string>, keys: seq<string>) returns (other: map<string, string>)
    requires IsListing(keys, data) && !OneEquals(data)
    ensures other != data && Canonical(Render(data, keys), other)
  {
    ListingSize(keys, data);
    if |keys| >= 2 {
      other := ManyEntriesShare(data, keys);
    } else {
      var k :| k in data && ('=' in k || '=' in data[k]);
      assert k in keys;
      assert keys == [k];
      assert data == map[k := data[k]];
      other := SecondEqualsShares(k, data[k]);
    }
  }

  /** A map's canonical string belongs to no other map if and only if the map is empty or has one entry, with no = in
      key or value. Every other map is signed like some different map. */
  lemma CanonicalIsAmbiguousIff(data: map<string, string>, text: string)
    requires Canonical(text, data)
    ensures (exists other :: other != data && Canonical(text, other)) <==> !OneEquals(data)
  {
    var keys :| IsListing(keys, data) && text == Render(data, keys);
    ListingSize(keys, data);
    if !OneEquals(data) {
      var other := SharesUnlessOneEquals(data, keys);
    } else if keys == [] {
      forall other | Canonical(text, other) ensures other == data {
        EmptyIsAlone(other);
      }
    } else {
      var k := keys[0];
      assert keys == [k];
      assert data == map[k := data[k]];
      forall other | Canonical(text, other) ensures other == data {
        OneEqualsIsAlone(k, data[k], other);
      }
    }
  }

  lemma EmptyIsAlone(other: map<string, string>)
    requires Canonical("", other)
    ensures other == map[]
  {
    var keys :| IsListing(keys, other) && "" == Render(other, keys);
    if keys != [] {
      RenderedEquals(other, keys);
    }
  }

  /** With an & in a value, two different maps print alike. */
  lemma SeparatorInValueConfuses()
    ensures var one, two := map["a" := "1&b=2"], map["a" := "1", "b" := "2"];
            one != two && Canonical("a=1&b=2", one) && Canonical("a=1&b=2", two)
  {
    var one, two := map["a" := "1&b=2"], map["a" := "1", "b" := "2"];
    assert IsListing(["a"], one) && Render(one, ["a"]) == "a=1&b=2";
    assert Less("a", "b");
    assert IsListing(["a", "b"], two);
    assert ["a", "b"][1..] == ["b"];
    assert Render(two, ["a", "b"]) == "a=1" + "&" + "b=2" == "a=1&b=2";
    assert |one["a"]| != |two["a"]|;
  }
}

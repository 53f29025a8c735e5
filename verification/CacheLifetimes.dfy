/**
 How long an entry of LocalCache lives, in numbers (components/caches/local.go:19-21, 68-267): what was last set or loaded
 for a key, and when, decides every later answer.
 */
module CacheLifetimes {
  import opened LocalCache
  import opened Wrappers

  /** A value stored at one time is still there at another. */
  predicate Lasts<T>(c: Config, w: Option<Written<T>>, t: nat) {
    w.Some? && (c.ttl <= 0 || t <= w.value.at + c.ttl)
  }

  datatype Written<T> = Written(value: T, at: nat)

  /** What was last set or loaded for key and not deleted since. A Get loads when the last one no longer lasts. */
  function LastWrite<T>(c: Config, history: seq<Event<T>>, key: string): Option<Written<T>> {
    if history == [] then None
    else
      var before := LastWrite(c, history[..|history| - 1], key);
      match history[|history| - 1].op
      case Get(k, at, stored, loaded) =>
        if k == key && c.hasLoader && loaded.Some? && !Lasts(c, before, at) then Some(Written(loaded.value, stored)) else before
      case Set(k, value, at) => if k == key then Some(Written(value, at)) else before
      case Delete(k) => if k == key then None else before
      case Clean => None
      case _ => before
  }

  /** The answer to op after history. */
  ghost predicate Says<T>(c: Config, history: seq<Event<T>>, op: Op<T>, answer: Answer<T>) {
    match op
    case Get(key, at, stored, loaded) =>
      var w := LastWrite(c, history, key);
      if Lasts(c, w, at) then answer == Hit(w.value.value)
      else if !c.hasLoader then answer == NotFound
      else if loaded == None then answer == LoadFailed
      else answer == Loaded(loaded.value)
    case Exists(key, at) => answer == Found(Lasts(c, LastWrite(c, history, key), at))
    case GetWithTTL(key, at, later) =>
      var w := LastWrite(c, history, key);
      if !Lasts(c, w, at) then answer == NotFound
      else if c.ttl <= 0 then answer == WithTTL(w.value.value, 0)
      else answer == WithTTL(w.value.value, if later <= w.value.at + c.ttl then w.value.at + c.ttl - later else 0)
    case Keys(when) =>
      answer.KeySet? && forall k :: k in answer.keys <==> Lasts(c, LastWrite(c, history, k), when(k))
    case Size(at) =>
      answer.Count? && forall live: set<string> :: (forall k :: k in live ==> Lasts(c, LastWrite(c, history, k), at)) ==> |live| <= answer.n
    case _ => answer == Done
  }

  // ----- The map that is never purged is such a ledger -----

  ghost predicate Entered<T>(c: Config, w: Option<Written<T>>, plain: Data<T>, key: string) {
    if w == None then key !in plain
    else key in plain && plain[key].value == w.value.value
         && plain[key].expires == if c.ttl > 0 then Some(w.value.at + c.ttl) else None
  }

  ghost predicate Ledger<T>(c: Config, history: seq<Event<T>>, plain: Data<T>) {
    forall k :: Entered(c, LastWrite(c, history, k), plain, k)
  }

  lemma LiveIffLasts<T>(c: Config, w: Option<Written<T>>, plain: Data<T>, key: string, t: nat)
    requires Entered(c, w, plain, key)
    ensures Live(plain, key, t) <==> Lasts(c, w, t)
  {}

  lemma {:induction false} PlainIsLedger<T>(c: Config, history: seq<Event<T>>)
    ensures Ledger(c, history, PlainRun(c, history).0)
  {
    if history != [] {
      var prefix, op := history[..|history| - 1], history[|history| - 1].op;
      PlainIsLedger(c, prefix);
      var plain := PlainRun(c, prefix).0;
      forall k ensures Entered(c, LastWrite(c, history, k), PlainStep(c, plain, op).0, k) {
        KeyStaysEntered(c, history, plain, k);
      }
    }
  }

  lemma KeyStaysEntered<T>(c: Config, history: seq<Event<T>>, plain: Data<T>, k: string)
    requires history != [] && Entered(c, LastWrite(c, history[..|history| - 1], k), plain, k)
    ensures Entered(c, LastWrite(c, history, k), PlainStep(c, plain, history[|history| - 1].op).0, k)
  {}

  lemma PlainSays<T>(c: Config, history: seq<Event<T>>, plain: Data<T>, op: Op<T>)
    requires Ledger(c, history, plain) && !op.Size? && !op.Keys?
    ensures Says(c, history, op, PlainStep(c, plain, op).1)
  {
    if op.Get? || op.Exists? || op.GetWithTTL? {
      LiveIffLasts(c, LastWrite(c, history, op.key), plain, op.key, op.at);
      assert Entered(c, LastWrite(c, history, op.key), plain, op.key);
    }
  }

  lemma PlainKeysSay<T>(c: Config, history: seq<Event<T>>, plain: Data<T>, when: string -> nat)
    requires Ledger(c, history, plain)
    ensures forall k :: k in LiveKeys(plain, when) <==> Lasts(c, LastWrite(c, history, k), when(k))
  {
    forall k ensures k in LiveKeys(plain, when) <==> Lasts(c, LastWrite(c, history, k), when(k)) {
      assert Entered(c, LastWrite(c, history, k), plain, k);
      LiveIffLasts(c, LastWrite(c, history, k), plain, k, when(k));
    }
  }

  /** So the purging cache says it too. */
  lemma AgreeingSays<T>(c: Config, history: seq<Event<T>>, plain: Data<T>, op: Op<T>, answer: Answer<T>)
    requires Ledger(c, history, plain) && Agree(op, answer, PlainStep(c, plain, op).1)
    ensures Says(c, history, op, answer)
  {
    match op
    case Keys(when) => PlainKeysSay(c, history, plain, when);
    case Size(at) =>
      PlainKeysSay(c, history, plain, (k: string) => at);
      forall live: set<string> | forall k :: k in live ==> Lasts(c, LastWrite(c, history, k), at) ensures |live| <= answer.n {
        SubsetSize(live, LiveKeys(plain, (k: string) => at));
      }
    case _ => PlainSays(c, history, plain, op);
  }

  /** Under a clock that does not run backwards every answer is the one that the last write of the key, its time and the
      lifetime decide: a value is found up to and including its time plus the lifetime and not later, and for ever when the
      lifetime is zero or less. */
  lemma {:induction false} AnswersFollowLifetimes<T>(c: Config, history: seq<Event<T>>)
    requires Monotone(history)
    ensures |LazyRun(c, history).1| == |history|
    ensures forall i :: 0 <= i < |history| ==> Says(c, history[..i], history[i].op, LazyRun(c, history).1[i])
  {
    if history != [] {
      var n := |history| - 1;
      var prefix := history[..n];
      AnswersFollowLifetimes(c, prefix);
      LastAnswerFollows(c, prefix, history);
      forall i | 0 <= i < n ensures Says(c, history[..i], history[i].op, LazyRun(c, history).1[i]) {
        assert prefix[..i] == history[..i];
      }
    }
  }

  lemma LastAnswerFollows<T>(c: Config, prefix: seq<Event<T>>, history: seq<Event<T>>)
    requires Monotone(history) && history != [] && prefix == history[..|history| - 1]
    ensures |LazyRun(c, history).1| == |history| && LazyRun(c, history).1[..|prefix|] == LazyRun(c, prefix).1
    ensures Says(c, prefix, history[|prefix|].op, LazyRun(c, history).1[|prefix|])
  {
    PurgingIsInvisible(c, history);
    PurgingIsInvisible(c, prefix);
    PlainIsLedger(c, prefix);
    AgreeingSays(c, prefix, PlainRun(c, prefix).0, history[|prefix|].op, LazyRun(c, history).1[|prefix|]);
  }

  /** Size counts no key twice and none that was never written, or deleted since. */
  lemma SizeCountsWritten<T>(c: Config, history: seq<Event<T>>, at: nat, written: set<string>)
    requires Monotone(history) && forall k :: LastWrite(c, history, k).Some? ==> k in written
    ensures LazyStep(c, LazyRun(c, history).0, Size(at)).1.Count? && LazyStep(c, LazyRun(c, history).0, Size(at)).1.n <= |written|
  {
    PurgingIsInvisible(c, history);
    PlainIsLedger(c, history);
    var data, plain := LazyRun(c, history).0, PlainRun(c, history).0;
    forall k | k in data.Keys ensures k in written {
      assert Entered(c, LastWrite(c, history, k), plain, k);
    }
    SubsetSize(data.Keys, written);
    assert |data| == |data.Keys|;
  }

  // ----- What is deleted -----

  /** data is without the entries that op finds expired. */
  ghost predicate Purged<T>(c: Config, history: seq<Event<T>>, op: Op<T>, data: Data<T>) {
    && (op.Cleanup? ==> forall k :: k in data <==> Lasts(c, LastWrite(c, history, k), op.when(k)))
    && (op.Exists? || op.GetWithTTL? ==> (op.key in data <==> Lasts(c, LastWrite(c, history, op.key), op.at)))
    && (op.Get? ==> (op.key in data <==> Lasts(c, LastWrite(c, history, op.key), op.at) || (c.hasLoader && op.loaded.Some?)))
  }

  /** Whoever finds an entry expired deletes it, and a cleanup leaves exactly the entries that last. */
  lemma ExpiredAreDeleted<T>(c: Config, history: seq<Event<T>>, last: Event<T>)
    requires Monotone(history + [last])
    ensures Purged(c, history, last.op, LazyRun(c, history + [last]).0)
  {
    var longer := history + [last];
    assert longer[..|longer| - 1] == history;
    PurgingIsInvisible(c, history);
    PlainIsLedger(c, history);
    var data, plain := LazyRun(c, history).0, PlainRun(c, history).0;
    assert LazyRun(c, longer).0 == LazyStep(c, data, last.op).0;
    if last.op.Cleanup? {
      CleanupLeavesLasting(c, history, data, plain, last.op.when);
    } else if last.op.Exists? || last.op.GetWithTTL? || last.op.Get? {
      var key, at := last.op.key, last.op.at;
      LookupsAgree(data, plain, End(history), key, at);
      assert Entered(c, LastWrite(c, history, key), plain, key);
      LiveIffLasts(c, LastWrite(c, history, key), plain, key, at);
    }
  }

  lemma CleanupLeavesLasting<T>(c: Config, history: seq<Event<T>>, data: Data<T>, plain: Data<T>, when: string -> nat)
    requires Ledger(c, history, plain) && Simulates(data, plain, End(history)) && forall k :: End(history) <= when(k)
    ensures forall k :: k in LazyStep(c, data, Cleanup(when)).0 <==> Lasts(c, LastWrite(c, history, k), when(k))
  {
    PlainKeysSay(c, history, plain, when);
    forall k ensures k in LiveKeys(data, when) <==> k in LiveKeys(plain, when) {
      LookupsAgree(data, plain, End(history), k, when(k));
    }
  }
}

/**
 Any number of callers of UniLimiterLocker (components/limits/limit.go:52-136), interleaved.

 getMutex, TryLock or Lock, Unlock and releaseMutex are one atomic step each; fn runs while its
 caller is at stage InFn. A new mutex is any name that no row and no caller refers to, so a
 collected mutex may be named again.
 */
module KeyedLocks {
  import opened Wrappers
  import opened LockTable
  import opened Sets

  datatype Stage = AtLock | InFn | Refused | Unlocked

  datatype Caller = Caller(key: string, mu: nat, waits: bool, stage: Stage)

  /** Callers that are idle or have returned are absent from callers. */
  datatype State = State(table: Table<nat>, owner: map<nat, nat>, callers: map<nat, Caller>)

  const INIT := State(map[], map[], map[])

  datatype Action =
    | Get(t: nat, key: string, waits: bool, newMutex: nat)
    | Lock(t: nat)
    | Refuse(t: nat)
    | Unlock(t: nat)
    | Release(t: nat)

  ghost predicate Unreferenced(s: State, mu: nat) {
    && (forall k :: k in s.table ==> s.table[k].mu != mu)
    && (forall t :: t in s.callers ==> s.callers[t].mu != mu)
  }

  ghost predicate Enabled(s: State, a: Action) {
    match a
    case Get(t, key, waits, newMutex) => t !in s.callers && Unreferenced(s, newMutex)
    case Lock(t) => t in s.callers && s.callers[t].stage == AtLock && s.callers[t].mu !in s.owner
    case Refuse(t) => t in s.callers && s.callers[t].stage == AtLock && !s.callers[t].waits && s.callers[t].mu in s.owner
    case Unlock(t) => t in s.callers && s.callers[t].stage == InFn
    case Release(t) => t in s.callers && s.callers[t].stage in {Refused, Unlocked}
  }

  ghost function Apply(s: State, a: Action): State
    requires Enabled(s, a)
  {
    match a
    case Get(t, key, waits, newMutex) =>
      var table := AfterGet(s.table, key, newMutex);
      State(table, s.owner - {newMutex}, s.callers[t := Caller(key, table[key].mu, waits, AtLock)])
    case Lock(t) =>
      s.(owner := s.owner[s.callers[t].mu := t], callers := s.callers[t := s.callers[t].(stage := InFn)])
    case Refuse(t) =>
      s.(callers := s.callers[t := s.callers[t].(stage := Refused)])
    case Unlock(t) =>
      s.(owner := s.owner - {s.callers[t].mu}, callers := s.callers[t := s.callers[t].(stage := Unlocked)])
    case Release(t) =>
      s.(table := AfterRelease(s.table, s.callers[t].key), callers := s.callers - {t})
  }

  /** The state after a sequence of actions from the empty locker, if each was enabled in turn. */
  ghost function After(run: seq<Action>): Option<State> {
    if run == [] then Some(INIT)
    else
      var before := After(run[..|run| - 1]);
      var a := run[|run| - 1];
      if before.Some? && Enabled(before.value, a) then Some(Apply(before.value, a)) else None
  }

  /** The callers of key that are between getMutex and releaseMutex. */
  ghost function Active(s: State, key: string): set<nat> {
    set t | t in s.callers && s.callers[t].key == key
  }

  // ----- The invariant -----

  ghost predicate Counted(s: State) {
    forall k :: k in s.table ==> Active(s, k) != {} && s.table[k].refs == Wrap32(|Active(s, k)|)
  }

  /** The mutex a caller was given is still the one in the table under its key. */
  ghost predicate Bound(s: State) {
    forall t :: t in s.callers ==> s.callers[t].key in s.table && s.callers[t].mu == s.table[s.callers[t].key].mu
  }

  ghost predicate Separate(s: State) {
    forall k, l :: k in s.table && l in s.table && s.table[k].mu == s.table[l].mu ==> k == l
  }

  ghost predicate Owned(s: State) {
    && (forall m :: m in s.owner ==> s.owner[m] in s.callers && s.callers[s.owner[m]].mu == m && s.callers[s.owner[m]].stage == InFn)
    && (forall t :: t in s.callers && s.callers[t].stage == InFn ==> s.callers[t].mu in s.owner && s.owner[s.callers[t].mu] == t)
  }

  ghost predicate Inv(s: State) {
    Counted(s) && Bound(s) && Separate(s) && Owned(s)
  }

  /** No key has more than 2^31 callers at once: the most that the int32 count tells apart. */
  ghost predicate Uncrowded(s: State) {
    forall k :: k in s.table ==> |Active(s, k)| <= INT32_TOP
  }

  ghost predicate UncrowdedRun(run: seq<Action>) {
    forall i :: 0 <= i <= |run| && After(run[..i]).Some? ==> Uncrowded(After(run[..i]).value)
  }

  lemma GetActive(s: State, t: nat, key: string, waits: bool, mu: nat, k: string)
    requires Enabled(s, Get(t, key, waits, mu))
    ensures Active(Apply(s, Get(t, key, waits, mu)), k) == if k == key then Active(s, k) + {t} else Active(s, k)
    ensures t !in Active(s, k)
  {}

  lemma GetKeepsCounted(s: State, t: nat, key: string, waits: bool, mu: nat)
    requires Bound(s) && Counted(s) && Enabled(s, Get(t, key, waits, mu))
    ensures Counted(Apply(s, Get(t, key, waits, mu)))
  {
    var s' := Apply(s, Get(t, key, waits, mu));
    forall k | k in s'.table
      ensures Active(s', k) != {} && s'.table[k].refs == Wrap32(|Active(s', k)|)
    {
      GetActive(s, t, key, waits, mu, k);
      Wrap32Absorbs(|Active(s, k)|, 1);
      if k !in s.table {
        assert Active(s, k) == {};
      }
    }
  }

  lemma GetKeepsBinding(s: State, t: nat, key: string, waits: bool, mu: nat)
    requires Bound(s) && Separate(s) && Owned(s) && Enabled(s, Get(t, key, waits, mu))
    ensures var s' := Apply(s, Get(t, key, waits, mu)); Bound(s') && Separate(s') && Owned(s')
    ensures mu !in s.owner
  {}

  lemma LockKeepsOwned(s: State, t: nat)
    requires Owned(s) && Enabled(s, Lock(t))
    ensures Owned(Apply(s, Lock(t)))
  {}

  lemma UnlockKeepsOwned(s: State, t: nat)
    requires Owned(s) && Enabled(s, Unlock(t))
    ensures Owned(Apply(s, Unlock(t)))
  {}

  ghost predicate Hands(a: Action) {
    a.Lock? || a.Refuse? || a.Unlock?
  }

  lemma HandoverKeepsTable(s: State, a: Action)
    requires Enabled(s, a) && Hands(a)
    ensures var s' := Apply(s, a);
            && s'.table == s.table && s'.callers.Keys == s.callers.Keys
            && forall t :: t in s.callers ==> s'.callers[t].key == s.callers[t].key && s'.callers[t].mu == s.callers[t].mu
  {}

  lemma HandoverKeepsCounted(s: State, a: Action)
    requires Counted(s) && Enabled(s, a) && Hands(a)
    ensures Counted(Apply(s, a))
  {
    var s' := Apply(s, a);
    HandoverKeepsTable(s, a);
    forall k | k in s'.table ensures Active(s', k) == Active(s, k) {}
  }

  lemma HandoverKeepsBinding(s: State, a: Action)
    requires Bound(s) && Separate(s) && Enabled(s, a) && Hands(a)
    ensures Bound(Apply(s, a)) && Separate(Apply(s, a))
  {
    HandoverKeepsTable(s, a);
  }

  lemma HandoverKeepsOwned(s: State, a: Action)
    requires Owned(s) && Enabled(s, a) && Hands(a)
    ensures Owned(Apply(s, a))
  {
    match a
    case Lock(t) => LockKeepsOwned(s, t);
    case Unlock(t) => UnlockKeepsOwned(s, t);
    case Refuse(t) =>
  }

  lemma HandoverKeepsInv(s: State, a: Action)
    requires Inv(s) && Enabled(s, a) && Hands(a)
    ensures Inv(Apply(s, a))
  {
    HandoverKeepsCounted(s, a);
    HandoverKeepsBinding(s, a);
    HandoverKeepsOwned(s, a);
  }

  lemma ReleaseActive(s: State, t: nat, k: string)
    requires Enabled(s, Release(t))
    ensures Active(Apply(s, Release(t)), k) == Active(s, k) - {t}
    ensures k == s.callers[t].key ==> t in Active(s, k) && |Active(Apply(s, Release(t)), k)| == |Active(s, k)| - 1
  {}

  lemma ReleaseKeepsCountedIff(s: State, t: nat)
    requires Counted(s) && Bound(s) && Enabled(s, Release(t))
    ensures var n := |Active(s, s.callers[t].key)|;
            Counted(Apply(s, Release(t))) <==> (n == 1 ==> Wrap32(n - 1) <= 0)
  {
    var s' := Apply(s, Release(t));
    var key := s.callers[t].key;
    Wrap32Absorbs(|Active(s, key)|, -1);
    ReleaseActive(s, t, key);
    forall k | k in s'.table && k != key
      ensures Active(s', k) != {} && s'.table[k].refs == Wrap32(|Active(s', k)|)
    {
      ReleaseActive(s, t, k);
      assert Active(s', k) == Active(s, k);
    }
  }

  lemma ReleaseKeepsSeparateOwned(s: State, t: nat)
    requires Separate(s) && Owned(s) && Enabled(s, Release(t))
    ensures Separate(Apply(s, Release(t))) && Owned(Apply(s, Release(t)))
  {}

  /** The row of the released key survives exactly when the wrapped count stays positive. */
  lemma ReleaseKeepsBoundIff(s: State, t: nat)
    requires Counted(s) && Bound(s) && Enabled(s, Release(t))
    ensures var n := |Active(s, s.callers[t].key)|;
            Bound(Apply(s, Release(t))) <==> n == 1 || Wrap32(n - 1) > 0
  {
    var s' := Apply(s, Release(t));
    var key := s.callers[t].key;
    var n := |Active(s, key)|;
    Wrap32Absorbs(n, -1);
    ReleaseActive(s, t, key);
    if n == 1 {
      assert Active(s', key) == {};
      forall u | u in s'.callers ensures s'.callers[u].key != key {
        assert u !in Active(s', key);
      }
    } else {
      assert |Active(s', key)| != 0;
      var other :| other in Active(s', key);
      assert other in s'.callers && s'.callers[other].key == key;
    }
  }

  /** The row goes when, and only when, the last caller releases it: exactly what the int32 count
      can get wrong. */
  lemma ReleaseKeepsInvIff(s: State, t: nat)
    requires Inv(s) && Enabled(s, Release(t))
    ensures var n := |Active(s, s.callers[t].key)|;
            Inv(Apply(s, Release(t))) <==> n == 1 || Wrap32(n - 1) > 0
  {
    ReleaseKeepsCountedIff(s, t);
    ReleaseKeepsBoundIff(s, t);
    ReleaseKeepsSeparateOwned(s, t);
  }

  lemma GetKeepsInv(s: State, t: nat, key: string, waits: bool, mu: nat)
    requires Inv(s) && Enabled(s, Get(t, key, waits, mu))
    ensures Inv(Apply(s, Get(t, key, waits, mu)))
  {
    GetKeepsCounted(s, t, key, waits, mu);
    GetKeepsBinding(s, t, key, waits, mu);
  }

  lemma StepKeepsInv(s: State, a: Action)
    requires Inv(s) && Uncrowded(s) && Enabled(s, a)
    ensures Inv(Apply(s, a))
  {
    match a
    case Get(t, key, waits, mu) => GetKeepsInv(s, t, key, waits, mu);
    case Release(t) =>
      ReleaseKeepsInvIff(s, t);
      assert t in Active(s, s.callers[t].key);
    case _ => HandoverKeepsInv(s, a);
  }

  lemma {:induction false} RunKeepsInv(run: seq<Action>)
    requires UncrowdedRun(run) && After(run).Some?
    ensures Inv(After(run).value) && Uncrowded(After(run).value)
  {
    assert run[..|run|] == run;
    if run != [] {
      var prefix := run[..|run| - 1];
      assert forall i :: 0 <= i <= |prefix| ==> prefix[..i] == run[..i];
      RunKeepsInv(prefix);
      StepKeepsInv(After(prefix).value, run[|run| - 1]);
    }
  }

  // ----- Main results -----

  /** In every interleaving at most one caller per key is inside fn, and all callers of a key share one mutex. */
  lemma MutualExclusion(run: seq<Action>, t: nat, u: nat)
    requires UncrowdedRun(run) && After(run).Some?
    requires var s := After(run).value; t in s.callers && u in s.callers && s.callers[t].key == s.callers[u].key
    ensures var s := After(run).value;
            s.callers[t].mu == s.callers[u].mu && (s.callers[t].stage == InFn && s.callers[u].stage == InFn ==> t == u)
  {
    RunKeepsInv(run);
  }

  /** The lock table leaks nothing: a row exists exactly for the keys that have callers. */
  lemma RowsAreTheActiveKeys(run: seq<Action>)
    requires UncrowdedRun(run) && After(run).Some?
    ensures var s := After(run).value;
            && (forall k :: k in s.table <==> Active(s, k) != {})
            && (s.callers == map[] ==> s.table == map[] && s.owner == map[])
  {
    RunKeepsInv(run);
    var s := After(run).value;
    forall k ensures k in s.table <==> Active(s, k) != {} {
      if t :| t in Active(s, k) {}
    }
  }

  /** The ideal lock the table stands for: per key, the caller inside fn. */
  ghost function Holders(s: State): map<string, nat> {
    map k | k in s.table && s.table[k].mu in s.owner :: s.owner[s.table[k].mu]
  }

  /** What each step may do to the ideal lock: it is granted only when free, refused only when another
      caller of that key has it, and given back only by its holder. */
  ghost predicate IdealStep(before: map<string, nat>, a: Action, key: string, after: map<string, nat>) {
    match a
    case Lock(t) => key !in before && after == before[key := t]
    case Refuse(t) => key in before && before[key] != t && after == before
    case Unlock(t) => key in before && before[key] == t && after == before - {key}
    case _ => after == before
  }

  lemma LockRefines(s: State, t: nat)
    requires Bound(s) && Separate(s) && Enabled(s, Lock(t))
    ensures IdealStep(Holders(s), Lock(t), s.callers[t].key, Holders(Apply(s, Lock(t))))
  {
    assert Holders(Apply(s, Lock(t))) == Holders(s)[s.callers[t].key := t];
  }

  lemma UnlockRefines(s: State, t: nat)
    requires Bound(s) && Separate(s) && Owned(s) && Enabled(s, Unlock(t))
    ensures IdealStep(Holders(s), Unlock(t), s.callers[t].key, Holders(Apply(s, Unlock(t))))
  {
    var h, h', key := Holders(s), Holders(Apply(s, Unlock(t))), s.callers[t].key;
    forall k ensures k in h' <==> k in h && k != key {}
    assert h' == h - {key};
  }

  lemma RefuseRefines(s: State, t: nat)
    requires Bound(s) && Owned(s) && Enabled(s, Refuse(t))
    ensures IdealStep(Holders(s), Refuse(t), s.callers[t].key, Holders(Apply(s, Refuse(t))))
  {
    assert Holders(Apply(s, Refuse(t))) == Holders(s);
  }

  lemma GetLeavesHolders(s: State, t: nat, key: string, waits: bool, mu: nat)
    requires Enabled(s, Get(t, key, waits, mu)) && mu !in s.owner
    ensures Holders(Apply(s, Get(t, key, waits, mu))) == Holders(s)
  {}

  lemma ReleaseLeavesHolders(s: State, t: nat)
    requires Bound(s) && Separate(s) && Owned(s) && Enabled(s, Release(t)) && Bound(Apply(s, Release(t)))
    ensures Holders(Apply(s, Release(t))) == Holders(s)
  {
    var s' := Apply(s, Release(t));
    var c := s.callers[t];
    assert c.mu in s.owner ==> s.owner[c.mu] in s'.callers && s.callers[s.owner[c.mu]].key == c.key;
  }

  lemma StepRefinesIdealLock(s: State, a: Action)
    requires Inv(s) && Uncrowded(s) && Enabled(s, a)
    ensures IdealStep(Holders(s), a, if a.Get? then a.key else s.callers[a.t].key, Holders(Apply(s, a)))
  {
    match a
    case Get(t, key, waits, mu) =>
      GetKeepsBinding(s, t, key, waits, mu);
      GetLeavesHolders(s, t, key, waits, mu);
    case Lock(t) => LockRefines(s, t);
    case Refuse(t) => RefuseRefines(s, t);
    case Unlock(t) => UnlockRefines(s, t);
    case Release(t) =>
      StepKeepsInv(s, a);
      ReleaseLeavesHolders(s, t);
  }

  /** ErrLockBusy is decided only while another caller of the key is inside fn. */
  lemma RefusedOnlyWhenBusy(run: seq<Action>, t: nat) returns (holder: nat)
    requires UncrowdedRun(run) && After(run).Some? && Enabled(After(run).value, Refuse(t))
    ensures var s := After(run).value;
            && holder != t && holder in s.callers
            && s.callers[holder].key == s.callers[t].key && s.callers[holder].stage == InFn
  {
    RunKeepsInv(run);
    var s := After(run).value;
    holder := s.owner[s.callers[t].mu];
  }

  /** No deadlock: while a caller is pending, it or another caller of its own key can step. */
  lemma Progress(run: seq<Action>, t: nat) returns (a: Action)
    requires UncrowdedRun(run) && After(run).Some? && t in After(run).value.callers
    ensures var s := After(run).value;
            !a.Get? && Enabled(s, a) && a.t in Active(s, s.callers[t].key)
  {
    RunKeepsInv(run);
    var s := After(run).value;
    var c := s.callers[t];
    match c.stage
    case AtLock => a := if c.mu in s.owner then Unlock(s.owner[c.mu]) else Lock(t);
    case InFn => a := Unlock(t);
    case _ => a := Release(t);
  }

  // ----- What a call does, from getMutex to releaseMutex -----

  /** What t has done since it last called getMutex. */
  ghost function Story(run: seq<Action>, t: nat): seq<Action> {
    if run == [] then []
    else
      var a, before := run[|run| - 1], Story(run[..|run| - 1], t);
      if a.t != t then before else if a.Get? then [a] else before + [a]
  }

  /** A call that runs fn: once, between Lock and Unlock, whether it waits or tries. */
  ghost predicate RanFn(story: seq<Action>, t: nat) {
    exists key, waits, mu :: story == [Get(t, key, waits, mu), Lock(t), Unlock(t), Release(t)]
  }

  /** A call that is refused: a try, which never runs fn. */
  ghost predicate WasRefused(story: seq<Action>, t: nat) {
    exists key, mu :: story == [Get(t, key, false, mu), Refuse(t), Release(t)]
  }

  /** The story so far of a call that is under way. */
  ghost function SoFar(t: nat, c: Caller, mu: nat): seq<Action> {
    var get := Get(t, c.key, c.waits, mu);
    match c.stage
    case AtLock => [get]
    case InFn => [get, Lock(t)]
    case Refused => [get, Refuse(t)]
    case Unlocked => [get, Lock(t), Unlock(t)]
  }

  ghost predicate Underway(story: seq<Action>, t: nat, c: Caller) {
    (exists mu :: story == SoFar(t, c, mu)) && (c.stage == Refused ==> !c.waits)
  }

  ghost predicate Told(s: State, story: seq<Action>, t: nat) {
    if t in s.callers then Underway(story, t, s.callers[t])
    else story == [] || RanFn(story, t) || WasRefused(story, t)
  }

  lemma OwnStepIsTold(s: State, story: seq<Action>, a: Action)
    requires Told(s, story, a.t) && Enabled(s, a)
    ensures Told(Apply(s, a), if a.Get? then [a] else story + [a], a.t)
  {
    var t := a.t;
    var s' := Apply(s, a);
    match a
    case Get(_, key, waits, mu) => assert [a] == SoFar(t, s'.callers[t], mu);
    case Release(_) => ReleaseIsTold(s, story, t);
    case _ =>
      var mu :| story == SoFar(t, s.callers[t], mu);
      assert story + [a] == SoFar(t, s'.callers[t], mu);
  }

  lemma ReleaseIsTold(s: State, story: seq<Action>, t: nat)
    requires Told(s, story, t) && Enabled(s, Release(t))
    ensures Told(Apply(s, Release(t)), story + [Release(t)], t)
  {
    var c := s.callers[t];
    var mu :| story == SoFar(t, c, mu);
    if c.stage.Refused? {
      assert story + [Release(t)] == [Get(t, c.key, false, mu), Refuse(t), Release(t)];
    } else {
      assert story + [Release(t)] == [Get(t, c.key, c.waits, mu), Lock(t), Unlock(t), Release(t)];
    }
  }

  /** Over every run, each call that has returned ran fn exactly once, or was a try that was refused and did not run it.
      A waiting call is never refused. */
  lemma {:induction false} CallsRunFnOrAreRefused(run: seq<Action>, t: nat)
    requires After(run).Some?
    ensures Told(After(run).value, Story(run, t), t)
  {
    if run != [] {
      var prefix, a := run[..|run| - 1], run[|run| - 1];
      CallsRunFnOrAreRefused(prefix, t);
      if a.t == t {
        OwnStepIsTold(After(prefix).value, Story(prefix, t), a);
      } else {
        assert t in After(run).value.callers <==> t in After(prefix).value.callers;
      }
    }
  }

  /** A waiting call leaves only after it was inside fn. */
  lemma WaitersAlwaysRunFn(run: seq<Action>, t: nat)
    requires After(run).Some? && Story(run, t) != [] && Story(run, t)[0].Get? && Story(run, t)[0].waits
    ensures var s := After(run).value;
            if t in s.callers then !s.callers[t].stage.Refused? else RanFn(Story(run, t), t)
  {
    CallsRunFnOrAreRefused(run, t);
  }

  ghost predicate RefusedBy(run: seq<Action>, more: seq<Action>, t: nat) {
    && (forall a :: a in more && a.t == t ==> a == Refuse(t))
    && After(run + more).Some? && t in After(run + more).value.callers && After(run + more).value.callers[t].stage.Refused?
  }

  lemma FreeName(s: State) returns (name: nat)
    ensures Unreferenced(s, name)
  {
    var inTable, held := set k | k in s.table :: s.table[k].mu, set v | v in s.callers :: s.callers[v].mu;
    name := Unused(inTable + held);
    forall k | k in s.table ensures s.table[k].mu != name {
      assert s.table[k].mu in inTable;
    }
    forall v | v in s.callers ensures s.callers[v].mu != name {
      assert s.callers[v].mu in held;
    }
  }

  lemma NewcomerLocks(s: State, t: nat, u: nat, name: nat)
    requires Inv(s) && t in s.callers && u !in s.callers && Unreferenced(s, name)
    requires s.callers[t].stage == AtLock && s.callers[t].mu !in s.owner
    ensures var s1 := Apply(s, Get(u, s.callers[t].key, false, name));
            && Enabled(s1, Lock(u))
            && var s2 := Apply(s1, Lock(u));
               t in s2.callers && s2.callers[t] == s.callers[t] && s.callers[t].mu in s2.owner
  {}

  /** Somebody takes a free lock that t is about to try. */
  lemma SomebodyElseLocks(run: seq<Action>, t: nat) returns (more: seq<Action>)
    requires UncrowdedRun(run) && After(run).Some? && t in After(run).value.callers
    requires var s := After(run).value; s.callers[t].stage == AtLock && s.callers[t].mu !in s.owner
    ensures After(run + more).Some? && forall a :: a in more ==> a.t != t
    ensures var s, s' := After(run).value, After(run + more).value;
            t in s'.callers && s'.callers[t] == s.callers[t] && s.callers[t].mu in s'.owner
  {
    RunKeepsInv(run);
    var s := After(run).value;
    var u := Unused(s.callers.Keys);
    var name := FreeName(s);
    NewcomerLocks(s, t, u, name);
    var get := Get(u, s.callers[t].key, false, name);
    AfterExtend(run, get);
    AfterExtend(run + [get], Lock(u));
    more := [get] + [Lock(u)];
    assert run + more == run + [get] + [Lock(u)];
  }

  /** Exactly the calls that try can be refused: at the lock, a call can come to be refused if and only if it does not
      wait. */
  lemma RefusedIffTrying(run: seq<Action>, t: nat)
    requires UncrowdedRun(run) && After(run).Some? && t in After(run).value.callers && After(run).value.callers[t].stage == AtLock
    ensures (exists more :: RefusedBy(run, more, t)) <==> !After(run).value.callers[t].waits
  {
    var s := After(run).value;
    if !s.callers[t].waits {
      var more := [];
      if s.callers[t].mu !in s.owner {
        more := SomebodyElseLocks(run, t);
      }
      assert run + [] == run;
      AfterExtend(run + more, Refuse(t));
      assert run + (more + [Refuse(t)]) == run + more + [Refuse(t)];
      assert RefusedBy(run, more + [Refuse(t)], t);
    }
    forall more | RefusedBy(run, more, t) ensures !s.callers[t].waits {
      WaitsStays(run, more, t);
      CallsRunFnOrAreRefused(run + more, t);
      assert Underway(Story(run + more, t), t, After(run + more).value.callers[t]);
    }
  }

  /** A call that does not return keeps its way of locking. */
  lemma {:induction false} WaitsStays(run: seq<Action>, more: seq<Action>, t: nat)
    requires After(run + more).Some? && After(run).Some? && t in After(run).value.callers
    requires forall a :: a in more && a.t == t ==> a == Refuse(t)
    ensures t in After(run + more).value.callers && After(run + more).value.callers[t].waits == After(run).value.callers[t].waits
    decreases |more|
  {
    if more == [] {
      assert run + more == run;
    } else {
      var prefix := more[..|more| - 1];
      assert (run + more)[..|run + more| - 1] == run + prefix;
      assert more[|more| - 1] in more;
      WaitsStays(run, prefix, t);
    }
  }

  // ----- Past 2^31 callers the property is false -----

  /** A run that leaves n waiting callers on key and, when n > 0, caller 0 inside fn. */
  ghost function Crowd(n: nat, key: string): seq<Action> {
    if n == 0 then []
    else if n == 1 then [Get(0, key, false, 0), Lock(0)]
    else Crowd(n - 1, key) + [Get(n - 1, key, false, 1)]
  }

  ghost predicate CrowdState(s: State, n: nat, key: string) {
    && s.callers.Keys == Range(0, n)
    && (forall t :: t in s.callers ==> s.callers[t] == Caller(key, 0, false, if t == 0 then InFn else AtLock))
    && (n > 0 ==> key in s.table && s.table.Keys == {key} && s.table[key].mu == 0 && s.owner == map[0 := 0])
  }

  lemma AfterExtend(run: seq<Action>, a: Action)
    requires After(run).Some? && Enabled(After(run).value, a)
    ensures After(run + [a]) == Some(Apply(After(run).value, a))
  {
    assert (run + [a])[..|run|] == run;
  }

  lemma FirstCaller(key: string) returns (s: State)
    ensures After(Crowd(1, key)) == Some(s) && Inv(s) && CrowdState(s, 1, key)
  {
    var g := Get(0, key, false, 0);
    AfterExtend([], g);
    var s0 := Apply(INIT, g);
    assert [] + [g] == [g] && [g] + [Lock(0)] == Crowd(1, key);
    AfterExtend([g], Lock(0));
    s := Apply(s0, Lock(0));
    assert Inv(s) by {
      GetKeepsInv(INIT, 0, key, false, 0);
      HandoverKeepsInv(s0, Lock(0));
    }
    assert Range(0, 1) == {0};
  }

  lemma OneMoreCaller(s: State, n: nat, key: string)
    requires n > 0 && CrowdState(s, n, key)
    ensures Enabled(s, Get(n, key, false, 1)) && CrowdState(Apply(s, Get(n, key, false, 1)), n + 1, key)
  {
    assert n !in Range(0, n);
    var s' := Apply(s, Get(n, key, false, 1));
    assert s'.callers == s.callers[n := Caller(key, 0, false, AtLock)];
    assert s'.table.Keys == {key} && s'.table[key].mu == 0;
    assert s'.owner == s.owner;
  }

  lemma {:induction false} CrowdIsReachable(n: nat, key: string)
    requires n > 0
    ensures After(Crowd(n, key)).Some?
    ensures var s := After(Crowd(n, key)).value; Inv(s) && CrowdState(s, n, key)
  {
    if n == 1 {
      var s := FirstCaller(key);
    } else {
      CrowdIsReachable(n - 1, key);
      OneMoreCaller(After(Crowd(n - 1, key)).value, n - 1, key);
      GetKeepsInv(After(Crowd(n - 1, key)).value, n - 1, key, false, 1);
      AfterExtend(Crowd(n - 1, key), Get(n - 1, key, false, 1));
    }
  }

  lemma OverfullRelease(s: State, key: string)
    requires Counted(s) && CrowdState(s, INT32_TOP + 1, key)
    requires Enabled(s, Refuse(1)) && Enabled(Apply(s, Refuse(1)), Release(1))
    ensures Apply(Apply(s, Refuse(1)), Release(1)).table == map[]
  {
    assert Active(s, key) == s.callers.Keys;
    Wrap32Absorbs(INT32_TOP + 1, -1);
  }

  /** With one caller more than 2^31, a refused caller's release deletes the row that the others still
      use, the next caller gets a second mutex, and two callers run fn for one key. */
  lemma ExclusionFailsPastInt32(key: string) returns (run: seq<Action>, t: nat, u: nat)
    ensures After(run).Some? && t != u
    ensures var s := After(run).value;
            && t in s.callers && u in s.callers && s.callers[t].key == s.callers[u].key == key
            && s.callers[t].stage == InFn && s.callers[u].stage == InFn
  {
    var n := INT32_TOP + 1;
    CrowdIsReachable(n, key);
    run, t, u := Crowd(n, key), 0, 1;
    var s := After(run).value;
    var s1 := Apply(s, Refuse(1));
    var s2 := Apply(s1, Release(1));
    OverfullRelease(s, key);
    var s3 := Apply(s2, Get(1, key, false, 1));
    AfterExtend(run, Refuse(1));
    AfterExtend(run + [Refuse(1)], Release(1));
    AfterExtend(run + [Refuse(1)] + [Release(1)], Get(1, key, false, 1));
    AfterExtend(run + [Refuse(1)] + [Release(1)] + [Get(1, key, false, 1)], Lock(1));
    run := run + [Refuse(1)] + [Release(1)] + [Get(1, key, false, 1)] + [Lock(1)];
  }
}

/**
 What Gets that are under way do to a Delete and to a Set (components/caches/local.go:68-156): a Get that begins after a
 Delete can still return a value from before it exactly when a flight of the key was past its load, and an entry that is
 set can vanish again, unasked, exactly when a Get was about to delete a stale one.
 */
module Invalidation {
  import opened Sets
  import opened SingleFlight
  import opened Wrappers

  /** The state right after a Delete of key, with a new record of what is set or loaded from then on. A value counts as
      new when its Set comes, or its loader returns, after the Delete. */
  ghost function AfterDelete(expires: bool, s: State, key: string): State {
    Apply(expires, s, Delete(key)).(provided := {})
  }

  /** The goroutines that have begun a Get in run; a Get of theirs that is pending began there. */
  ghost function Late(run: seq<Action>): set<nat> {
    if run == [] then {}
    else
      var a := run[|run| - 1];
      Late(run[..|run| - 1]) + (if a.Begin? then {a.g} else {})
  }

  /** After run, a Get of key that began in it returns v by step a, though nobody has set or loaded v for the key since
      the Delete. */
  ghost predicate ReturnsStale(expires: bool, start: State, run: seq<Action>, a: Action, key: string, v: Value) {
    After(expires, run, start).Some? &&
    var s := After(expires, run, start).value;
    && Enabled(expires, s, a) && Replies(s, a) && Reply(s, a) == Some(v)
    && a.g in Late(run) && s.calls[a.g].key == key && (key, v) !in s.provided
  }

  /** A flight of the key has its value but is not over. */
  ghost predicate PastLoad(s: State, g: nat, key: string) {
    g in s.calls && s.calls[g].key == key
    && (s.calls[g].stage.Storing? || (s.calls[g].stage.Finishing? && s.calls[g].stage.r.Some?))
  }

  // ----- Without such a flight nothing old comes back -----

  /** The value a leader has for key, if any, is new. */
  ghost predicate LeaderNew(s: State, g: nat, key: string) {
    g in s.calls && s.calls[g].key == key ==>
      && (s.calls[g].stage.Storing? ==> (key, s.calls[g].stage.v) in s.provided)
      && (s.calls[g].stage.Finishing? && s.calls[g].stage.r.Some? ==> (key, s.calls[g].stage.r.value) in s.provided)
  }

  ghost predicate ValuesNew(s: State, key: string) {
    && (key in s.data ==> (key, s.data[key]) in s.provided)
    && (forall g :: LeaderNew(s, g, key))
  }

  /** Flights that were over at the Delete are in over; the results of all others are new, and only those are waited for
      by the Gets in late. */
  ghost predicate ResultsNew(s: State, key: string, over: set<nat>, late: set<nat>) {
    && over <= s.done.Keys
    && (forall f :: f in s.done && f !in over && s.done[f].key == key && s.done[f].r.Some? ==> (key, s.done[f].r.value) in s.provided)
    && (forall g :: g in late && g in s.calls && s.calls[g].stage.Joined? ==> s.calls[g].stage.f !in over)
  }

  lemma StepKeepsValuesNew(expires: bool, s: State, a: Action, key: string)
    requires ValuesNew(s, key) && Enabled(expires, s, a)
    ensures ValuesNew(Apply(expires, s, a), key)
  {
    var s' := Apply(expires, s, a);
    forall g ensures LeaderNew(s', g, key) {
      assert LeaderNew(s, g, key);
    }
    if a.StoreLoaded? {
      assert LeaderNew(s, a.g, key);
    }
  }

  lemma StepKeepsResultsNewOfFlight(expires: bool, s: State, a: Action, key: string, over: set<nat>, late: set<nat>)
    requires Led(s) && ValuesNew(s, key) && ResultsNew(s, key, over, late) && Enabled(expires, s, a) && OfFlight(a)
    ensures ResultsNew(Apply(expires, s, a), key, over, late)
  {
    if a.Finish? {
      assert LeaderNew(s, a.g, key);
    }
  }

  lemma StepKeepsResultsNewOnMap(expires: bool, s: State, a: Action, key: string, over: set<nat>, late: set<nat>)
    requires Led(s) && ResultsNew(s, key, over, late) && Enabled(expires, s, a) && !OfFlight(a)
    ensures ResultsNew(Apply(expires, s, a), key, over, if a.Begin? then late + {a.g} else late)
  {}

  lemma StepKeepsResultsNew(expires: bool, s: State, a: Action, key: string, over: set<nat>, late: set<nat>)
    requires Led(s) && ValuesNew(s, key) && ResultsNew(s, key, over, late) && Enabled(expires, s, a)
    ensures ResultsNew(Apply(expires, s, a), key, over, if a.Begin? then late + {a.g} else late)
  {
    if OfFlight(a) {
      StepKeepsResultsNewOfFlight(expires, s, a, key, over, late);
    } else {
      StepKeepsResultsNewOnMap(expires, s, a, key, over, late);
    }
  }

  lemma {:induction false} RunKeepsNew(expires: bool, start: State, run: seq<Action>, key: string)
    requires Led(start) && ValuesNew(start, key) && ResultsNew(start, key, start.done.Keys, {}) && After(expires, run, start).Some?
    ensures var s := After(expires, run, start).value;
            Led(s) && ValuesNew(s, key) && ResultsNew(s, key, start.done.Keys, Late(run))
  {
    if run != [] {
      var prefix, a := run[..|run| - 1], run[|run| - 1];
      RunKeepsNew(expires, start, prefix, key);
      var s := After(expires, prefix, start).value;
      StepKeepsLed(expires, s, a);
      StepKeepsValuesNew(expires, s, a, key);
      StepKeepsResultsNew(expires, s, a, key, start.done.Keys, Late(prefix));
    }
  }

  lemma NewIsReturned(s: State, a: Action, key: string, over: set<nat>, late: set<nat>, expires: bool)
    requires Led(s) && ValuesNew(s, key) && ResultsNew(s, key, over, late) && Enabled(expires, s, a)
    requires Replies(s, a) && Reply(s, a).Some? && a.g in late && s.calls[a.g].key == key
    ensures (key, Reply(s, a).value) in s.provided
  {
    assert LeaderNew(s, a.g, key);
  }

  lemma StartsNew(expires: bool, s: State, key: string)
    requires Led(s) && forall g :: !PastLoad(s, g, key)
    ensures var start := AfterDelete(expires, s, key);
            Led(start) && ValuesNew(start, key) && ResultsNew(start, key, start.done.Keys, {})
  {
    StepKeepsLed(expires, s, Delete(key));
    var start := AfterDelete(expires, s, key);
    assert start.calls == s.calls;
    forall g ensures LeaderNew(start, g, key) {
      assert !PastLoad(s, g, key);
    }
  }

  // ----- With such a flight something old does -----

  lemma {:induction false} BegunIsLate(run: seq<Action>, i: nat)
    requires i < |run| && run[i].Begin?
    ensures run[i].g in Late(run)
  {
    var prefix := run[..|run| - 1];
    if i < |prefix| {
      assert prefix[i] == run[i];
      BegunIsLate(prefix, i);
    }
  }

  /** Nothing has changed since the Delete but that h has begun a Get of key and come to stage. */
  ghost predicate AloneAt(expires: bool, start: State, run: seq<Action>, h: nat, key: string, stage: Stage) {
    After(expires, run, start) == Some(start.(calls := start.calls[h := Call(key, stage)]))
  }

  lemma Begins(expires: bool, start: State, h: nat, key: string)
    requires h !in start.calls
    ensures AloneAt(expires, start, [Begin(h, key)], h, key, First)
  {
    var run := Extend(expires, [], Begin(h, key), start);
    assert run == [Begin(h, key)];
  }

  lemma Misses(expires: bool, start: State, run: seq<Action>, h: nat, key: string)
    requires AloneAt(expires, start, run, h, key, First) && key !in start.data
    ensures AloneAt(expires, start, run + [Miss(h)], h, key, AtDo)
  {
    var s := After(expires, run, start).value;
    var longer := Extend(expires, run, Miss(h), start);
    assert s.calls[h := Call(key, AtDo)] == start.calls[h := Call(key, AtDo)];
  }

  lemma Joins(expires: bool, start: State, run: seq<Action>, h: nat, key: string)
    requires AloneAt(expires, start, run, h, key, AtDo) && key in start.flights
    ensures AloneAt(expires, start, run + [Join(h)], h, key, Joined(start.flights[key].id))
  {
    var s, stage := After(expires, run, start).value, Joined(start.flights[key].id);
    var longer := Extend(expires, run, Join(h), start);
    assert s.calls[h := Call(key, stage)] == start.calls[h := Call(key, stage)];
  }

  /** The leader stores its value after the Delete, and the next Get finds it. */
  lemma StoredLate(expires: bool, start: State, g: nat, key: string) returns (run: seq<Action>, a: Action, v: Value)
    requires PastLoad(start, g, key) && start.calls[g].stage.Storing? && start.provided == {}
    ensures ReturnsStale(expires, start, run, a, key, v)
  {
    v := start.calls[g].stage.v;
    var h := Unused(start.calls.Keys);
    Begins(expires, start, h, key);
    run := Extend(expires, [Begin(h, key)], StoreLoaded(g), start);
    a := Hit(h);
    BegunIsLate(run, 0);
  }

  /** The leader has stored its value before the Delete, and the next Get joins its flight. */
  lemma JoinedLate(expires: bool, start: State, g: nat, key: string) returns (run: seq<Action>, a: Action, v: Value)
    requires Led(start) && PastLoad(start, g, key) && start.calls[g].stage.Finishing? && start.provided == {} && key !in start.data
    ensures ReturnsStale(expires, start, run, a, key, v)
  {
    v := start.calls[g].stage.r.value;
    var h := Unused(start.calls.Keys);
    Begins(expires, start, h, key);
    Misses(expires, start, [Begin(h, key)], h, key);
    Joins(expires, start, [Begin(h, key)] + [Miss(h)], h, key);
    run := [Begin(h, key)] + [Miss(h)] + [Join(h)];
    FinishesFor(expires, start, run, g, h, key);
    BegunIsLate(run + [Finish(g)], 0);
    run, a := run + [Finish(g)], Collect(h);
  }

  lemma FinishesFor(expires: bool, start: State, run: seq<Action>, g: nat, h: nat, key: string)
    requires Led(start) && PastLoad(start, g, key) && start.calls[g].stage.Finishing? && start.provided == {} && h !in start.calls
    requires key in start.flights && AloneAt(expires, start, run, h, key, Joined(start.flights[key].id))
    ensures After(expires, run + [Finish(g)], start).Some?
    ensures var s := After(expires, run + [Finish(g)], start).value;
            && h in s.calls && s.calls[h] == Call(key, Joined(start.flights[key].id)) && s.provided == {}
            && start.flights[key].id in s.done && s.done[start.flights[key].id].r == start.calls[g].stage.r
  {
    var longer := Extend(expires, run, Finish(g), start);
  }

  /** After a Delete that has returned, a Get that begins later can still return a value from before the Delete if and only
      if, at the Delete, a flight of the key had its value and was not over. */
  lemma DeleteIsFinalIff(expires: bool, before: seq<Action>, key: string)
    requires After(expires, before).Some?
    ensures var s := After(expires, before).value;
            (exists run, a, v :: ReturnsStale(expires, AfterDelete(expires, s, key), run, a, key, v))
            <==> exists g :: PastLoad(s, g, key)
  {
    RunKeepsInv(expires, before);
    var s := After(expires, before).value;
    var start := AfterDelete(expires, s, key);
    StepKeepsLed(expires, s, Delete(key));
    if g :| PastLoad(s, g, key) {
      assert PastLoad(start, g, key);
      var run, a, v;
      if start.calls[g].stage.Storing? {
        run, a, v := StoredLate(expires, start, g, key);
      } else {
        run, a, v := JoinedLate(expires, start, g, key);
      }
      assert ReturnsStale(expires, start, run, a, key, v);
    } else {
      StartsNew(expires, s, key);
      forall run, a, v ensures !ReturnsStale(expires, start, run, a, key, v) {
        NothingStale(expires, start, run, a, key, v);
      }
    }
  }

  lemma NothingStale(expires: bool, start: State, run: seq<Action>, a: Action, key: string, v: Value)
    requires Led(start) && ValuesNew(start, key) && ResultsNew(start, key, start.done.Keys, {})
    ensures !ReturnsStale(expires, start, run, a, key, v)
  {
    if After(expires, run, start).Some? {
      RunKeepsNew(expires, start, run, key);
      var s := After(expires, run, start).value;
      if Enabled(expires, s, a) && Replies(s, a) && Reply(s, a).Some? && a.g in Late(run) && s.calls[a.g].key == key {
        NewIsReturned(s, a, key, start.done.Keys, Late(run), expires);
      }
    }
  }

  // ----- Entries that vanish -----

  /** Between finding an entry of key stale and deleting it. */
  ghost predicate AboutToDrop(s: State, g: nat, key: string) {
    g in s.calls && s.calls[g].key == key && (s.calls[g].stage.Stale? || s.calls[g].stage.StaleInFlight?)
  }

  /** A reason to remove the entry of key: it is deleted, or found stale. */
  ghost predicate Removes(s: State, a: Action, key: string) {
    a == Delete(key) || (a.FindStale? && a.g in s.calls && s.calls[a.g].key == key)
  }

  ghost predicate NoReason(expires: bool, start: State, run: seq<Action>, key: string) {
    forall i :: 0 <= i < |run| && After(expires, run[..i], start).Some? ==> !Removes(After(expires, run[..i], start).value, run[i], key)
  }

  /** In run nobody deletes the key or finds its entry stale, and yet it ends without the entry. */
  ghost predicate Vanishes(expires: bool, start: State, run: seq<Action>, key: string) {
    After(expires, run, start).Some? && NoReason(expires, start, run, key) && key !in After(expires, run, start).value.data
  }

  ghost predicate Kept(s: State, key: string) {
    key in s.data && forall g :: !AboutToDrop(s, g, key)
  }

  lemma StepKeepsKept(expires: bool, s: State, a: Action, key: string)
    requires Kept(s, key) && Enabled(expires, s, a) && !Removes(s, a, key)
    ensures Kept(Apply(expires, s, a), key)
  {
    var s' := Apply(expires, s, a);
    if a.DropStale? {
      assert !AboutToDrop(s, a.g, key);
    }
    forall g ensures !AboutToDrop(s', g, key) {
      assert !AboutToDrop(s, g, key);
    }
  }

  lemma {:induction false} RunKeepsKept(expires: bool, start: State, run: seq<Action>, key: string)
    requires Kept(start, key) && After(expires, run, start).Some? && NoReason(expires, start, run, key)
    ensures Kept(After(expires, run, start).value, key)
  {
    if run != [] {
      var prefix := run[..|run| - 1];
      assert forall i :: 0 <= i < |prefix| ==> prefix[..i] == run[..i];
      RunKeepsKept(expires, start, prefix, key);
      StepKeepsKept(expires, After(expires, prefix, start).value, run[|run| - 1], key);
    }
  }

  lemma DropVanishes(expires: bool, start: State, g: nat, key: string)
    requires AboutToDrop(start, g, key)
    ensures Vanishes(expires, start, [DropStale(g)], key)
  {
    var run := Extend(expires, [], DropStale(g), start);
    assert run == [DropStale(g)];
  }

  /** An entry just set can vanish, although nobody deletes the key or finds the new entry stale, if and only if at the Set a
      Get of the key had found an entry stale and not deleted it yet. Otherwise the key stays present. */
  lemma SetVanishesIff(expires: bool, s: State, key: string, w: Value)
    ensures (exists run :: Vanishes(expires, Apply(expires, s, Set(key, w)), run, key)) <==> exists g :: AboutToDrop(s, g, key)
  {
    var start := Apply(expires, s, Set(key, w));
    assert start.calls == s.calls;
    if g :| AboutToDrop(s, g, key) {
      assert AboutToDrop(start, g, key);
      DropVanishes(expires, start, g, key);
    } else {
      forall g ensures !AboutToDrop(start, g, key) {
        assert !AboutToDrop(s, g, key);
      }
      forall run ensures !Vanishes(expires, start, run, key) {
        if After(expires, run, start).Some? && NoReason(expires, start, run, key) {
          RunKeepsKept(expires, start, run, key);
        }
      }
    }
  }
}

/**
 Any number of goroutines in LocalCache.Get, beside Set, Delete, Clean and cleanup (components/caches/local.go:68-169,
 190-198): the first check, the single flight per key, the re-check inside it, the load and the store.

 Each look at the shared map, each change of it and each entry into or end of a flight is one atomic step. Clean and
 cleanup are Deletes of one key at a time. Whether an entry with a lifetime is found expired is left open.
 */
module SingleFlight {
  import opened Wrappers

  type Value = int

  /** f is the flight a goroutine leads or waits for. Between finding an entry stale and deleting it, the map may
      change. */
  datatype Stage =
    | First
    | Stale
    | AtDo
    | Recheck(f: nat)
    | StaleInFlight(f: nat)
    | Loading(f: nat)
    | Storing(f: nat, v: Value)
    | Finishing(f: nat, r: Option<Value>)
    | Joined(f: nat)

  datatype Call = Call(key: string, stage: Stage)

  datatype Flight = Flight(id: nat, leader: nat)

  datatype Outcome = Outcome(key: string, r: Option<Value>)

  /** History: loads counts successful loader calls and removals the deletions that found an entry; provided holds what was
      ever set or loaded under a key, returned what Get returned, and failed the flights whose load failed. */
  datatype State = State(
    data: map<string, Value>, calls: map<nat, Call>, flights: map<string, Flight>,
    done: map<nat, Outcome>, next: nat,
    loads: map<string, nat>, removals: map<string, nat>,
    provided: set<(string, Value)>, returned: set<(string, Value)>, failed: set<nat>)

  const INIT := State(map[], map[], map[], map[], 0, map[], map[], {}, {}, {})

  datatype Action =
    | Begin(g: nat, key: string)
    | Hit(g: nat)
    | FindStale(g: nat)
    | Miss(g: nat)
    | DropStale(g: nat)
    | Join(g: nat)
    | Lead(g: nat)
    | LoadOk(g: nat, v: Value)
    | LoadFails(g: nat)
    | StoreLoaded(g: nat)
    | Finish(g: nat)
    | Collect(g: nat)
    | Set(key: string, v: Value)
    | Delete(key: string)

  ghost predicate Leading(stage: Stage) {
    stage.Recheck? || stage.StaleInFlight? || stage.Loading? || stage.Storing? || stage.Finishing?
  }

  /** expires tells whether the cache has a positive lifetime. */
  ghost predicate Enabled(expires: bool, s: State, a: Action) {
    match a
    case Begin(g, _) => g !in s.calls
    case Set(_, _) => true
    case Delete(_) => true
    case _ =>
      a.g in s.calls &&
      var c := s.calls[a.g];
      match a
      case Hit(_) => (c.stage.First? || c.stage.Recheck?) && c.key in s.data
      case FindStale(_) => expires && (c.stage.First? || c.stage.Recheck?) && c.key in s.data
      case Miss(_) => (c.stage.First? || c.stage.Recheck?) && c.key !in s.data
      case DropStale(_) => c.stage.Stale? || c.stage.StaleInFlight?
      case Join(_) => c.stage.AtDo? && c.key in s.flights
      case Lead(_) => c.stage.AtDo? && c.key !in s.flights
      case LoadOk(_, _) => c.stage.Loading?
      case LoadFails(_) => c.stage.Loading?
      case StoreLoaded(_) => c.stage.Storing?
      case Finish(_) => c.stage.Finishing?
      case Collect(_) => c.stage.Joined? && c.stage.f in s.done
      case _ => false
  }

  ghost function Total(m: map<string, nat>, key: string): nat {
    if key in m then m[key] else 0
  }

  ghost function AtStage(s: State, g: nat, stage: Stage): State
    requires g in s.calls
  {
    s.(calls := s.calls[g := s.calls[g].(stage := stage)])
  }

  ghost function Without(s: State, key: string): State {
    s.(data := s.data - {key},
       removals := if key in s.data then s.removals[key := Total(s.removals, key) + 1] else s.removals)
  }

  ghost function Returned(s: State, g: nat, r: Option<Value>): State
    requires g in s.calls
  {
    s.(calls := s.calls - {g}, returned := if r.Some? then s.returned + {(s.calls[g].key, r.value)} else s.returned)
  }

  ghost function Apply(expires: bool, s: State, a: Action): State
    requires Enabled(expires, s, a)
  {
    match a
    case Begin(g, key) => s.(calls := s.calls[g := Call(key, First)])
    case Set(key, v) => s.(data := s.data[key := v], provided := s.provided + {(key, v)})
    case Delete(key) => Without(s, key)
    case Hit(g) =>
      var c := s.calls[g];
      if c.stage.First? then Returned(s, g, Some(s.data[c.key]))
      else AtStage(s, g, Finishing(c.stage.f, Some(s.data[c.key])))
    case FindStale(g) =>
      var c := s.calls[g];
      AtStage(s, g, if c.stage.First? then Stale else StaleInFlight(c.stage.f))
    case Miss(g) =>
      var c := s.calls[g];
      AtStage(s, g, if c.stage.First? then AtDo else Loading(c.stage.f))
    case DropStale(g) =>
      var c := s.calls[g];
      Without(AtStage(s, g, if c.stage.Stale? then AtDo else Loading(c.stage.f)), c.key)
    case Join(g) => AtStage(s, g, Joined(s.flights[s.calls[g].key].id))
    case Lead(g) =>
      AtStage(s, g, Recheck(s.next)).(flights := s.flights[s.calls[g].key := Flight(s.next, g)], next := s.next + 1)
    case LoadOk(g, v) =>
      var c := s.calls[g];
      AtStage(s, g, Storing(c.stage.f, v))
      .(loads := s.loads[c.key := Total(s.loads, c.key) + 1], provided := s.provided + {(c.key, v)})
    case LoadFails(g) => AtStage(s, g, Finishing(s.calls[g].stage.f, None)).(failed := s.failed + {s.calls[g].stage.f})
    case StoreLoaded(g) =>
      var c := s.calls[g];
      AtStage(s, g, Finishing(c.stage.f, Some(c.stage.v))).(data := s.data[c.key := c.stage.v])
    case Finish(g) =>
      var c := s.calls[g];
      Returned(s, g, c.stage.r).(flights := s.flights - {c.key}, done := s.done[c.stage.f := Outcome(c.key, c.stage.r)])
    case Collect(g) => Returned(s, g, s.done[s.calls[g].stage.f].r)
  }

  ghost function After(expires: bool, run: seq<Action>, start: State := INIT): Option<State> {
    if run == [] then Some(start)
    else
      var before := After(expires, run[..|run| - 1], start);
      var a := run[|run| - 1];
      if before.Some? && Enabled(expires, before.value, a) then Some(Apply(expires, before.value, a)) else None
  }

  // ----- Invariant: one leader per key -----

  ghost predicate LeadersFly(s: State) {
    forall g :: g in s.calls && Leading(s.calls[g].stage) ==>
      s.calls[g].key in s.flights && s.flights[s.calls[g].key] == Flight(s.calls[g].stage.f, g)
  }

  ghost predicate FlightsLed(s: State) {
    forall k :: k in s.flights ==>
      && s.flights[k].id < s.next && s.flights[k].id !in s.done
      && s.flights[k].leader in s.calls
      && s.calls[s.flights[k].leader].key == k && Leading(s.calls[s.flights[k].leader].stage)
  }

  /** A waiter's flight is over, with its own key's result, or still led. */
  ghost predicate WaitersServed(s: State) {
    && (forall f :: f in s.done ==> f < s.next)
    && (forall g :: g in s.calls && s.calls[g].stage.Joined? ==>
          var f := s.calls[g].stage.f;
          if f in s.done then s.done[f].key == s.calls[g].key
          else s.calls[g].key in s.flights && s.flights[s.calls[g].key].id == f)
  }

  ghost predicate FlightsDiffer(s: State) {
    forall k, l :: k in s.flights && l in s.flights && s.flights[k].id == s.flights[l].id ==> k == l
  }

  ghost predicate Led(s: State) {
    LeadersFly(s) && FlightsLed(s) && FlightsDiffer(s) && WaitersServed(s)
  }

  lemma StepKeepsFlightsDiffer(expires: bool, s: State, a: Action)
    requires FlightsLed(s) && FlightsDiffer(s) && Enabled(expires, s, a)
    ensures FlightsDiffer(Apply(expires, s, a))
  {}

  /** The steps that enter, perform or end a flight, as against those that look at or change the map. */
  ghost predicate OfFlight(a: Action) {
    a.Join? || a.Lead? || a.LoadOk? || a.LoadFails? || a.StoreLoaded? || a.Finish? || a.Collect?
  }

  lemma StepKeepsLeadersFlyOfFlight(expires: bool, s: State, a: Action)
    requires Led(s) && Enabled(expires, s, a) && OfFlight(a)
    ensures LeadersFly(Apply(expires, s, a))
  {}

  lemma StepKeepsLeadersFlyOnMap(expires: bool, s: State, a: Action)
    requires Led(s) && Enabled(expires, s, a) && !OfFlight(a)
    ensures LeadersFly(Apply(expires, s, a))
  {}

  lemma StepKeepsLeadersFly(expires: bool, s: State, a: Action)
    requires Led(s) && Enabled(expires, s, a)
    ensures LeadersFly(Apply(expires, s, a))
  {
    if OfFlight(a) {
      StepKeepsLeadersFlyOfFlight(expires, s, a);
    } else {
      StepKeepsLeadersFlyOnMap(expires, s, a);
    }
  }

  lemma StepKeepsFlightsLedOfFlight(expires: bool, s: State, a: Action)
    requires Led(s) && Enabled(expires, s, a) && OfFlight(a)
    ensures FlightsLed(Apply(expires, s, a))
  {
    if a.Finish? {
      FinishKeepsFlightsLed(expires, s, a.g);
    }
  }

  lemma FinishKeepsFlightsLed(expires: bool, s: State, g: nat)
    requires Led(s) && Enabled(expires, s, Finish(g))
    ensures FlightsLed(Apply(expires, s, Finish(g)))
  {}

  lemma StepKeepsFlightsLedOnMap(expires: bool, s: State, a: Action)
    requires Led(s) && Enabled(expires, s, a) && !OfFlight(a)
    ensures FlightsLed(Apply(expires, s, a))
  {}

  lemma StepKeepsFlightsLed(expires: bool, s: State, a: Action)
    requires Led(s) && Enabled(expires, s, a)
    ensures FlightsLed(Apply(expires, s, a))
  {
    if OfFlight(a) {
      StepKeepsFlightsLedOfFlight(expires, s, a);
    } else {
      StepKeepsFlightsLedOnMap(expires, s, a);
    }
  }

  lemma StepKeepsWaitersServedOfFlight(expires: bool, s: State, a: Action)
    requires Led(s) && Enabled(expires, s, a) && OfFlight(a)
    ensures WaitersServed(Apply(expires, s, a))
  {}

  lemma StepKeepsWaitersServedOnMap(expires: bool, s: State, a: Action)
    requires Led(s) && Enabled(expires, s, a) && !OfFlight(a)
    ensures WaitersServed(Apply(expires, s, a))
  {}

  lemma StepKeepsWaitersServed(expires: bool, s: State, a: Action)
    requires Led(s) && Enabled(expires, s, a)
    ensures WaitersServed(Apply(expires, s, a))
  {
    if OfFlight(a) {
      StepKeepsWaitersServedOfFlight(expires, s, a);
    } else {
      StepKeepsWaitersServedOnMap(expires, s, a);
    }
  }

  lemma StepKeepsLed(expires: bool, s: State, a: Action)
    requires Led(s) && Enabled(expires, s, a)
    ensures Led(Apply(expires, s, a))
  {
    StepKeepsLeadersFly(expires, s, a);
    StepKeepsFlightsLed(expires, s, a);
    StepKeepsFlightsDiffer(expires, s, a);
    StepKeepsWaitersServed(expires, s, a);
  }

  // ----- Invariant: loads are paid for by removals -----

  ghost predicate LeaderAt(s: State, key: string, loading: bool) {
    key in s.flights && s.flights[key].leader in s.calls
    && var stage := s.calls[s.flights[key].leader].stage;
       if loading then stage.Loading? else stage.Storing?
  }

  /** The allowance: one load more than removals, and none more while the key is absent with no loaded value
      on its way into the map, in particular when a load begins. */
  ghost predicate Paid(s: State, k: string) {
    && Total(s.loads, k) <= Total(s.removals, k) + 1
    && (LeaderAt(s, k, true) || (k !in s.data && !LeaderAt(s, k, false)) ==> Total(s.loads, k) <= Total(s.removals, k))
  }

  ghost predicate LoadsPaid(s: State) {
    forall k :: Paid(s, k)
  }

  lemma KeyStaysPaidOfFlight(expires: bool, s: State, a: Action, k: string)
    requires Led(s) && Paid(s, k) && Enabled(expires, s, a) && OfFlight(a)
    ensures Paid(Apply(expires, s, a), k)
  {}

  lemma KeyStaysPaidOnMap(expires: bool, s: State, a: Action, k: string)
    requires Led(s) && Paid(s, k) && Enabled(expires, s, a) && !OfFlight(a)
    ensures Paid(Apply(expires, s, a), k)
  {}

  lemma StepKeepsLoadsPaid(expires: bool, s: State, a: Action)
    requires Led(s) && LoadsPaid(s) && Enabled(expires, s, a)
    ensures LoadsPaid(Apply(expires, s, a))
  {
    forall k ensures Paid(Apply(expires, s, a), k) {
      if OfFlight(a) {
        KeyStaysPaidOfFlight(expires, s, a, k);
      } else {
        KeyStaysPaidOnMap(expires, s, a, k);
      }
    }
  }

  // ----- Invariant: every value was set or loaded for its key -----

  ghost predicate DataProvided(s: State) {
    forall k :: k in s.data ==> (k, s.data[k]) in s.provided
  }

  ghost predicate ResultsProvided(s: State) {
    && (forall g :: g in s.calls && s.calls[g].stage.Storing? ==> (s.calls[g].key, s.calls[g].stage.v) in s.provided)
    && (forall g :: g in s.calls && s.calls[g].stage.Finishing? && s.calls[g].stage.r.Some? ==>
          (s.calls[g].key, s.calls[g].stage.r.value) in s.provided)
    && (forall f :: f in s.done && s.done[f].r.Some? ==> (s.done[f].key, s.done[f].r.value) in s.provided)
    && s.returned <= s.provided
  }

  lemma StepKeepsDataProvided(expires: bool, s: State, a: Action)
    requires DataProvided(s) && ResultsProvided(s) && Enabled(expires, s, a)
    ensures DataProvided(Apply(expires, s, a))
  {}

  lemma StepKeepsResultsProvidedOfFlight(expires: bool, s: State, a: Action)
    requires WaitersServed(s) && DataProvided(s) && ResultsProvided(s) && Enabled(expires, s, a) && OfFlight(a)
    ensures ResultsProvided(Apply(expires, s, a))
  {}

  lemma StepKeepsResultsProvidedOnMap(expires: bool, s: State, a: Action)
    requires WaitersServed(s) && DataProvided(s) && ResultsProvided(s) && Enabled(expires, s, a) && !OfFlight(a)
    ensures ResultsProvided(Apply(expires, s, a))
  {}

  lemma StepKeepsResultsProvided(expires: bool, s: State, a: Action)
    requires WaitersServed(s) && DataProvided(s) && ResultsProvided(s) && Enabled(expires, s, a)
    ensures ResultsProvided(Apply(expires, s, a))
  {
    if OfFlight(a) {
      StepKeepsResultsProvidedOfFlight(expires, s, a);
    } else {
      StepKeepsResultsProvidedOnMap(expires, s, a);
    }
  }

  lemma {:induction false} RunKeepsInv(expires: bool, run: seq<Action>)
    requires After(expires, run).Some?
    ensures var s := After(expires, run).value; Led(s) && LoadsPaid(s) && DataProvided(s) && ResultsProvided(s)
  {
    if run != [] {
      var prefix, a := run[..|run| - 1], run[|run| - 1];
      RunKeepsInv(expires, prefix);
      var s := After(expires, prefix).value;
      StepKeepsLed(expires, s, a);
      StepKeepsLoadsPaid(expires, s, a);
      StepKeepsDataProvided(expires, s, a);
      StepKeepsResultsProvided(expires, s, a);
    }
  }

  // ----- Main results -----

  /** Loader calls for one key never overlap, in any interleaving. */
  lemma LoadsNeverOverlap(expires: bool, run: seq<Action>, g: nat, h: nat)
    requires After(expires, run).Some?
    requires var s := After(expires, run).value;
             && g in s.calls && s.calls[g].stage.Loading? && h in s.calls && s.calls[h].stage.Loading?
             && s.calls[g].key == s.calls[h].key
    ensures g == h
  {
    RunKeepsInv(expires, run);
  }

  /** A key is loaded at most once more than its entry was removed, by expiry, Delete or Clean. */
  lemma LoadsAreBounded(expires: bool, run: seq<Action>, key: string)
    requires After(expires, run).Some?
    ensures var s := After(expires, run).value; Total(s.loads, key) <= Total(s.removals, key) + 1
  {
    RunKeepsInv(expires, run);
    assert Paid(After(expires, run).value, key);
  }

  ghost predicate Untouched(s: State) {
    s.removals == map[] && forall g :: g in s.calls ==> !s.calls[g].stage.Stale? && !s.calls[g].stage.StaleInFlight?
  }

  lemma StepKeepsUntouched(s: State, a: Action)
    requires Untouched(s) && Enabled(false, s, a) && !a.Delete?
    ensures Untouched(Apply(false, s, a))
  {}

  lemma {:induction false} NothingRemoved(run: seq<Action>)
    requires After(false, run).Some? && forall a :: a in run ==> !a.Delete?
    ensures Untouched(After(false, run).value)
  {
    if run != [] {
      NothingRemoved(run[..|run| - 1]);
      StepKeepsUntouched(After(false, run[..|run| - 1]).value, run[|run| - 1]);
    }
  }

  /** With a lifetime of zero or less and no Delete or Clean, the loader succeeds at most once per key. */
  lemma OneLoadPerKey(run: seq<Action>, key: string)
    requires After(false, run).Some? && forall a :: a in run ==> !a.Delete?
    ensures Total(After(false, run).value.loads, key) <= 1
  {
    NothingRemoved(run);
    LoadsAreBounded(false, run, key);
  }

  /** Every value Get returned was set or loaded under that key. */
  lemma ReturnsAreGenuine(expires: bool, run: seq<Action>, key: string, v: Value)
    requires After(expires, run).Some? && (key, v) in After(expires, run).value.returned
    ensures (key, v) in After(expires, run).value.provided
  {
    RunKeepsInv(expires, run);
  }

  /** Nobody waits for a flight that will not end: while a Get is pending, it or the leader of its key's flight can step. */
  lemma SomeoneCanStep(expires: bool, run: seq<Action>, g: nat) returns (a: Action)
    requires After(expires, run).Some? && g in After(expires, run).value.calls
    ensures var s := After(expires, run).value;
            && Enabled(expires, s, a) && !a.Begin? && !a.Set? && !a.Delete?
            && a.g in s.calls && s.calls[a.g].key == s.calls[g].key
  {
    RunKeepsInv(expires, run);
    var s := After(expires, run).value;
    var c := s.calls[g];
    if c.stage.Joined? && c.stage.f !in s.done {
      a := LeaderStep(expires, s, s.flights[c.key].leader);
    } else if c.stage.Joined? {
      a := Collect(g);
    } else if Leading(c.stage) {
      a := LeaderStep(expires, s, g);
    } else {
      a := if c.stage.First? then (if c.key in s.data then Hit(g) else Miss(g))
           else if c.stage.Stale? then DropStale(g)
           else if c.key in s.flights then Join(g) else Lead(g);
    }
  }

  lemma LeaderStep(expires: bool, s: State, g: nat) returns (a: Action)
    requires g in s.calls && Leading(s.calls[g].stage)
    ensures Enabled(expires, s, a) && !a.Begin? && !a.Set? && !a.Delete? && a.g == g
  {
    var c := s.calls[g];
    match c.stage
    case Recheck(_) => a := if c.key in s.data then Hit(g) else Miss(g);
    case StaleInFlight(_) => a := DropStale(g);
    case Loading(_) => a := LoadFails(g);
    case Storing(_, _) => a := StoreLoaded(g);
    case Finishing(_, _) => a := Finish(g);
  }

  lemma Extend(expires: bool, run: seq<Action>, a: Action, start: State := INIT) returns (longer: seq<Action>)
    requires After(expires, run, start).Some? && Enabled(expires, After(expires, run, start).value, a)
    ensures longer == run + [a] && After(expires, longer, start) == Some(Apply(expires, After(expires, run, start).value, a))
  {
    longer := run + [a];
    assert longer[..|run|] == run;
  }

  /** Deleting a stale entry is not atomic with finding it: a Get can delete the fresh entry that a Set stored in
      between, so with a lifetime the concurrent cache does not behave like a map. Module Invalidation says when. */
  lemma StaleDeleteDropsFreshEntry(key: string, v: Value, w: Value) returns (run: seq<Action>)
    ensures After(true, run).Some? && key !in After(true, run).value.data
    ensures |run| == 5 && run[3] == Set(key, w) && forall a :: a in run ==> !a.Delete?
  {
    run := Extend(true, [], Set(key, v));
    run := Extend(true, run, Begin(0, key));
    run := Extend(true, run, FindStale(0));
    run := Extend(true, run, Set(key, w));
    run := Extend(true, run, DropStale(0));
  }

  // ----- What a Get returns -----

  /** The steps by which a Get returns: a hit at its first look, the end of the flight it leads, or that of the flight it
      waits for. */
  ghost predicate Replies(s: State, a: Action) {
    (a.Hit? || a.Finish? || a.Collect?) && a.g in s.calls &&
    var c := s.calls[a.g];
    || (a.Hit? && c.stage.First? && c.key in s.data)
    || (a.Finish? && c.stage.Finishing?)
    || (a.Collect? && c.stage.Joined? && c.stage.f in s.done)
  }

  /** What it returns: a value, or an error. */
  ghost function Reply(s: State, a: Action): Option<Value>
    requires Replies(s, a)
  {
    var c := s.calls[a.g];
    if a.Hit? then Some(s.data[c.key]) else if a.Finish? then c.stage.r else s.done[c.stage.f].r
  }

  /** Those are the steps by which a Get leaves, and what it returns is what is recorded. */
  lemma ReplyIsReturned(expires: bool, s: State, a: Action, g: nat)
    requires Enabled(expires, s, a) && g in s.calls
    ensures g !in Apply(expires, s, a).calls <==> Replies(s, a) && a.g == g
    ensures Apply(expires, s, a).returned
         == s.returned + if Replies(s, a) && Reply(s, a).Some? then {(s.calls[a.g].key, Reply(s, a).value)} else {}
  {}

  /** The flights that ended with an error are exactly those whose load failed. */
  ghost predicate ErrorsExplained(s: State) {
    && (forall f :: f in s.done ==> (s.done[f].r == None <==> f in s.failed))
    && (forall g :: g in s.calls && Leading(s.calls[g].stage) ==>
          (s.calls[g].stage.f in s.failed <==> s.calls[g].stage.Finishing? && s.calls[g].stage.r == None))
    && (forall f :: f in s.failed ==> f < s.next)
  }

  lemma StepKeepsErrorsOfFlight(expires: bool, s: State, a: Action)
    requires Led(s) && ErrorsExplained(s) && Enabled(expires, s, a) && OfFlight(a)
    ensures ErrorsExplained(Apply(expires, s, a))
  {}

  lemma StepKeepsErrorsOnMap(expires: bool, s: State, a: Action)
    requires Led(s) && ErrorsExplained(s) && Enabled(expires, s, a) && !OfFlight(a)
    ensures ErrorsExplained(Apply(expires, s, a))
  {}

  lemma {:induction false} RunKeepsErrors(expires: bool, run: seq<Action>)
    requires After(expires, run).Some?
    ensures ErrorsExplained(After(expires, run).value)
  {
    if run != [] {
      var prefix, a := run[..|run| - 1], run[|run| - 1];
      RunKeepsErrors(expires, prefix);
      RunKeepsInv(expires, prefix);
      if OfFlight(a) {
        StepKeepsErrorsOfFlight(expires, After(expires, prefix).value, a);
      } else {
        StepKeepsErrorsOnMap(expires, After(expires, prefix).value, a);
      }
    }
  }

  /** A Get fails if and only if the load of its flight failed; a hit at the first look never does. */
  lemma GetFailsIff(expires: bool, run: seq<Action>, a: Action)
    requires After(expires, run).Some? && Replies(After(expires, run).value, a)
    ensures var s := After(expires, run).value;
            Reply(s, a) == None <==> !a.Hit? && s.calls[a.g].stage.f in s.failed
  {
    RunKeepsErrors(expires, run);
  }

  lemma {:induction false} DoneStays(expires: bool, start: State, run: seq<Action>, f: nat)
    requires Led(start) && f in start.done && After(expires, run, start).Some?
    ensures var s := After(expires, run, start).value; Led(s) && f in s.done && s.done[f] == start.done[f]
  {
    if run != [] {
      var prefix, a := run[..|run| - 1], run[|run| - 1];
      DoneStays(expires, start, prefix, f);
      StepKeepsLed(expires, After(expires, prefix, start).value, a);
    }
  }

  /** Everybody who waits for a flight gets what its leader gets, value or error, however much later. */
  lemma JoinersGetTheLeadersResult(expires: bool, before: seq<Action>, leader: nat, after: seq<Action>, g: nat)
    requires After(expires, before).Some? && Enabled(expires, After(expires, before).value, Finish(leader))
    requires var s := After(expires, before).value;
             var t := After(expires, after, Apply(expires, s, Finish(leader)));
             t.Some? && g in t.value.calls && t.value.calls[g].stage == Joined(s.calls[leader].stage.f)
    ensures var s := After(expires, before).value;
            var t := After(expires, after, Apply(expires, s, Finish(leader))).value;
            Enabled(expires, t, Collect(g)) && Reply(t, Collect(g)) == Reply(s, Finish(leader))
  {
    RunKeepsInv(expires, before);
    var s := After(expires, before).value;
    StepKeepsLed(expires, s, Finish(leader));
    DoneStays(expires, Apply(expires, s, Finish(leader)), after, s.calls[leader].stage.f);
  }
}

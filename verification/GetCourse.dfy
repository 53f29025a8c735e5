/**
 The course of a LocalCache.Get, from its first look at the map to its return (components/caches/local.go:68-121).
 */
module GetCourse {
  import opened SingleFlight
  import opened Wrappers

  /** The steps of a Get, without the goroutine that makes them. */
  datatype Step = Began | DidHit | FoundStale | Missed | Dropped | DidJoin | DidLead | DidLoad | DidFail | DidStore | Finished | Collected

  ghost function StepOf(a: Action): Step
    requires !a.Set? && !a.Delete?
  {
    match a
    case Begin(_, _) => Began
    case Hit(_) => DidHit
    case FindStale(_) => FoundStale
    case Miss(_) => Missed
    case DropStale(_) => Dropped
    case Join(_) => DidJoin
    case Lead(_) => DidLead
    case LoadOk(_, _) => DidLoad
    case LoadFails(_) => DidFail
    case StoreLoaded(_) => DidStore
    case Finish(_) => Finished
    case Collect(_) => Collected
  }

  ghost predicate StepsOf(a: Action, g: nat) {
    !a.Set? && !a.Delete? && a.g == g
  }

  /** What g has done since it last began a Get. */
  ghost function Course(run: seq<Action>, g: nat): seq<Step> {
    if run == [] then []
    else
      var a, before := run[|run| - 1], Course(run[..|run| - 1], g);
      if !StepsOf(a, g) then before else if a.Begin? then [Began] else before + [StepOf(a)]
  }

  /** The key it last began a Get of. */
  ghost function KeyBegun(run: seq<Action>, g: nat): Option<string> {
    if run == [] then None
    else if run[|run| - 1].Begin? && run[|run| - 1].g == g then Some(run[|run| - 1].key)
    else KeyBegun(run[..|run| - 1], g)
  }

  /** A look at the map that finds nothing to return: no entry, or a stale one, which is deleted. */
  ghost function Look(stale: bool): seq<Step> {
    if stale then [FoundStale, Dropped] else [Missed]
  }

  /** The course of a Get that is at stage, if its first and second look were as given. */
  ghost function Towards(stage: Stage, first: bool, second: bool): seq<seq<Step>> {
    var outside := [Began] + Look(first);
    var inside := outside + [DidLead] + Look(second);
    match stage
    case First => [[Began]]
    case Stale => [[Began, FoundStale]]
    case AtDo => [outside]
    case Joined(_) => [outside + [DidJoin]]
    case Recheck(_) => [outside + [DidLead]]
    case StaleInFlight(_) => [outside + [DidLead] + [FoundStale]]
    case Loading(_) => [inside]
    case Storing(_, _) => [inside + [DidLoad]]
    case Finishing(_, r) =>
      if r == None then [inside + [DidFail]] else [outside + [DidLead] + [DidHit], inside + [DidLoad] + [DidStore]]
  }

  ghost predicate OnCourse(course: seq<Step>, stage: Stage) {
    exists first, second :: course in Towards(stage, first, second)
  }

  /** The courses of a Get that has returned: a hit; a wait for another's flight; or a flight of its own, with a second
      look and, if that finds nothing, one load, stored when it succeeds. */
  ghost function Whole(first: bool, second: bool): seq<seq<Step>> {
    var outside := [Began] + Look(first);
    var inside := outside + [DidLead] + Look(second);
    [ [Began] + [DidHit], outside + [DidJoin] + [Collected], outside + [DidLead] + [DidHit] + [Finished],
      inside + [DidFail] + [Finished], inside + [DidLoad] + [DidStore] + [Finished] ]
  }

  ghost predicate HasReturned(course: seq<Step>) {
    exists first, second :: course in Whole(first, second)
  }

  ghost predicate Told(s: State, course: seq<Step>, g: nat) {
    if g in s.calls then OnCourse(course, s.calls[g].stage) else course == [] || HasReturned(course)
  }

  lemma BeginIsTold(expires: bool, s: State, g: nat, key: string)
    requires Enabled(expires, s, Begin(g, key))
    ensures Told(Apply(expires, s, Begin(g, key)), [Began], g)
  {
    assert [Began] in Towards(First, false, false);
  }

  lemma LookIsTold(expires: bool, s: State, course: seq<Step>, a: Action)
    requires Enabled(expires, s, a) && (a.Hit? || a.FindStale? || a.Miss? || a.DropStale?) && Told(s, course, a.g)
    ensures Told(Apply(expires, s, a), course + [StepOf(a)], a.g)
  {
    var g := a.g;
    var stage := s.calls[g].stage;
    var first, second :| course in Towards(stage, first, second);
    if a.Hit? && stage.First? {
      assert course + [DidHit] in Whole(first, second);
    } else {
      var stage' := Apply(expires, s, a).calls[g].stage;
      var f, d := if stage.First? || stage.Stale? then !a.Miss? else first, if stage.First? || stage.Stale? then false else !a.Miss?;
      assert [Began, FoundStale] + [Dropped] == [Began] + Look(true);
      assert [Began] + [FoundStale] == [Began, FoundStale];
      var base := [Began] + Look(first) + [DidLead];
      assert base + [FoundStale] + [Dropped] == base + Look(true);
      assert course + [StepOf(a)] in Towards(stage', f, d);
    }
  }

  lemma FlightIsTold(expires: bool, s: State, course: seq<Step>, a: Action)
    requires Enabled(expires, s, a) && OfFlight(a) && Told(s, course, a.g)
    ensures Told(Apply(expires, s, a), course + [StepOf(a)], a.g)
  {
    var g := a.g;
    var stage := s.calls[g].stage;
    var first, second :| course in Towards(stage, first, second);
    if a.Finish? || a.Collect? {
      assert course + [StepOf(a)] in Whole(first, second);
    } else {
      var stage' := Apply(expires, s, a).calls[g].stage;
      assert course + [StepOf(a)] in Towards(stage', first, second);
    }
  }

  lemma OthersStay(expires: bool, s: State, a: Action, g: nat)
    requires Enabled(expires, s, a) && !StepsOf(a, g)
    ensures g in Apply(expires, s, a).calls <==> g in s.calls
    ensures g in s.calls ==> Apply(expires, s, a).calls[g] == s.calls[g]
  {}

  /** Over every run every Get takes one of the courses above: it looks once, and if that finds nothing, waits for the
      flight of its key or leads it, looks again, and loads at most once. */
  lemma {:induction false} GetsTakeTheirCourse(expires: bool, run: seq<Action>, g: nat)
    requires After(expires, run).Some?
    ensures Told(After(expires, run).value, Course(run, g), g)
    ensures g in After(expires, run).value.calls ==> KeyBegun(run, g) == Some(After(expires, run).value.calls[g].key)
  {
    if run != [] {
      var prefix, a := run[..|run| - 1], run[|run| - 1];
      GetsTakeTheirCourse(expires, prefix, g);
      var s := After(expires, prefix).value;
      if !StepsOf(a, g) {
        OthersStay(expires, s, a, g);
      } else if a.Begin? {
        BeginIsTold(expires, s, g, a.key);
      } else if OfFlight(a) {
        FlightIsTold(expires, s, Course(prefix, g), a);
        KeyStays(expires, s, a);
      } else {
        LookIsTold(expires, s, Course(prefix, g), a);
        KeyStays(expires, s, a);
      }
    }
  }

  lemma KeyStays(expires: bool, s: State, a: Action)
    requires Enabled(expires, s, a) && !a.Begin? && !a.Set? && !a.Delete?
    ensures a.g in Apply(expires, s, a).calls ==> Apply(expires, s, a).calls[a.g].key == s.calls[a.g].key
  {}
}

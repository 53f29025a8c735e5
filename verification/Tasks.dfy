/**
 The task scheduler (components/tasks/task.go:42-164, 202-232) with every read and write of a flag as a step of its own.

 Wrappers are numbered as they are made. The scheduler may visit any wrapper that is in the table at that moment, which
 covers every order in which Go may walk the map. The table starts empty and allocated.
 */
module Tasks {
  import opened Wrappers

  /** running and stop are the flags; active counts runs inside Run, ending those that have returned from it but not yet
      reset the flag, started and ended all launches and all resets so far. */
  datatype Wrapper = Wrapper(id: string, running: bool, stop: bool, due: int, active: nat, ending: nat, started: nat, ended: nat) {
    function InFlight(): nat {
      active + ending
    }
  }

  /** How far the tick loop has come with the wrapper at hand. */
  datatype Stage =
    | Waiting
    | Picked(w: nat)
    | NotRunning(w: nat)
    | NotStopped(w: nat)
    | Timed(w: nat, due: int)
    | Overdue(w: nat, due: int)
    | Marked(w: nat, due: int)

  datatype Start = Start(w: nat, due: int, at: int)

  datatype State = State(table: map<string, nat>, wrappers: seq<Wrapper>, stage: Stage, now: int, starts: seq<Start>)

  datatype Action =
    | Add(id: string, due: int)
    | Remove(id: string)
    | Pause(id: string)
    | Resume(id: string)
    | Pick(id: string)
    | Proceed
    | Finish(w: nat)
    | Reset(w: nat)
    | Reschedule(w: nat, due: int)
    | Pass(time: nat)

  const INIT: State := State(map[], [], Waiting, 0, [])

  // ----- Steps -----

  ghost predicate Sane(s: State) {
    && (forall id :: id in s.table ==> id != "" && s.table[id] < |s.wrappers| && s.wrappers[s.table[id]].id == id)
    && (s.stage.Waiting? || s.stage.w < |s.wrappers|)
  }

  ghost predicate Enabled(s: State, a: Action) {
    match a
    case Add(id, _) => id != "" && id !in s.table
    case Remove(id) => id in s.table
    case Pause(id) => id in s.table
    case Resume(id) => id in s.table
    case Pick(id) => s.stage.Waiting? && id in s.table
    case Proceed => !s.stage.Waiting?
    case Finish(w) => w < |s.wrappers| && s.wrappers[w].active > 0
    case Reset(w) => w < |s.wrappers| && s.wrappers[w].ending > 0
    case Reschedule(w, _) => w < |s.wrappers|
    case Pass(_) => true
  }

  /** The next thing the loop does with the wrapper it is at. */
  function AfterProceed(s: State): State
    requires !s.stage.Waiting? && s.stage.w < |s.wrappers|
  {
    var w := s.stage.w;
    var t := s.wrappers[w];
    match s.stage
    case Picked(_) => s.(stage := if t.running then Waiting else NotRunning(w))
    case NotRunning(_) => s.(stage := if t.stop then Waiting else NotStopped(w))
    case NotStopped(_) => s.(stage := Timed(w, t.due))
    case Timed(_, due) => s.(stage := if due < s.now then Overdue(w, due) else Waiting)
    case Overdue(_, due) => s.(stage := Marked(w, due), wrappers := s.wrappers[w := t.(running := true)])
    case Marked(_, due) =>
      s.(stage := Waiting, wrappers := s.wrappers[w := t.(active := t.active + 1, started := t.started + 1)],
         starts := s.starts + [Start(w, due, s.now)])
  }

  function Apply(s: State, a: Action): State
    requires Sane(s) && Enabled(s, a)
  {
    match a
    case Add(id, due) =>
      s.(table := s.table[id := |s.wrappers|], wrappers := s.wrappers + [Wrapper(id, false, false, due, 0, 0, 0, 0)])
    case Remove(id) => s.(table := s.table - {id})
    case Pause(id) => s.(wrappers := s.wrappers[s.table[id] := s.wrappers[s.table[id]].(stop := true)])
    case Resume(id) => s.(wrappers := s.wrappers[s.table[id] := s.wrappers[s.table[id]].(stop := false)])
    case Pick(id) => s.(stage := Picked(s.table[id]))
    case Proceed => AfterProceed(s)
    case Finish(w) =>
      var t := s.wrappers[w];
      s.(wrappers := s.wrappers[w := t.(active := t.active - 1, ending := t.ending + 1)])
    case Reset(w) =>
      var t := s.wrappers[w];
      s.(wrappers := s.wrappers[w := t.(running := false, ending := t.ending - 1, ended := t.ended + 1)])
    case Reschedule(w, due) => s.(wrappers := s.wrappers[w := s.wrappers[w].(due := due)])
    case Pass(time) => s.(now := s.now + time)
  }

  lemma ProceedKeepsSane(s: State)
    requires Sane(s) && Enabled(s, Proceed)
    ensures Sane(Apply(s, Proceed))
  {}

  lemma OtherKeepsSane(s: State, a: Action)
    requires Sane(s) && Enabled(s, a) && !a.Proceed?
    ensures Sane(Apply(s, a))
  {}

  lemma StepKeepsSane(s: State, a: Action)
    requires Sane(s) && Enabled(s, a)
    ensures Sane(Apply(s, a))
  {
    if a.Proceed? {
      ProceedKeepsSane(s);
    } else {
      OtherKeepsSane(s, a);
    }
  }

  ghost function Run(s: State, acts: seq<Action>): (r: Option<State>)
    requires Sane(s)
    ensures r.Some? ==> Sane(r.value)
    decreases |acts|
  {
    if acts == [] then Some(s)
    else if !Enabled(s, acts[0]) then None
    else
      StepKeepsSane(s, acts[0]);
      Run(Apply(s, acts[0]), acts[1..])
  }

  // ----- At most one run in flight -----

  /** The flag of a wrapper says whether a run is launched or about to be. */
  ghost predicate FlagTellsFlight(t: Wrapper, marked: bool) {
    && t.InFlight() + (if marked then 1 else 0) == (if t.running then 1 else 0)
    && t.started == t.ended + t.InFlight()
  }

  ghost predicate MarkedAt(s: State, w: nat) {
    s.stage.Marked? && s.stage.w == w
  }

  ghost predicate Flags(s: State) {
    forall w :: 0 <= w < |s.wrappers| ==> FlagTellsFlight(s.wrappers[w], MarkedAt(s, w))
  }

  /** Between its check of running and its own write of it, the scheduler can rely on the flag. */
  ghost predicate Clear(s: State) {
    s.stage.Waiting? || s.stage.Picked? || s.stage.Marked? || (s.stage.w < |s.wrappers| && !s.wrappers[s.stage.w].running)
  }

  ghost predicate OnTime(s: State) {
    && (s.stage.Overdue? || s.stage.Marked? ==> s.stage.due < s.now)
    && forall i :: 0 <= i < |s.starts| ==> s.starts[i].due < s.starts[i].at <= s.now
  }

  ghost predicate Inv(s: State) {
    Sane(s) && Flags(s) && Clear(s) && OnTime(s)
  }

  lemma StepKeepsFlags(s: State, a: Action)
    requires Sane(s) && Flags(s) && Clear(s) && Enabled(s, a)
    ensures Flags(Apply(s, a))
  {
    var next := Apply(s, a);
    forall w | 0 <= w < |next.wrappers| ensures FlagTellsFlight(next.wrappers[w], MarkedAt(next, w)) {
      assert w < |s.wrappers| ==> FlagTellsFlight(s.wrappers[w], MarkedAt(s, w));
    }
  }

  lemma StepKeepsClear(s: State, a: Action)
    requires Sane(s) && Clear(s) && Enabled(s, a)
    ensures Clear(Apply(s, a))
  {}

  lemma StepKeepsOnTime(s: State, a: Action)
    requires Sane(s) && OnTime(s) && Enabled(s, a)
    ensures OnTime(Apply(s, a))
  {}

  lemma StepKeepsInv(s: State, a: Action)
    requires Inv(s) && Enabled(s, a)
    ensures Inv(Apply(s, a))
  {
    StepKeepsSane(s, a);
    StepKeepsFlags(s, a);
    StepKeepsClear(s, a);
    StepKeepsOnTime(s, a);
  }

  lemma {:induction false} RunKeepsInv(s: State, acts: seq<Action>)
    requires Inv(s) && Run(s, acts).Some?
    ensures Inv(Run(s, acts).value)
    decreases |acts|
  {
    if acts != [] {
      StepKeepsInv(s, acts[0]);
      RunKeepsInv(Apply(s, acts[0]), acts[1..]);
    }
  }

  /** In every run no wrapper has two runs in flight, every launch beyond the one in flight has ended, and every launch
      came after the execution time that was read for it. */
  lemma OneRunPerWrapper(acts: seq<Action>, w: nat)
    requires Run(INIT, acts).Some? && w < |Run(INIT, acts).value.wrappers|
    ensures var t := Run(INIT, acts).value.wrappers[w];
            t.active <= 1 && t.InFlight() <= 1 && t.ended <= t.started <= t.ended + 1 && (t.InFlight() == 1 ==> t.running)
    ensures forall i :: 0 <= i < |Run(INIT, acts).value.starts| ==>
                          Run(INIT, acts).value.starts[i].due < Run(INIT, acts).value.starts[i].at
  {
    RunKeepsInv(INIT, acts);
    var s := Run(INIT, acts).value;
    assert FlagTellsFlight(s.wrappers[w], MarkedAt(s, w));
  }

  // ----- At most one run for an id -----

  /** Every wrapper made so far is still the one in the table under its id. */
  ghost predicate NoneReplaced(s: State, id: string) {
    forall w :: 0 <= w < |s.wrappers| && s.wrappers[w].id == id ==> id in s.table && s.table[id] == w
  }

  lemma StepKeepsNoneReplaced(s: State, a: Action, id: string)
    requires Sane(s) && NoneReplaced(s, id) && Enabled(s, a) && a != Remove(id)
    ensures NoneReplaced(Apply(s, a), id)
  {
    var next := Apply(s, a);
    forall w | 0 <= w < |next.wrappers| && next.wrappers[w].id == id ensures id in next.table && next.table[id] == w {
      assert w < |s.wrappers| ==> s.wrappers[w].id == id;
    }
  }

  lemma {:induction false} RunKeepsNoneReplaced(s: State, acts: seq<Action>, id: string)
    requires Sane(s) && NoneReplaced(s, id) && Remove(id) !in acts && Run(s, acts).Some?
    ensures NoneReplaced(Run(s, acts).value, id)
    decreases |acts|
  {
    if acts != [] {
      StepKeepsSane(s, acts[0]);
      StepKeepsNoneReplaced(s, acts[0], id);
      RunKeepsNoneReplaced(Apply(s, acts[0]), acts[1..], id);
    }
  }

  /** As long as an id is never removed, its runs never overlap: all of them belong to one wrapper, which has at most one
      in flight. */
  lemma OneRunPerId(acts: seq<Action>, id: string, v: nat, w: nat)
    requires Run(INIT, acts).Some? && Remove(id) !in acts
    requires var s := Run(INIT, acts).value;
             && v < |s.wrappers| && w < |s.wrappers| && s.wrappers[v].id == s.wrappers[w].id == id
    ensures v == w && Run(INIT, acts).value.wrappers[w].InFlight() <= 1
  {
    RunKeepsNoneReplaced(INIT, acts, id);
    OneRunPerWrapper(acts, w);
  }

  // ----- What the callers' steps do to a wrapper -----

  /** Adding makes a new idle wrapper with what was asked for; pausing, resuming and rescheduling change one field of one
      wrapper; and the rest leaves id, due and pause flag alone. */
  lemma CallersChangeOnlySo(s: State, a: Action, w: nat)
    requires Sane(s) && Enabled(s, a) && w < |Apply(s, a).wrappers|
    ensures w >= |s.wrappers| ==>
              a.Add? && w == |s.wrappers| && Apply(s, a).wrappers[w] == Wrapper(a.id, false, false, a.due, 0, 0, 0, 0)
              && a.id in Apply(s, a).table && Apply(s, a).table[a.id] == w
    ensures w < |s.wrappers| ==>
              var t, t' := s.wrappers[w], Apply(s, a).wrappers[w];
              && t'.id == t.id
              && t'.due == (if a.Reschedule? && a.w == w then a.due else t.due)
              && t'.stop == (if a.Pause? && s.table[a.id] == w then true else if a.Resume? && s.table[a.id] == w then false else t.stop)
              && t'.active == t.active + (if a.Proceed? && MarkedAt(s, w) then 1 else 0) - (if a == Finish(w) then 1 else 0)
              && t'.ended == t.ended + (if a == Reset(w) then 1 else 0)
  {}

  // ----- Pausing and removing -----

  /** A launch of w is already decided: the scheduler is past its look at the pause flag. */
  function Decided(s: State, w: nat): nat {
    if (s.stage.NotStopped? || s.stage.Timed? || s.stage.Overdue? || s.stage.Marked?) && s.stage.w == w then 1 else 0
  }

  /** A launch of w can still follow although the scheduler will not come to w again: it is decided, or the scheduler is
      at w and w is not paused. */
  function MayStart(s: State, w: nat): nat
    requires w < |s.wrappers|
  {
    if Decided(s, w) == 1 || (!s.stage.Waiting? && s.stage.w == w && !s.wrappers[w].stop) then 1 else 0
  }

  lemma PausedStep(s: State, a: Action, w: nat)
    requires Sane(s) && Enabled(s, a) && w < |s.wrappers| && s.wrappers[w].stop && a != Resume(s.wrappers[w].id)
    ensures w < |Apply(s, a).wrappers| && Apply(s, a).wrappers[w].stop && Apply(s, a).wrappers[w].id == s.wrappers[w].id
    ensures Apply(s, a).wrappers[w].started + Decided(Apply(s, a), w) <= s.wrappers[w].started + Decided(s, w)
  {}

  lemma {:induction false} PausedBudget(s: State, acts: seq<Action>, w: nat)
    requires Sane(s) && w < |s.wrappers| && s.wrappers[w].stop && Run(s, acts).Some?
    requires Resume(s.wrappers[w].id) !in acts
    ensures w < |Run(s, acts).value.wrappers| && Run(s, acts).value.wrappers[w].stop
    ensures Run(s, acts).value.wrappers[w].started + Decided(Run(s, acts).value, w) <= s.wrappers[w].started + Decided(s, w)
    decreases |acts|
  {
    if acts != [] {
      StepKeepsSane(s, acts[0]);
      PausedStep(s, acts[0], w);
      PausedBudget(Apply(s, acts[0]), acts[1..], w);
    }
  }

  /** From the moment a task is paused until it is resumed, it starts at most once more, and only if the scheduler had
      already seen it unpaused. */
  lemma PausedStartsAtMostOnce(s: State, id: string, acts: seq<Action>)
    requires Sane(s) && id in s.table && Resume(id) !in acts && Run(Apply(s, Pause(id)), acts).Some?
    ensures var w := s.table[id];
            w < |Run(Apply(s, Pause(id)), acts).value.wrappers| &&
            Run(Apply(s, Pause(id)), acts).value.wrappers[w].started <= s.wrappers[w].started + Decided(s, w)
  {
    PausedBudget(Apply(s, Pause(id)), acts, s.table[id]);
  }

  ghost predicate Gone(s: State, w: nat) {
    forall id :: id in s.table ==> s.table[id] != w
  }

  lemma GoneStep(s: State, a: Action, w: nat)
    requires Sane(s) && Enabled(s, a) && w < |s.wrappers| && Gone(s, w)
    ensures w < |Apply(s, a).wrappers| && Gone(Apply(s, a), w)
    ensures Apply(s, a).wrappers[w].started + MayStart(Apply(s, a), w) <= s.wrappers[w].started + MayStart(s, w)
  {}

  lemma {:induction false} GoneBudget(s: State, acts: seq<Action>, w: nat)
    requires Sane(s) && w < |s.wrappers| && Gone(s, w) && Run(s, acts).Some?
    ensures w < |Run(s, acts).value.wrappers| && Gone(Run(s, acts).value, w)
    ensures Run(s, acts).value.wrappers[w].started + MayStart(Run(s, acts).value, w) <= s.wrappers[w].started + MayStart(s, w)
    decreases |acts|
  {
    if acts != [] {
      StepKeepsSane(s, acts[0]);
      GoneStep(s, acts[0], w);
      GoneBudget(Apply(s, acts[0]), acts[1..], w);
    }
  }

  lemma RemovedIsGone(s: State, id: string)
    requires Sane(s) && id in s.table
    ensures Gone(Apply(s, Remove(id)), s.table[id])
  {
    var next := Apply(s, Remove(id));
    forall k | k in next.table ensures next.table[k] != s.table[id] {
      assert s.wrappers[s.table[k]].id == k;
    }
  }

  /** A removed task starts at most once more, whatever is added or resumed later, and only if the scheduler was at it and
      had not yet to look at its pause flag, or would find it clear. */
  lemma RemovedStartsAtMostOnce(s: State, id: string, acts: seq<Action>)
    requires Sane(s) && id in s.table && Run(Apply(s, Remove(id)), acts).Some?
    ensures var w := s.table[id];
            w < |Run(Apply(s, Remove(id)), acts).value.wrappers| &&
            Run(Apply(s, Remove(id)), acts).value.wrappers[w].started <= s.wrappers[w].started + MayStart(s, w)
  {
    RemovedIsGone(s, id);
    GoneBudget(Apply(s, Remove(id)), acts, s.table[id]);
  }

  // ----- The starts that remain do happen -----

  lemma Prepend(s: State, a: Action, rest: seq<Action>)
    requires Sane(s) && Enabled(s, a)
    ensures Sane(Apply(s, a)) && Run(s, [a] + rest) == Run(Apply(s, a), rest)
  {
    StepKeepsSane(s, a);
    assert ([a] + rest)[1..] == rest;
  }

  /** acts lead from s to a state in which w has been launched and the scheduler is done with it; nothing else changes but
      the time. */
  ghost predicate Launches(s: State, acts: seq<Action>, w: nat)
    requires Sane(s) && w < |s.wrappers|
  {
    Run(s, acts).Some? &&
    var next := Run(s, acts).value;
    && next.stage == Waiting && next.table == s.table && |next.wrappers| == |s.wrappers|
    && next.wrappers[w].started == s.wrappers[w].started + 1 && next.wrappers[w].active > 0 && next.wrappers[w].id == s.wrappers[w].id
    && forall u :: 0 <= u < |s.wrappers| && u != w ==> next.wrappers[u] == s.wrappers[u]
  }

  /** The steps of the scheduler, of the clock and of running tasks, as against those of callers. */
  ghost predicate ByItself(acts: seq<Action>) {
    forall a :: a in acts ==> a.Proceed? || a.Pass? || a.Finish? || a.Reset?
  }

  lemma LaunchesLater(s: State, a: Action, rest: seq<Action>, w: nat)
    requires Sane(s) && Enabled(s, a) && w < |s.wrappers| && Sane(Apply(s, a))
    requires a == Proceed || a.Pass? || a == Finish(w) || a == Reset(w)
    requires !s.stage.Waiting? && s.stage.w == w && !s.stage.Marked?
    requires Launches(Apply(s, a), rest, w) && ByItself(rest)
    ensures Launches(s, [a] + rest, w) && ByItself([a] + rest)
  {
    Prepend(s, a, rest);
  }

  /** How many steps at most lead from a stage at w to the launch. */
  function ToGo(s: State, w: nat): nat
    requires w < |s.wrappers|
  {
    match s.stage
    case Waiting => 0
    case Picked(_) => 6 + s.wrappers[w].active * 2 + s.wrappers[w].ending
    case NotRunning(_) => 5
    case NotStopped(_) => 4
    case Timed(_, due) => if due < s.now then 2 else 3
    case Overdue(_, _) => 1
    case Marked(_, _) => 0
  }

  /** The next step towards the launch. */
  function NextStep(s: State, w: nat): Action
    requires w < |s.wrappers|
  {
    if s.stage.Picked? && s.wrappers[w].active > 0 then Finish(w)
    else if s.stage.Picked? && s.wrappers[w].ending > 0 then Reset(w)
    else if s.stage.Timed? && s.stage.due >= s.now then Pass(s.stage.due - s.now + 1)
    else Proceed
  }

  lemma NextStepHelps(s: State, w: nat)
    requires Sane(s) && w < |s.wrappers| && MayStart(s, w) == 1 && !s.stage.Marked?
    requires s.stage.Picked? ==> FlagTellsFlight(s.wrappers[w], false)
    ensures var a := NextStep(s, w);
            && Enabled(s, a) && Sane(Apply(s, a)) && MayStart(Apply(s, a), w) == 1 && ToGo(Apply(s, a), w) < ToGo(s, w)
            && (Apply(s, a).stage.Picked? ==> FlagTellsFlight(Apply(s, a).wrappers[w], false))
  {
    StepKeepsSane(s, NextStep(s, w));
  }

  lemma {:induction false} StartHappens(s: State, w: nat) returns (acts: seq<Action>)
    requires Sane(s) && w < |s.wrappers| && MayStart(s, w) == 1
    requires s.stage.Picked? ==> FlagTellsFlight(s.wrappers[w], false)
    ensures Launches(s, acts, w) && ByItself(acts)
    decreases ToGo(s, w)
  {
    if s.stage.Marked? {
      acts := [Proceed];
      Prepend(s, Proceed, []);
      assert [Proceed] + [] == acts;
    } else {
      NextStepHelps(s, w);
      var a := NextStep(s, w);
      var rest := StartHappens(Apply(s, a), w);
      LaunchesLater(s, a, rest, w);
      acts := [a] + rest;
    }
  }

  /** Some run from s starts w. */
  ghost predicate StartsIn(s: State, acts: seq<Action>, w: nat)
    requires Sane(s) && w < |s.wrappers|
  {
    Run(s, acts).Some? && w < |Run(s, acts).value.wrappers| && Run(s, acts).value.wrappers[w].started > s.wrappers[w].started
  }

  /** A paused task that is not resumed can still start exactly if the scheduler was past its look at the pause flag. */
  lemma PausedStartIff(s: State, id: string)
    requires Sane(s) && id in s.table
    ensures Sane(Apply(s, Pause(id)))
    ensures var w := s.table[id];
            (exists acts :: Resume(id) !in acts && StartsIn(Apply(s, Pause(id)), acts, w)) <==> Decided(s, w) == 1
  {
    var w, next := s.table[id], Apply(s, Pause(id));
    StepKeepsSane(s, Pause(id));
    if Decided(s, w) == 1 {
      var acts := StartHappens(next, w);
      assert Resume(id) !in acts && StartsIn(next, acts, w);
    }
    forall acts | Resume(id) !in acts && StartsIn(next, acts, w) ensures Decided(s, w) == 1 {
      PausedStartsAtMostOnce(s, id, acts);
    }
  }

  /** A removed task can still start exactly if the scheduler was past its look at the pause flag, or was at the task and
      would find it clear. */
  lemma RemovedStartIff(s: State, id: string)
    requires Inv(s) && id in s.table
    ensures Sane(Apply(s, Remove(id)))
    ensures var w := s.table[id];
            (exists acts :: StartsIn(Apply(s, Remove(id)), acts, w)) <==> MayStart(s, w) == 1
  {
    var w, next := s.table[id], Apply(s, Remove(id));
    StepKeepsSane(s, Remove(id));
    if MayStart(s, w) == 1 {
      assert FlagTellsFlight(s.wrappers[w], MarkedAt(s, w));
      var acts := StartHappens(next, w);
      assert StartsIn(next, acts, w);
    }
    forall acts | StartsIn(next, acts, w) ensures MayStart(s, w) == 1 {
      RemovedStartsAtMostOnce(s, id, acts);
    }
  }

  // ----- Undisturbed visits, and resuming -----

  /** What a visit that nobody disturbs does. */
  ghost predicate Visited(s: State, acts: seq<Action>, w: nat, starts: bool)
    requires Sane(s) && w < |s.wrappers|
  {
    Run(s, acts).Some? && (forall a :: a in acts ==> a == Proceed) &&
    var next := Run(s, acts).value;
    && next.stage == Waiting && next.table == s.table && next.now == s.now && |next.wrappers| == |s.wrappers|
    && (forall u :: 0 <= u < |s.wrappers| && u != w ==> next.wrappers[u] == s.wrappers[u])
    && var t := s.wrappers[w];
       next.wrappers[w] == if starts then t.(running := true, active := t.active + 1, started := t.started + 1) else t
  }

  /** Whether the scheduler, having come so far with w, will start it if nobody interferes. */
  ghost predicate WillStart(s: State, w: nat)
    requires w < |s.wrappers|
  {
    var t := s.wrappers[w];
    match s.stage
    case Waiting => false
    case Picked(_) => !t.running && !t.stop && t.due < s.now
    case NotRunning(_) => !t.stop && t.due < s.now
    case NotStopped(_) => t.due < s.now
    case Timed(_, due) => due < s.now
    case Overdue(_, _) => true
    case Marked(_, _) => true
  }

  lemma ProceedTowards(s: State, w: nat)
    requires Sane(s) && !s.stage.Waiting? && s.stage.w == w
    ensures var next := Apply(s, Proceed);
            && Sane(next) && StagesLeft(next.stage) < StagesLeft(s.stage) && |next.wrappers| == |s.wrappers|
            && (!next.stage.Waiting? ==> next.stage.w == w && (WillStart(next, w) <==> WillStart(s, w)))
            && (next.stage.Waiting? ==> (WillStart(s, w) <==> s.stage.Marked?))
  {
    StepKeepsSane(s, Proceed);
  }

  lemma {:induction false} VisitGoesOn(s: State, w: nat) returns (acts: seq<Action>)
    requires Sane(s) && !s.stage.Waiting? && s.stage.w == w && (s.stage.Marked? ==> s.wrappers[w].running)
    ensures Visited(s, acts, w, WillStart(s, w))
    decreases StagesLeft(s.stage)
  {
    ProceedTowards(s, w);
    var next := Apply(s, Proceed);
    if next.stage.Waiting? {
      acts := [Proceed];
      Prepend(s, Proceed, []);
      assert [Proceed] + [] == acts;
    } else {
      var rest := VisitGoesOn(next, w);
      VisitPrepends(s, rest, w);
      acts := [Proceed] + rest;
    }
  }

  lemma VisitPrepends(s: State, rest: seq<Action>, w: nat)
    requires Sane(s) && !s.stage.Waiting? && s.stage.w == w && !s.stage.Marked? && Sane(Apply(s, Proceed))
    requires var next := Apply(s, Proceed);
             !next.stage.Waiting? && w < |next.wrappers| && (WillStart(next, w) <==> WillStart(s, w)) && Visited(next, rest, w, WillStart(next, w))
    requires s.stage.Overdue? ==> WillStart(s, w)
    ensures Visited(s, [Proceed] + rest, w, WillStart(s, w))
  {
    Prepend(s, Proceed, rest);
  }

  /** A visit that nobody disturbs starts a task exactly if it is not running, not paused and overdue, as Sweep does, and
      changes nothing else. */
  lemma UndisturbedVisit(s: State, id: string) returns (acts: seq<Action>)
    requires Sane(s) && s.stage.Waiting? && id in s.table
    ensures Sane(Apply(s, Pick(id)))
    ensures var t := s.wrappers[s.table[id]];
            Visited(Apply(s, Pick(id)), acts, s.table[id], !t.running && !t.stop && t.due < s.now)
  {
    StepKeepsSane(s, Pick(id));
    acts := VisitGoesOn(Apply(s, Pick(id)), s.table[id]);
  }

  /** After a resume a task can always start again, wherever the scheduler is and whether or not it is still running. */
  lemma ResumedCanStart(s: State, id: string) returns (acts: seq<Action>)
    requires Inv(s) && id in s.table
    ensures Sane(Apply(s, Resume(id)))
    ensures StartsIn(Apply(s, Resume(id)), acts, s.table[id]) && Resume(id) !in acts
  {
    var w, next := s.table[id], Apply(s, Resume(id));
    StepKeepsInv(s, Resume(id));
    var first := SettlingHappens(next);
    RunKeepsInv(next, first);
    var mid := Run(next, first).value;
    StepKeepsInv(mid, Pick(id));
    var picked := Apply(mid, Pick(id));
    SettledKeepsFlags(next, first, w);
    assert FlagTellsFlight(picked.wrappers[w], MarkedAt(picked, w));
    var rest := StartHappens(picked, w);
    Prepend(mid, Pick(id), rest);
    RunJoins(next, first, [Pick(id)] + rest);
    acts := first + ([Pick(id)] + rest);
  }

  // ----- Overlap with a successor of the same id -----

  /** After acts, w and a wrapper v made for the same id since s are inside Run at the same time. */
  ghost predicate Overlaps(s: State, acts: seq<Action>, w: nat, v: nat)
    requires Sane(s) && w < |s.wrappers|
  {
    Run(s, acts).Some? &&
    var t := Run(s, acts).value.wrappers;
    |s.wrappers| <= v < |t| && t[v].id == s.wrappers[w].id && t[v].active > 0 && t[w].active > 0
  }

  /** Only a start puts a task inside Run. */
  lemma ActiveStep(s: State, a: Action, w: nat)
    requires Sane(s) && Enabled(s, a) && w < |s.wrappers|
    ensures w < |Apply(s, a).wrappers|
    ensures Apply(s, a).wrappers[w].active + s.wrappers[w].started <= s.wrappers[w].active + Apply(s, a).wrappers[w].started
  {}

  lemma {:induction false} ActiveBudget(s: State, acts: seq<Action>, w: nat)
    requires Sane(s) && w < |s.wrappers| && Run(s, acts).Some?
    ensures w < |Run(s, acts).value.wrappers|
    ensures Run(s, acts).value.wrappers[w].active + s.wrappers[w].started
         <= s.wrappers[w].active + Run(s, acts).value.wrappers[w].started
    decreases |acts|
  {
    if acts != [] {
      StepKeepsSane(s, acts[0]);
      ActiveStep(s, acts[0], w);
      ActiveBudget(Apply(s, acts[0]), acts[1..], w);
    }
  }

  /** acts bring the scheduler to its next choice; no run ends meanwhile. */
  ghost predicate Settles(s: State, acts: seq<Action>)
    requires Sane(s)
  {
    Run(s, acts).Some? &&
    var next := Run(s, acts).value;
    && next.stage == Waiting && next.table == s.table && |next.wrappers| == |s.wrappers|
    && (forall a :: a in acts ==> a == Proceed)
    && forall u :: 0 <= u < |s.wrappers| ==>
                     && next.wrappers[u].active >= s.wrappers[u].active && next.wrappers[u].started >= s.wrappers[u].started
                     && next.wrappers[u].id == s.wrappers[u].id && next.wrappers[u].stop == s.wrappers[u].stop
  }

  lemma SettledKeepsFlags(s: State, acts: seq<Action>, w: nat)
    requires Sane(s) && Settles(s, acts) && w < |s.wrappers|
    ensures Run(s, acts).value.wrappers[w].stop == s.wrappers[w].stop && Run(s, acts).value.wrappers[w].started >= s.wrappers[w].started
  {}

  function StagesLeft(stage: Stage): nat {
    match stage
    case Waiting => 0
    case Marked(_, _) => 1
    case Overdue(_, _) => 2
    case Timed(_, _) => 3
    case NotStopped(_) => 4
    case NotRunning(_) => 5
    case Picked(_) => 6
  }

  lemma ProceedSettles(s: State, rest: seq<Action>)
    requires Sane(s) && !s.stage.Waiting? && Sane(Apply(s, Proceed)) && Settles(Apply(s, Proceed), rest)
    ensures Settles(s, [Proceed] + rest)
  {
    Prepend(s, Proceed, rest);
  }

  lemma {:induction false} SettlingHappens(s: State) returns (acts: seq<Action>)
    requires Sane(s)
    ensures Settles(s, acts)
    decreases StagesLeft(s.stage)
  {
    if s.stage.Waiting? {
      acts := [];
    } else {
      StepKeepsSane(s, Proceed);
      var rest := SettlingHappens(Apply(s, Proceed));
      ProceedSettles(s, rest);
      acts := [Proceed] + rest;
    }
  }

  /** A new task of a free id can be added and launched at once. */
  lemma SuccessorStarts(s: State, id: string) returns (acts: seq<Action>)
    requires Sane(s) && s.stage.Waiting? && id != "" && id !in s.table
    ensures Run(s, acts).Some?
    ensures var t, v := Run(s, acts).value.wrappers, |s.wrappers|;
            v < |t| && t[v].id == id && t[v].active > 0 && forall u :: 0 <= u < v ==> t[u] == s.wrappers[u]
  {
    var v := |s.wrappers|;
    StepKeepsSane(s, Add(id, 0));
    var s1 := Apply(s, Add(id, 0));
    StepKeepsSane(s1, Pick(id));
    var s2 := Apply(s1, Pick(id));
    var rest := StartHappens(s2, v);
    Prepend(s1, Pick(id), rest);
    Prepend(s, Add(id, 0), [Pick(id)] + rest);
    acts := [Add(id, 0)] + ([Pick(id)] + rest);
  }

  lemma OverlapHappens(s: State, w: nat, first: seq<Action>) returns (acts: seq<Action>)
    requires Sane(s) && w < |s.wrappers| && s.wrappers[w].id != "" && s.wrappers[w].id !in s.table
    requires Run(s, first).Some?
    requires var mid := Run(s, first).value;
             && mid.stage == Waiting && mid.table == s.table && |mid.wrappers| == |s.wrappers| && mid.wrappers[w].active > 0
    ensures Overlaps(s, acts, w, |s.wrappers|)
  {
    var rest := SuccessorStarts(Run(s, first).value, s.wrappers[w].id);
    RunJoins(s, first, rest);
    acts := first + rest;
  }

  /** After a task is removed, a successor of the same id can run beside it exactly if it is running, or can still start. */
  lemma OverlapIff(s: State, id: string)
    requires Inv(s) && id in s.table
    ensures Sane(Apply(s, Remove(id)))
    ensures var w := s.table[id];
            (exists acts, v :: Overlaps(Apply(s, Remove(id)), acts, w, v)) <==> s.wrappers[w].active > 0 || MayStart(s, w) == 1
  {
    var w, next := s.table[id], Apply(s, Remove(id));
    StepKeepsSane(s, Remove(id));
    if MayStart(s, w) == 1 {
      assert FlagTellsFlight(s.wrappers[w], MarkedAt(s, w));
      var first := StartHappens(next, w);
      var acts := OverlapHappens(next, w, first);
    } else if s.wrappers[w].active > 0 {
      var first := SettlingHappens(next);
      var acts := OverlapHappens(next, w, first);
    }
    forall acts, v | Overlaps(next, acts, w, v) ensures s.wrappers[w].active > 0 || MayStart(s, w) == 1 {
      RemovedStartsAtMostOnce(s, id, acts);
      ActiveBudget(next, acts, w);
    }
  }

  ghost predicate Reaches(acts: seq<Action>, s: State) {
    Run(INIT, acts) == Some(s)
  }

  lemma {:induction false} RunJoins(s: State, a: seq<Action>, b: seq<Action>)
    requires Sane(s)
    ensures Run(s, a + b) == if Run(s, a).Some? then Run(Run(s, a).value, b) else None
    decreases |a|
  {
    if a == [] {
      assert a + b == b;
    } else if Enabled(s, a[0]) {
      assert (a + b)[1..] == a[1..] + b;
      StepKeepsSane(s, a[0]);
      RunJoins(Apply(s, a[0]), a[1..], b);
    }
  }

  lemma Extend(acts: seq<Action>, s: State, a: Action) returns (longer: seq<Action>, next: State)
    requires Sane(s) && Reaches(acts, s) && Enabled(s, a)
    ensures Reaches(longer, next) && next == Apply(s, a) && Sane(next)
  {
    longer, next := acts + [a], Apply(s, a);
    RunJoins(INIT, acts, [a]);
    StepKeepsSane(s, a);
    assert Run(next, []) == Some(next);
  }

  lemma SeesUnpaused(acts: seq<Action>, s: State, id: string) returns (longer: seq<Action>, next: State)
    requires Sane(s) && Reaches(acts, s) && s.stage.Waiting? && id in s.table
    requires !s.wrappers[s.table[id]].running && !s.wrappers[s.table[id]].stop
    ensures Reaches(longer, next) && Sane(next) && next == s.(stage := NotStopped(s.table[id]))
  {
    longer, next := Extend(acts, s, Pick(id));
    longer, next := Extend(longer, next, Proceed);
    longer, next := Extend(longer, next, Proceed);
  }

  /** Once the scheduler has seen a task unpaused nothing but its execution time keeps it from launching. */
  lemma GoesOnToLaunch(acts: seq<Action>, s: State) returns (longer: seq<Action>, next: State)
    requires Sane(s) && Reaches(acts, s) && s.stage.NotStopped? && s.wrappers[s.stage.w].due < s.now
    ensures Reaches(longer, next) && Sane(next) && next.stage == Waiting && next.now == s.now && next.table == s.table
    ensures var t := s.wrappers[s.stage.w];
            next.wrappers == s.wrappers[s.stage.w := t.(running := true, active := t.active + 1, started := t.started + 1)]
  {
    var w, t := s.stage.w, s.wrappers[s.stage.w];
    longer, next := Extend(acts, s, Proceed);
    longer, next := Extend(longer, next, Proceed);
    longer, next := Extend(longer, next, Proceed);
    assert next.wrappers == s.wrappers[w := t.(running := true)];
    longer, next := Extend(longer, next, Proceed);
    assert next.wrappers == s.wrappers[w := t.(running := true, active := t.active + 1, started := t.started + 1)];
  }

  /** A task may start although it is paused and removed, and its successor of the same id may run beside it. */
  lemma ReaddedTaskOverlaps() returns (acts: seq<Action>, s: State)
    ensures Reaches(acts, s) && |s.wrappers| == 2 && s.wrappers[0].id == s.wrappers[1].id && s.wrappers[0].stop
    ensures s.wrappers[0].active == 1 && s.wrappers[1].active == 1
  {
    acts, s := [], INIT;
    acts, s := Extend(acts, s, Add("t", 0));
    acts, s := Extend(acts, s, Pass(1));
    acts, s := SeesUnpaused(acts, s, "t");
    acts, s := Extend(acts, s, Pause("t"));
    acts, s := Extend(acts, s, Remove("t"));
    acts, s := GoesOnToLaunch(acts, s);
    acts, s := Extend(acts, s, Add("t", 0));
    acts, s := SeesUnpaused(acts, s, "t");
    acts, s := GoesOnToLaunch(acts, s);
  }

  // ----- The manager as an object -----

  class TaskWrapper {
    const taskId: string
    var executeTime: int
    var isRunning: bool
    var isStop: bool

    constructor (taskId: string, executeTime: int)
      ensures this.taskId == taskId && this.executeTime == executeTime && !isRunning && !isStop
    {
      this.taskId, this.executeTime, isRunning, isStop := taskId, executeTime, false, false;
    }

    predicate Eligible(now: int)
      reads this
    {
      !isRunning && !isStop && executeTime < now
    }
  }

  datatype Error = NilTask | EmptyId | AlreadyExists | NotFound

  /** What the manager asks of a task when it is added. */
  datatype Task = Task(id: string, executeTime: int)

  class TaskManger {
    var taskMap: map<string, TaskWrapper>

    ghost predicate Valid()
      reads this, taskMap.Values
    {
      forall id :: id in taskMap ==> taskMap[id].taskId == id
    }

    constructor ()
      ensures Valid() && taskMap == map[]
    {
      taskMap := map[];
    }

    method AddTask(task: Option<Task>) returns (error: Option<Error>)
      requires Valid()
      modifies this
      ensures Valid()
      ensures error == if task == None then Some(NilTask) else if task.value.id == "" then Some(EmptyId)
                       else if task.value.id in old(taskMap) then Some(AlreadyExists) else None
      ensures error.Some? ==> taskMap == old(taskMap)
      ensures error == None ==>
                var id := task.value.id;
                && id in taskMap && fresh(taskMap[id]) && taskMap == old(taskMap)[id := taskMap[id]]
                && !taskMap[id].isRunning && !taskMap[id].isStop && taskMap[id].executeTime == task.value.executeTime
    {
      if task == None {
        return Some(NilTask);
      }
      var t := task.value;
      if t.id == "" {
        return Some(EmptyId);
      }
      if t.id in taskMap {
        return Some(AlreadyExists);
      }
      var wrapper := new TaskWrapper(t.id, t.executeTime);
      taskMap := taskMap[t.id := wrapper];
      return None;
    }

    function Lookup(taskId: string): (error: Option<Error>)
      reads this
      ensures error == None <==> taskId != "" && taskId in taskMap
    {
      if taskId == "" then Some(EmptyId) else if taskId !in taskMap then Some(NotFound) else None
    }

    method RemoveTask(taskId: string) returns (error: Option<Error>)
      requires Valid()
      modifies this
      ensures Valid() && error == old(Lookup(taskId))
      ensures taskMap == if error == None then old(taskMap) - {taskId} else old(taskMap)
    {
      error := Lookup(taskId);
      if error == None {
        taskMap := taskMap - {taskId};
      }
    }

    method PauseTask(taskId: string) returns (error: Option<Error>)
      requires Valid()
      modifies if taskId in taskMap then {taskMap[taskId]} else {}
      ensures Valid() && error == Lookup(taskId)
      ensures taskId in taskMap ==> taskMap[taskId].isStop == (error == None || old(taskMap[taskId].isStop))
      ensures taskId in taskMap ==> taskMap[taskId].isRunning == old(taskMap[taskId].isRunning)
                                    && taskMap[taskId].executeTime == old(taskMap[taskId].executeTime)
    {
      error := Lookup(taskId);
      if error == None {
        taskMap[taskId].isStop := true;
      }
    }

    method ResumeTask(taskId: string) returns (error: Option<Error>)
      requires Valid()
      modifies if taskId in taskMap then {taskMap[taskId]} else {}
      ensures Valid() && error == Lookup(taskId)
      ensures taskId in taskMap ==> taskMap[taskId].isStop == (error != None && old(taskMap[taskId].isStop))
      ensures taskId in taskMap ==> taskMap[taskId].isRunning == old(taskMap[taskId].isRunning)
                                    && taskMap[taskId].executeTime == old(taskMap[taskId].executeTime)
    {
      error := Lookup(taskId);
      if error == None {
        taskMap[taskId].isStop := false;
      }
    }

    /** One undisturbed tick: whatever the order of the map, exactly the eligible tasks are marked and launched, each once. */
    method Sweep(now: int) returns (launched: seq<string>)
      requires Valid()
      modifies taskMap.Values
      ensures Valid()
      ensures forall i, j :: 0 <= i < j < |launched| ==> launched[i] != launched[j]
      ensures forall id :: id in launched <==>
                             && id in taskMap && !old(taskMap[id].isRunning) && !old(taskMap[id].isStop)
                             && old(taskMap[id].executeTime) < now
      ensures forall id :: id in taskMap ==>
                             taskMap[id].isRunning == (old(taskMap[id].isRunning) || id in launched)
                             && taskMap[id].isStop == old(taskMap[id].isStop)
                             && taskMap[id].executeTime == old(taskMap[id].executeTime)
    {
      launched := [];
      var rest := taskMap.Keys;
      while rest != {}
        invariant Valid() && rest <= taskMap.Keys
        invariant forall i, j :: 0 <= i < j < |launched| ==> launched[i] != launched[j]
        invariant forall id :: id in launched <==> id in taskMap && id !in rest && old(taskMap[id].Eligible(now))
        invariant forall id :: id in taskMap ==>
                                 taskMap[id].isRunning == (old(taskMap[id].isRunning) || id in launched)
                                 && taskMap[id].isStop == old(taskMap[id].isStop)
                                 && taskMap[id].executeTime == old(taskMap[id].executeTime)
        decreases rest
      {
        var id :| id in rest;
        rest := rest - {id};
        var task := taskMap[id];
        if task.Eligible(now) {
          task.isRunning := true;
          launched := launched + [id];
        }
      }
    }
  }
}

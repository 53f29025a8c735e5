/**
 Registering handlers and dispatching a request through role, group and action (sunny.go:342-422, 711-769,
 group.go:53-105, role.go:40-84).

 A handler is a name. Which of its calls in a request end in AbortAction is a parameter, and nothing ever clears an
 abort.
 */
module Dispatch {
  import opened Strings
  import opened Wrappers

  type Handler = nat

  datatype Ordered = Ordered(handler: Handler, order: int)

  datatype Place = RoleBefore | GroupBefore | InAction | GroupAfter | RoleAfter

  /** A call of a handler: in which list, and where in it. A handler registered twice may abort in one of its calls
      and not in the other. */
  datatype Event = Event(place: Place, at: nat, h: Handler)

  datatype Response = Handled | PathNotFound | RoleNotFound | GroupNotFound | ActionNotFound

  ghost predicate Sorted(s: seq<Ordered>) {
    forall i, j :: 0 <= i < j < |s| ==> s[i].order <= s[j].order
  }

  // ----- Running a list of handlers -----

  /** The calls that running a whole list makes. */
  function All(place: Place, s: seq<Ordered>): seq<Event> {
    seq(|s|, i requires 0 <= i < |s| => Event(place, i, s[i].handler))
  }

  /** At most the first of a list. */
  function First(place: Place, s: seq<Ordered>): seq<Event> {
    if s == [] then [] else [Event(place, 0, s[0].handler)]
  }

  /** Some call from position from on aborts. */
  ghost predicate Aborts(place: Place, s: seq<Ordered>, aborts: set<Event>, from: nat := 0) {
    exists i :: from <= i < |s| && All(place, s)[i] in aborts
  }

  /** A run stops after the first call that leaves the context aborted: the first that aborts, or the very first if
      the context was aborted already. */
  function Ran(place: Place, s: seq<Ordered>, aborts: set<Event>, aborted: bool, from: nat := 0): seq<Event>
    decreases |s| - from
  {
    if from >= |s| then []
    else
      var e := Event(place, from, s[from].handler);
      if aborted || e in aborts then [e] else [e] + Ran(place, s, aborts, false, from + 1)
  }

  lemma {:induction false} RanWithoutAbort(place: Place, s: seq<Ordered>, aborts: set<Event>, from: nat := 0)
    requires from <= |s| && !Aborts(place, s, aborts, from)
    ensures Ran(place, s, aborts, false, from) == All(place, s)[from..]
    decreases |s| - from
  {
    if from < |s| {
      assert All(place, s)[from] !in aborts;
      RanWithoutAbort(place, s, aborts, from + 1);
    }
  }

  /** The list up to and including its first aborting call. */
  ghost predicate EndsAtAbort(r: seq<Event>, place: Place, s: seq<Ordered>, aborts: set<Event>, from: nat := 0)
    requires from <= |s|
  {
    && r != [] && r <= All(place, s)[from..]
    && r[|r| - 1] in aborts && forall i :: 0 <= i < |r| - 1 ==> r[i] !in aborts
  }

  lemma {:induction false} RanToFirstAbort(place: Place, s: seq<Ordered>, aborts: set<Event>, from: nat := 0)
    requires from <= |s| && Aborts(place, s, aborts, from)
    ensures EndsAtAbort(Ran(place, s, aborts, false, from), place, s, aborts, from)
    decreases |s| - from
  {
    if All(place, s)[from] !in aborts {
      var i :| from <= i < |s| && All(place, s)[i] in aborts;
      assert i >= from + 1;
      RanToFirstAbort(place, s, aborts, from + 1);
      assert All(place, s)[from..] == [All(place, s)[from]] + All(place, s)[from + 1..];
    }
  }

  // ----- What a request leads to -----

  datatype RoleLists = RoleLists(before: seq<Ordered>, after: seq<Ordered>)

  datatype GroupLists = GroupLists(before: seq<Ordered>, after: seq<Ordered>, actions: map<string, Handler>)

  function ActionCall(g: GroupLists, action: string): Event
    requires action in g.actions
  {
    Event(InAction, 0, g.actions[action])
  }

  ghost predicate CallAborts(g: GroupLists, action: string, aborts: set<Event>) {
    || Aborts(GroupBefore, g.before, aborts)
    || (action in g.actions && (ActionCall(g, action) in aborts || Aborts(GroupAfter, g.after, aborts)))
  }

  /** Group.Call, on a context that may be aborted already, which the route handler never passes it. */
  ghost function Called(g: GroupLists, action: string, aborts: set<Event>, aborted: bool := false): (seq<Event>, Response) {
    var befores := Ran(GroupBefore, g.before, aborts, aborted);
    if (aborted && g.before != []) || Aborts(GroupBefore, g.before, aborts) then (befores, Handled)
    else if action !in g.actions then (befores, ActionNotFound)
    else
      var act := ActionCall(g, action);
      (befores + [act] + Ran(GroupAfter, g.after, aborts, aborted || act in aborts), Handled)
  }

  /** The route handler once the role is found; a missing group ends it without the role's after-handlers. */
  ghost function Served(role: RoleLists, group: Option<GroupLists>, action: string, aborts: set<Event>): (seq<Event>, Response) {
    var befores := Ran(RoleBefore, role.before, aborts, false);
    if Aborts(RoleBefore, role.before, aborts) then (befores, Handled)
    else if group == None then (befores, GroupNotFound)
    else (befores + Called(group.value, action, aborts).0
            + Ran(RoleAfter, role.after, aborts, CallAborts(group.value, action, aborts)),
          Called(group.value, action, aborts).1)
  }

  function ActionsIn(trace: seq<Event>): seq<Handler> {
    if trace == [] then []
    else if trace[0].place == InAction then [trace[0].h] + ActionsIn(trace[1..])
    else ActionsIn(trace[1..])
  }

  lemma {:induction false} ActionsInConcat(a: seq<Event>, b: seq<Event>)
    ensures ActionsIn(a + b) == ActionsIn(a) + ActionsIn(b)
  {
    if a == [] {
      assert a + b == b;
    } else {
      assert (a + b)[1..] == a[1..] + b;
      ActionsInConcat(a[1..], b);
    }
  }

  lemma {:induction false} NoActionInRun(place: Place, s: seq<Ordered>, aborts: set<Event>, aborted: bool, from: nat := 0)
    requires place != InAction
    ensures ActionsIn(Ran(place, s, aborts, aborted, from)) == []
    decreases |s| - from
  {
    if from < |s| {
      NoActionInRun(place, s, aborts, false, from + 1);
      ActionsInConcat([Event(place, from, s[from].handler)], Ran(place, s, aborts, false, from + 1));
    }
  }

  lemma ActionsInCall(g: GroupLists, action: string, aborts: set<Event>)
    ensures ActionsIn(Called(g, action, aborts).0)
         == if !Aborts(GroupBefore, g.before, aborts) && action in g.actions then [g.actions[action]] else []
  {
    var befores := Ran(GroupBefore, g.before, aborts, false);
    NoActionInRun(GroupBefore, g.before, aborts, false);
    if !Aborts(GroupBefore, g.before, aborts) && action in g.actions {
      var act := ActionCall(g, action);
      var afters := Ran(GroupAfter, g.after, aborts, act in aborts);
      NoActionInRun(GroupAfter, g.after, aborts, act in aborts);
      ActionsInConcat(befores, [act]);
      ActionsInConcat(befores + [act], afters);
    }
  }

  /** The action runs exactly once, and is the one bound to the label, if and only if the group and the action exist
      and no handler before it aborted; otherwise no action runs. */
  lemma ActionRunsOnceIff(role: RoleLists, group: Option<GroupLists>, action: string, aborts: set<Event>)
    ensures ActionsIn(Served(role, group, action, aborts).0)
         == if !Aborts(RoleBefore, role.before, aborts) && group.Some? && !Aborts(GroupBefore, group.value.before, aborts)
               && action in group.value.actions
            then [group.value.actions[action]] else []
  {
    var befores := Ran(RoleBefore, role.before, aborts, false);
    NoActionInRun(RoleBefore, role.before, aborts, false);
    if !Aborts(RoleBefore, role.before, aborts) && group.Some? {
      var called, aborted := Called(group.value, action, aborts).0, CallAborts(group.value, action, aborts);
      var afters := Ran(RoleAfter, role.after, aborts, aborted);
      ActionsInCall(group.value, action, aborts);
      NoActionInRun(RoleAfter, role.after, aborts, aborted);
      ActionsInConcat(befores, called);
      ActionsInConcat(befores + called, afters);
    }
  }

  /** A role before-handler that aborts is the last thing that runs: no group, no action, no after-handler. */
  lemma RoleAbortEndsRequest(role: RoleLists, group: Option<GroupLists>, action: string, aborts: set<Event>)
    requires Aborts(RoleBefore, role.before, aborts)
    ensures EndsAtAbort(Served(role, group, action, aborts).0, RoleBefore, role.before, aborts)
  {
    RanToFirstAbort(RoleBefore, role.before, aborts);
  }

  /** The middle part of a request whose group handler or action aborts: everything up to the abort, and, when the
      action itself aborts, also the first group after-handler. */
  ghost predicate CutShort(middle: seq<Event>, g: GroupLists, action: string, aborts: set<Event>) {
    if Aborts(GroupBefore, g.before, aborts) then EndsAtAbort(middle, GroupBefore, g.before, aborts)
    else
      action in g.actions &&
      var through := All(GroupBefore, g.before) + [ActionCall(g, action)];
      if ActionCall(g, action) in aborts then middle == through + First(GroupAfter, g.after)
      else exists tail :: middle == through + tail && EndsAtAbort(tail, GroupAfter, g.after, aborts)
  }

  lemma CalledIsCutShort(g: GroupLists, action: string, aborts: set<Event>)
    requires CallAborts(g, action, aborts)
    ensures CutShort(Called(g, action, aborts).0, g, action, aborts)
  {
    if Aborts(GroupBefore, g.before, aborts) {
      RanToFirstAbort(GroupBefore, g.before, aborts);
    } else {
      RanWithoutAbort(GroupBefore, g.before, aborts);
      if ActionCall(g, action) !in aborts {
        RanToFirstAbort(GroupAfter, g.after, aborts);
      }
    }
  }

  /** After an abort inside Call only the first role after-handler still runs. */
  lemma CallAbortLeavesOneRoleAfter(role: RoleLists, g: GroupLists, action: string, aborts: set<Event>)
      returns (middle: seq<Event>)
    requires !Aborts(RoleBefore, role.before, aborts) && CallAborts(g, action, aborts)
    ensures Served(role, Some(g), action, aborts).0
         == All(RoleBefore, role.before) + middle + First(RoleAfter, role.after)
    ensures CutShort(middle, g, action, aborts)
  {
    RanWithoutAbort(RoleBefore, role.before, aborts);
    middle := Called(g, action, aborts).0;
    CalledIsCutShort(g, action, aborts);
  }

  /** Without any abort every handler runs, in order; when only the action is missing, all but it and the group's
      after-handlers. */
  lemma UndisturbedRequest(role: RoleLists, g: GroupLists, action: string, aborts: set<Event>)
    requires !Aborts(RoleBefore, role.before, aborts) && !CallAborts(g, action, aborts) && !Aborts(RoleAfter, role.after, aborts)
    ensures Served(role, Some(g), action, aborts)
         == (All(RoleBefore, role.before) + (All(GroupBefore, g.before)
             + (if action in g.actions then [ActionCall(g, action)] + All(GroupAfter, g.after) else []))
             + All(RoleAfter, role.after),
             if action in g.actions then Handled else ActionNotFound)
  {
    RanWithoutAbort(RoleBefore, role.before, aborts);
    RanWithoutAbort(RoleAfter, role.after, aborts);
    UndisturbedCall(g, action, aborts);
  }

  lemma UndisturbedCall(g: GroupLists, action: string, aborts: set<Event>)
    requires !CallAborts(g, action, aborts)
    ensures Called(g, action, aborts)
         == (All(GroupBefore, g.before) + (if action in g.actions then [ActionCall(g, action)] + All(GroupAfter, g.after) else []),
             if action in g.actions then Handled else ActionNotFound)
  {
    RanWithoutAbort(GroupBefore, g.before, aborts);
    if action in g.actions {
      RanWithoutAbort(GroupAfter, g.after, aborts);
      var act := [ActionCall(g, action)];
      assert All(GroupBefore, g.before) + act + All(GroupAfter, g.after) == All(GroupBefore, g.before) + (act + All(GroupAfter, g.after));
    } else {
      assert All(GroupBefore, g.before) + [] == All(GroupBefore, g.before);
    }
  }

  // ----- Context, role and group as objects -----

  class Context {
    const actionLabel: string
    var actionNext: bool
    var trace: seq<Event>
    var response: Response

    constructor (actionLabel: string)
      ensures this.actionLabel == actionLabel && actionNext && trace == [] && response == Handled
    {
      this.actionLabel := actionLabel;
      actionNext, trace, response := true, [], Handled;
    }

    /** Calls one handler, which may abort. */
    method Invoke(e: Event, aborts: set<Event>)
      modifies this
      ensures trace == old(trace) + [e] && response == old(response)
      ensures actionNext == (old(actionNext) && e !in aborts)
    {
      trace := trace + [e];
      if e in aborts {
        actionNext := false;
      }
    }

    /** The loop of RunBefore, RunAfter and both halves of Call: true when it ran to the end of the list. */
    method RunAll(place: Place, s: seq<Ordered>, aborts: set<Event>) returns (finished: bool)
      modifies this
      ensures trace == old(trace) + Ran(place, s, aborts, !old(actionNext)) && response == old(response)
      ensures s != [] ==> actionNext == (old(actionNext) && !Aborts(place, s, aborts)) == finished
      ensures s == [] ==> actionNext == old(actionNext) && finished
    {
      var i := 0;
      while i < |s|
        invariant 0 <= i <= |s| && response == old(response)
        invariant if i == 0 then actionNext == old(actionNext) else actionNext && old(actionNext)
        invariant forall j :: 0 <= j < i ==> All(place, s)[j] !in aborts
        invariant trace + Ran(place, s, aborts, !actionNext, i) == old(trace) + Ran(place, s, aborts, !old(actionNext))
      {
        RanStep(trace, place, s, aborts, !actionNext, i);
        Invoke(Event(place, i, s[i].handler), aborts);
        if !actionNext {
          return false;
        }
        i := i + 1;
      }
      return true;
    }
  }

  lemma RanStep(trace: seq<Event>, place: Place, s: seq<Ordered>, aborts: set<Event>, aborted: bool, i: nat)
    requires i < |s|
    ensures trace + Ran(place, s, aborts, aborted, i)
         == trace + [All(place, s)[i]]
            + (if aborted || All(place, s)[i] in aborts then [] else Ran(place, s, aborts, false, i + 1))
  {}

  // ----- Registering -----

  /** sort.Slice: sorted by order and a permutation, with no promise about equal orders. */
  method SortByOrder(s: seq<Ordered>) returns (r: seq<Ordered>)
    ensures Sorted(r) && multiset(r) == multiset(s)
  {
    r := [];
    var i := 0;
    while i < |s|
      invariant 0 <= i <= |s| && Sorted(r) && multiset(r) == multiset(s[..i])
    {
      r := Insert(r, s[i]);
      assert s[..i + 1] == s[..i] + [s[i]];
      i := i + 1;
    }
    assert s[..i] == s;
  }

  method Insert(s: seq<Ordered>, x: Ordered) returns (r: seq<Ordered>)
    requires Sorted(s)
    ensures Sorted(r) && multiset(r) == multiset(s) + multiset{x}
  {
    var at := 0;
    while at < |s| && s[at].order <= x.order
      invariant 0 <= at <= |s| && forall j :: 0 <= j < at ==> s[j].order <= x.order
    {
      at := at + 1;
    }
    InsertAt(s, at, x);
    return s[..at] + [x] + s[at..];
  }

  lemma InsertAt(r: seq<Ordered>, at: nat, x: Ordered)
    requires Sorted(r) && at <= |r| && (forall j :: 0 <= j < at ==> r[j].order <= x.order)
    requires at < |r| ==> x.order <= r[at].order
    ensures Sorted(r[..at] + [x] + r[at..])
    ensures multiset(r[..at] + [x] + r[at..]) == multiset(r) + multiset{x}
  {
    assert r == r[..at] + r[at..];
  }

  class Role {
    const roleLabel: string
    var before: seq<Ordered>
    var after: seq<Ordered>

    constructor (roleLabel: string)
      ensures this.roleLabel == roleLabel && before == [] && after == []
    {
      this.roleLabel := roleLabel;
      before, after := [], [];
    }

    ghost function Lists(): RoleLists
      reads this
    {
      RoleLists(before, after)
    }

    method UseBefore(order: int, h: Handler)
      modifies this`before
      ensures Sorted(before) && multiset(before) == multiset(old(before)) + multiset{Ordered(h, order)}
    {
      before := SortByOrder(before + [Ordered(h, order)]);
    }

    method UseAfter(order: int, h: Handler)
      modifies this`after
      ensures Sorted(after) && multiset(after) == multiset(old(after)) + multiset{Ordered(h, order)}
    {
      after := SortByOrder(after + [Ordered(h, order)]);
    }

    /** The loop that passes registered handlers to UseBefore. */
    method InjectBefore(handlers: seq<Ordered>)
      modifies this`before
      ensures multiset(before) == multiset(old(before)) + multiset(handlers)
      ensures handlers != [] || old(Sorted(before)) ==> Sorted(before)
    {
      var i := 0;
      while i < |handlers|
        invariant 0 <= i <= |handlers| && if i == 0 then before == old(before) else Sorted(before)
        invariant multiset(before) == multiset(old(before)) + multiset(handlers[..i])
      {
        UseBefore(handlers[i].order, handlers[i].handler);
        assert handlers[..i + 1] == handlers[..i] + [handlers[i]];
        i := i + 1;
      }
      assert handlers[..i] == handlers;
    }

    method InjectAfter(handlers: seq<Ordered>)
      modifies this`after
      ensures multiset(after) == multiset(old(after)) + multiset(handlers)
      ensures handlers != [] || old(Sorted(after)) ==> Sorted(after)
    {
      var i := 0;
      while i < |handlers|
        invariant 0 <= i <= |handlers| && if i == 0 then after == old(after) else Sorted(after)
        invariant multiset(after) == multiset(old(after)) + multiset(handlers[..i])
      {
        UseAfter(handlers[i].order, handlers[i].handler);
        assert handlers[..i + 1] == handlers[..i] + [handlers[i]];
        i := i + 1;
      }
      assert handlers[..i] == handlers;
    }
  }

  class Group {
    const roleLabel: string
    const groupLabel: string
    var actions: map<string, Handler>
    var before: seq<Ordered>
    var after: seq<Ordered>

    constructor (roleLabel: string, groupLabel: string)
      ensures this.roleLabel == roleLabel && this.groupLabel == groupLabel
      ensures before == [] && after == [] && actions == map[]
    {
      this.roleLabel, this.groupLabel := roleLabel, groupLabel;
      before, after, actions := [], [], map[];
    }

    method BindAction(actionLabel: string, h: Handler)
      modifies this`actions
      ensures actions == old(actions)[actionLabel := h]
    {
      actions := actions[actionLabel := h];
    }

    method UseBefore(order: int, h: Handler)
      modifies this`before
      ensures Sorted(before) && multiset(before) == multiset(old(before)) + multiset{Ordered(h, order)}
    {
      before := SortByOrder(before + [Ordered(h, order)]);
    }

    method UseAfter(order: int, h: Handler)
      modifies this`after
      ensures Sorted(after) && multiset(after) == multiset(old(after)) + multiset{Ordered(h, order)}
    {
      after := SortByOrder(after + [Ordered(h, order)]);
    }

    ghost function Lists(): GroupLists
      reads this
    {
      GroupLists(before, after, actions)
    }

    method Call(c: Context, aborts: set<Event>)
      modifies c
      ensures c.trace == old(c.trace) + Called(Lists(), c.actionLabel, aborts, !old(c.actionNext)).0
      ensures c.response == if Called(Lists(), c.actionLabel, aborts, !old(c.actionNext)).1 == ActionNotFound
                            then ActionNotFound else old(c.response)
      ensures c.actionNext == (old(c.actionNext) && !CallAborts(Lists(), c.actionLabel, aborts))
    {
      var finished := c.RunAll(GroupBefore, before, aborts);
      if !finished {
        return;
      }
      if c.actionLabel !in actions {
        c.response := ActionNotFound;
        return;
      }
      c.Invoke(Event(InAction, 0, actions[c.actionLabel]), aborts);
      finished := c.RunAll(GroupAfter, after, aborts);
    }
  }

  // ----- Finding the role of a request -----

  const GROUP_PARAM: string := ":group"
  const ACTION_PARAM: string := ":action"

  /** path.Clean of a rooted path, by segments: empty ones and dots go, and two dots take the segment before them. */
  function Cleaned(segments: seq<string>): (r: seq<string>)
    ensures forall t :: t in r ==> t in segments && t !in ["", ".", ".."]
  {
    if segments == [] then []
    else
      var before, last := Cleaned(segments[..|segments| - 1]), segments[|segments| - 1];
      assert segments == segments[..|segments| - 1] + [last];
      if last == "" || last == "." then before
      else if last == ".." then (if before == [] then [] else before[..|before| - 1])
      else before + [last]
  }

  function Slashed(segments: seq<string>): string {
    if segments == [] then "" else ['/'] + (segments[0] + Slashed(segments[1..]))
  }

  /** The pattern that gin keeps and reports for a route: the joined path, cleaned. */
  function FullPath(path: string): string {
    Slashed(Cleaned(Split(path + ['/'] + (GROUP_PARAM + ['/'] + ACTION_PARAM), '/')))
  }

  /** The path the handler takes from a pattern: its first segment. */
  function FindPath(fullPath: string): string {
    var paths := Split(fullPath, '/');
    if |paths| < 3 then "" else "/" + paths[1]
  }

  lemma {:induction false} SplitJoins(path: string, rest: string)
    ensures Split(path + ['/'] + rest, '/') == Split(path, '/') + Split(rest, '/')
    decreases |path|
  {
    var i := Find(path, '/');
    if i == |path| {
      SplitFirst(path, '/', rest);
    } else {
      var head, tail := path[..i], path[i + 1..];
      assert path == head + ['/'] + tail;
      assert path + ['/'] + rest == head + ['/'] + (tail + ['/'] + rest);
      SplitFirst(head, '/', tail + ['/'] + rest);
      SplitJoins(tail, rest);
    }
  }

  lemma {:induction false} SplitSlashed(first: string, rest: seq<string>)
    requires '/' !in first && forall t :: t in rest ==> '/' !in t
    ensures Split(first + Slashed(rest), '/') == [first] + rest
    decreases |rest|
  {
    if rest == [] {
      assert first + Slashed(rest) == first;
      SplitNone(first, '/');
    } else {
      var tail := rest[0] + Slashed(rest[1..]);
      assert first + Slashed(rest) == first + ['/'] + tail;
      SplitFirst(first, '/', tail);
      SplitSlashed(rest[0], rest[1..]);
      assert rest == [rest[0]] + rest[1..];
    }
  }

  /** The segments of a route's pattern. */
  function PatternSegments(path: string): (r: seq<string>)
    ensures |r| >= 2 && forall t :: t in r ==> '/' !in t && t !in ["", ".", ".."]
  {
    Cleaned(Split(path, '/')) + [GROUP_PARAM, ACTION_PARAM]
  }

  lemma CleanedKeepsParams(segments: seq<string>)
    ensures Cleaned(segments + [GROUP_PARAM, ACTION_PARAM]) == Cleaned(segments) + [GROUP_PARAM, ACTION_PARAM]
  {
    var longer := segments + [GROUP_PARAM];
    assert longer[..|longer| - 1] == segments;
    var longest := segments + [GROUP_PARAM, ACTION_PARAM];
    assert longest[..|longest| - 1] == longer;
  }

  lemma SplitPair(group: string, action: string)
    requires '/' !in group && '/' !in action
    ensures Split(group + ['/'] + action, '/') == [group, action]
  {
    SplitFirst(group, '/', action);
    SplitNone(action, '/');
  }

  lemma PatternIs(path: string)
    ensures FullPath(path) == Slashed(PatternSegments(path))
  {
    SplitPair(GROUP_PARAM, ACTION_PARAM);
    SplitJoins(path, GROUP_PARAM + ['/'] + ACTION_PARAM);
    CleanedKeepsParams(Split(path, '/'));
  }

  /** Every pattern has at least two segments, and the handler looks the route up under the first. */
  lemma PatternSplits(path: string)
    ensures Split(FullPath(path), '/') == [""] + PatternSegments(path)
    ensures FindPath(FullPath(path)) == "/" + PatternSegments(path)[0]
  {
    var segments := PatternSegments(path);
    PatternIs(path);
    SplitSlashed("", segments);
    assert "" + Slashed(segments) == Slashed(segments);
  }

  /** A slash and one segment that path.Clean keeps. */
  predicate OneSegment(path: string) {
    |path| > 0 && path[0] == '/' && '/' !in path[1..] && path[1..] !in ["", ".", ".."]
  }

  lemma CleanedSegment(segment: string)
    requires segment !in ["", ".", ".."]
    ensures Cleaned(["", segment]) == [segment]
  {
    assert ["", segment][..1] == [""] && [""][..0] == [];
    assert Cleaned([""]) == [];
  }

  lemma OneSegmentFindsItself(segment: string)
    requires '/' !in segment && segment !in ["", ".", ".."]
    ensures PatternSegments("/" + segment)[0] == segment
  {
    assert "/" + segment == "" + ['/'] + segment;
    SplitFirst("", '/', segment);
    SplitNone(segment, '/');
    assert [""] + [segment] == ["", segment];
    CleanedSegment(segment);
  }

  /** The lookup by first segment finds a route's own path exactly when that path is a slash and one segment, which is
      not a dot or two. A longer path is looked up under its first segment, and so under another route's role or none;
      the path / is looked up under the group parameter. */
  lemma FindsOwnPathIff(path: string)
    ensures FindPath(FullPath(path)) == path <==> OneSegment(path)
    ensures |Split(FullPath(path), '/')| >= 3
  {
    PatternSplits(path);
    var first := PatternSegments(path)[0];
    assert first in PatternSegments(path);
    assert ("/" + first)[1..] == first;
    if OneSegment(path) {
      assert path == "/" + path[1..];
      OneSegmentFindsItself(path[1..]);
    }
  }

  lemma RootFindsGroupParam()
    ensures FindPath(FullPath("/")) == "/" + GROUP_PARAM
  {
    PatternSplits("/");
    assert "/" == "" + ['/'] + "";
    SplitFirst("", '/', "");
    SplitNone("", '/');
    assert ["", ""][..1] == [""] && [""][..0] == [];
    assert Cleaned([""]) == [];
  }

  // ----- The application -----

  datatype Route = Route(path: string, role: string)

  class Sunny {
    var roles: map<string, Role>
    var groups: map<string, Group>
    var pathRoles: map<string, string>
    var multiRoles: map<string, (string, string) -> string>
    var beforeHandlers: map<string, seq<Ordered>>
    var afterHandlers: map<string, seq<Ordered>>
    ghost var owned: set<Role>

    ghost predicate Valid()
      reads this`roles, this`owned, owned
    {
      forall k :: k in roles ==> roles[k] in owned && roles[k].roleLabel == k && InOrder(roles[k].Lists())
    }

    /** The handler lists of every role. */
    ghost function Table(): map<string, RoleLists>
      requires Valid()
      reads this`roles, this`owned, owned
    {
      map k | k in roles :: roles[k].Lists()
    }

    /** Every group is under the key of its own labels. */
    ghost predicate Keyed()
      reads this`groups
    {
      forall k :: k in groups ==> k == ColonKey(groups[k].roleLabel, groups[k].groupLabel)
    }

    constructor ()
      ensures Valid() && Keyed() && roles == map[] && groups == map[] && pathRoles == map[] && multiRoles == map[]
      ensures beforeHandlers == map[] && afterHandlers == map[]
    {
      roles, groups, pathRoles, multiRoles := map[], map[], map[], map[];
      beforeHandlers, afterHandlers, owned := map[], map[], {};
    }

    /** Panics, here false, when a group of the same key is there already. */
    method UseGroup(group: Group) returns (ok: bool)
      modifies this`groups
      ensures ok <==> ColonKey(group.roleLabel, group.groupLabel) !in old(groups)
      ensures old(Keyed()) ==> Keyed()
      ensures groups == if ok then old(groups)[ColonKey(group.roleLabel, group.groupLabel) := group] else old(groups)
    {
      var key := ColonKey(group.roleLabel, group.groupLabel);
      if key in groups {
        return false;
      }
      groups := groups[key := group];
      return true;
    }

    /** Makes the role of a route when it is missing. */
    method EnsureRole(roleLabel: string)
      requires Valid()
      modifies this`roles, this`owned
      ensures Valid() && roleLabel in roles && fresh(owned - old(owned))
      ensures Table() == old(Table())[roleLabel := ListsOf(old(Table()), roleLabel)]
    {
      if roleLabel !in roles {
        var created := new Role(roleLabel);
        roles, owned := roles[roleLabel := created], owned + {created};
      }
    }

    /** Passes the registered handlers to a role. */
    method Inject(role: Role)
      requires Valid()
      modifies role
      ensures Valid() && Gained(old(role.Lists()), role.Lists(),
                                Registered(beforeHandlers, role.roleLabel), Registered(afterHandlers, role.roleLabel))
    {
      if role.roleLabel in beforeHandlers {
        role.InjectBefore(beforeHandlers[role.roleLabel]);
      }
      if role.roleLabel in afterHandlers {
        role.InjectAfter(afterHandlers[role.roleLabel]);
      }
    }

    /** Makes the role of a route if need be and passes it the registered handlers. */
    method PrepareRole(roleLabel: string)
      requires Valid()
      modifies this`roles, this`owned, owned
      ensures Valid() && fresh(owned - old(owned))
      ensures Added(old(Table()), Table(), roleLabel, beforeHandlers, afterHandlers)
    {
      ghost var was := Table();
      EnsureRole(roleLabel);
      var role := roles[roleLabel];
      ghost var mid := Table();
      Inject(role);
      ghost var now := Table();
      assert Added(was, now, roleLabel, beforeHandlers, afterHandlers) by {
        forall k | k in mid && k != roleLabel ensures now[k] == mid[k] {
          assert roles[k] != role;
        }
        AddedBy(was, mid, now, roleLabel, beforeHandlers, afterHandlers);
      }
    }

    /** One turn of the loop over the routes. */
    method AddRoute(route: Route)
      requires Valid()
      modifies this`roles, this`owned, this`pathRoles, owned
      ensures Valid() && fresh(owned - old(owned))
      ensures pathRoles == old(pathRoles)[route.path := route.role]
      ensures Added(old(Table()), Table(), route.role, beforeHandlers, afterHandlers)
    {
      ghost var was := Table();
      pathRoles := pathRoles[route.path := route.role];
      assert Table() == was;
      PrepareRole(route.role);
      ghost var now := Table();
      assert Added(was, now, route.role, beforeHandlers, afterHandlers);
    }

    /** The loop over the routes in initWebRoutes: every role ends with the handlers it had and, for each route that
        names it, once more those registered for it, in order. */
    method InitWebRoutes(routes: seq<Route>)
      requires Valid()
      modifies this`roles, this`owned, this`pathRoles, owned
      ensures Valid()
      ensures AllAdded(old(Table()), Table(), routes, beforeHandlers, afterHandlers)
      ensures pathRoles == Paths(old(pathRoles), routes)
    {
      var i := 0;
      assert routes[..0] == [];
      while i < |routes|
        invariant 0 <= i <= |routes| && Valid() && fresh(owned - old(owned))
        invariant AllAdded(old(Table()), Table(), routes[..i], beforeHandlers, afterHandlers)
        invariant pathRoles == Paths(old(pathRoles), routes[..i])
      {
        ghost var was := Table();
        AddRoute(routes[i]);
        PathsNext(old(pathRoles), routes, i);
        AddedNext(old(Table()), was, Table(), routes, i, beforeHandlers, afterHandlers);
        i := i + 1;
      }
      assert routes[..i] == routes;
    }

    /** The closure registered for every route. */
    method Handle(fullPath: string, group: string, action: string, aborts: set<Event>) returns (c: Context)
      ensures fresh(c)
      ensures (c.trace, c.response) == Answer(fullPath, group, action, aborts)
    {
      c := new Context(action);
      var paths := Split(fullPath, '/');
      if |paths| < 3 {
        c.response := PathNotFound;
        return;
      }
      var findPath := "/" + paths[1];
      var roleLabel := if findPath in pathRoles then pathRoles[findPath] else "";
      if findPath in multiRoles {
        roleLabel := multiRoles[findPath](group, action);
      }
      if roleLabel !in roles {
        c.response := RoleNotFound;
        return;
      }
      var role := roles[roleLabel];
      var finished := c.RunAll(RoleBefore, role.before, aborts);
      assert c.trace == Ran(RoleBefore, role.before, aborts, false);
      assert c.actionNext == !Aborts(RoleBefore, role.before, aborts);
      if !c.actionNext {
        return;
      }
      var groupKey := ColonKey(roleLabel, group);
      if groupKey !in groups {
        c.response := GroupNotFound;
        return;
      }
      var found := groups[groupKey];
      found.Call(c, aborts);
      finished := c.RunAll(RoleAfter, role.after, aborts);
    }

    ghost function RoleOf(fullPath: string, group: string, action: string): string
      reads this
    {
      var path := FindPath(fullPath);
      if path in multiRoles then multiRoles[path](group, action) else if path in pathRoles then pathRoles[path] else ""
    }

    ghost function GroupOf(roleLabel: string, group: string): Option<GroupLists>
      reads this, groups.Values
    {
      var key := ColonKey(roleLabel, group);
      if key in groups then Some(groups[key].Lists()) else None
    }

    /** What a request leads to: the handlers called, in order, and the answer. */
    ghost function Answer(fullPath: string, group: string, action: string, aborts: set<Event>): (seq<Event>, Response)
      reads this, roles.Values, groups.Values
    {
      var roleLabel := RoleOf(fullPath, group, action);
      if |Split(fullPath, '/')| < 3 then ([], PathNotFound)
      else if roleLabel !in roles then ([], RoleNotFound)
      else Served(roles[roleLabel].Lists(), GroupOf(roleLabel, group), action, aborts)
    }
  }

  // ----- Which group a request reaches -----

  /** t is s with a colon and something more after it. */
  ghost predicate Extends(t: string, s: string, rest: string) {
    t == ColonKey(s, rest)
  }

  /** Two ways to read one key: the longer head takes the difference from the other's tail. */
  ghost predicate Shifted(head: string, tail: string, longer: string, shorter: string) {
    exists rest :: Extends(longer, head, rest) && Extends(tail, rest, shorter)
  }

  lemma SameKeyIff(h1: string, t1: string, h2: string, t2: string)
    requires |h1| < |h2|
    ensures ColonKey(h1, t1) == ColonKey(h2, t2) <==> Shifted(h1, t1, h2, t2)
  {
    var k1, k2 := ColonKey(h1, t1), ColonKey(h2, t2);
    if k1 == k2 {
      var rest := h2[|h1| + 1..];
      assert h1 == k1[..|h1|] && k1[|h1|] == ':';
      assert h2 == k2[..|h2|] && t2 == k2[|h2| + 1..] && t1 == k1[|h1| + 1..];
      assert h2 == h1 + ":" + rest;
      assert t1 == rest + ":" + t2;
      assert Extends(h2, h1, rest) && Extends(t1, rest, t2);
    }
    if rest :| Extends(h2, h1, rest) && Extends(t1, rest, t2) {
      assert k1 == h1 + ":" + (rest + ":" + t2) == k2;
    }
  }

  /** A request for a known role and group parameter runs that role's before-handlers and calls whatever group is under
      the joined key. This group has another role exactly when a colon of the group parameter belongs to that role's
      label, or a colon of this role's label to the group's; without a colon in role and parameter it is the group asked
      for. */
  lemma OtherRolesGroupIff(app: Sunny, fullPath: string, group: string, action: string, aborts: set<Event>)
    requires app.Keyed() && |Split(fullPath, '/')| >= 3
    requires var role := app.RoleOf(fullPath, group, action); role in app.roles && ColonKey(role, group) in app.groups
    ensures var role := app.RoleOf(fullPath, group, action);
            var found := app.groups[ColonKey(role, group)];
            && app.Answer(fullPath, group, action, aborts) == Served(app.roles[role].Lists(), Some(found.Lists()), action, aborts)
            && (found.roleLabel != role <==>
                  Shifted(role, group, found.roleLabel, found.groupLabel) || Shifted(found.roleLabel, found.groupLabel, role, group))
            && (found.roleLabel == role ==> found.groupLabel == group)
            && (':' !in role && ':' !in group ==> found.roleLabel == role)
  {
    var role := app.RoleOf(fullPath, group, action);
    var found := app.groups[ColonKey(role, group)];
    KeyParts(role, group, found.roleLabel, found.groupLabel);
    KeyIsSharedIff(role, group);
  }

  /** Some group parameter takes a request of a known role to a group of another role exactly when a registered key of
      another role starts with that role's label and a colon: a condition on the registrations alone. */
  lemma RolesShareGroupsIff(app: Sunny)
    requires app.Keyed()
    ensures (exists role, group :: role in app.roles && ColonKey(role, group) in app.groups && app.groups[ColonKey(role, group)].roleLabel != role)
            <==> exists role, k :: role in app.roles && k in app.groups && app.groups[k].roleLabel != role && role + ":" <= k
  {
    if role, k :| role in app.roles && k in app.groups && app.groups[k].roleLabel != role && role + ":" <= k {
      var group := k[|role| + 1..];
      assert ColonKey(role, group) == k;
    }
    if role, group :| role in app.roles && ColonKey(role, group) in app.groups && app.groups[ColonKey(role, group)].roleLabel != role {
      var k := ColonKey(role, group);
      assert k in app.groups && k[..|role| + 1] == role + ":";
    }
  }

  /** For a known role whose label has no colon, that is a registered role label which it starts, with a colon. */
  lemma PlainRoleSharesIff(app: Sunny, role: string)
    requires app.Keyed() && ':' !in role
    ensures (exists group :: ColonKey(role, group) in app.groups && app.groups[ColonKey(role, group)].roleLabel != role)
            <==> exists k :: k in app.groups && role + ":" <= app.groups[k].roleLabel
  {
    if k :| k in app.groups && role + ":" <= app.groups[k].roleLabel {
      var group := k[|role| + 1..];
      assert ColonKey(role, group) == k;
    }
    if group :| ColonKey(role, group) in app.groups && app.groups[ColonKey(role, group)].roleLabel != role {
      var k := ColonKey(role, group);
      LongerLabel(role, group, app.groups[k].roleLabel, app.groups[k].groupLabel);
      assert k in app.groups;
    }
  }

  lemma LongerLabel(role: string, group: string, otherRole: string, otherGroup: string)
    requires ':' !in role && otherRole != role && ColonKey(role, group) == ColonKey(otherRole, otherGroup)
    ensures role + ":" <= otherRole
  {
    var key := ColonKey(role, group);
    assert key[|role|] == ':' && key[|otherRole|] == ':';
    assert role == key[..|role|] && otherRole == key[..|otherRole|];
    FindAfter(role, ':', group);
    assert key == role + [':'] + group;
    assert |otherRole| > |role|;
    assert otherRole[..|role| + 1] == key[..|role| + 1] == role + ":";
  }

  lemma KeyParts(role: string, group: string, otherRole: string, otherGroup: string)
    requires ColonKey(role, group) == ColonKey(otherRole, otherGroup)
    ensures otherRole != role <==> Shifted(role, group, otherRole, otherGroup) || Shifted(otherRole, otherGroup, role, group)
    ensures otherRole == role ==> otherGroup == group
  {
    var key := ColonKey(role, group);
    assert role == key[..|role|] && otherRole == key[..|otherRole|] && group == key[|role| + 1..] && otherGroup == key[|otherRole| + 1..];
    if |role| < |otherRole| {
      SameKeyIff(role, group, otherRole, otherGroup);
    } else if |otherRole| < |role| {
      SameKeyIff(otherRole, otherGroup, role, group);
    }
  }

  /** So a request of role a with group parameter b:c reaches group c of role a:b. */
  lemma ColonInRoleConfuses()
    ensures ColonKey("a", "b:c") == ColonKey("a:b", "c") && Shifted("a", "b:c", "a:b", "c")
  {
    assert Extends("a:b", "a", "b") && Extends("b:c", "b", "c");
    SameKeyIff("a", "b:c", "a:b", "c");
  }

  // ----- Injecting the registered role handlers -----

  ghost predicate InOrder(lists: RoleLists) {
    Sorted(lists.before) && Sorted(lists.after)
  }

  function Registered(handlers: map<string, seq<Ordered>>, role: string): seq<Ordered> {
    if role in handlers then handlers[role] else []
  }

  function ListsOf(table: map<string, RoleLists>, role: string): RoleLists {
    if role in table then table[role] else RoleLists([], [])
  }

  ghost predicate Gained(was: RoleLists, now: RoleLists, before: seq<Ordered>, after: seq<Ordered>) {
    && multiset(now.before) == multiset(was.before) + multiset(before)
    && multiset(now.after) == multiset(was.after) + multiset(after)
  }

  /** One route gave its role the handlers registered for that role, and left all other roles alone. */
  ghost predicate Added(was: map<string, RoleLists>, now: map<string, RoleLists>, role: string,
                        befores: map<string, seq<Ordered>>, afters: map<string, seq<Ordered>>) {
    && now.Keys == was.Keys + {role}
    && Gained(ListsOf(was, role), now[role], Registered(befores, role), Registered(afters, role))
    && forall r :: r in was && r != role ==> now[r] == was[r]
  }

  /** A role got the given handlers n times over. */
  ghost predicate GainedTimes(n: nat, was: RoleLists, now: RoleLists, before: seq<Ordered>, after: seq<Ordered>) {
    && multiset(now.before) == multiset(was.before) + Times(n, multiset(before))
    && multiset(now.after) == multiset(was.after) + Times(n, multiset(after))
  }

  /** A role named by a route is there; it has what it had and, once per route naming it, what is registered for it. */
  ghost predicate RoleAdded(was: map<string, RoleLists>, now: map<string, RoleLists>, routes: seq<Route>, r: string,
                            befores: map<string, seq<Ordered>>, afters: map<string, seq<Ordered>>) {
    && (r in now <==> r in was || Naming(routes, r) > 0)
    && GainedTimes(Naming(routes, r), ListsOf(was, r), ListsOf(now, r), Registered(befores, r), Registered(afters, r))
  }

  ghost predicate AllAdded(was: map<string, RoleLists>, now: map<string, RoleLists>, routes: seq<Route>,
                           befores: map<string, seq<Ordered>>, afters: map<string, seq<Ordered>>) {
    forall r :: RoleAdded(was, now, routes, r, befores, afters)
  }

  /** How many of the routes name a role. */
  function Naming(routes: seq<Route>, role: string): nat {
    if routes == [] then 0
    else Naming(routes[..|routes| - 1], role) + if routes[|routes| - 1].role == role then 1 else 0
  }

  /** The path of a route leads to the role of the last route that has it. */
  function Paths(was: map<string, string>, routes: seq<Route>): map<string, string> {
    if routes == [] then was
    else Paths(was, routes[..|routes| - 1])[routes[|routes| - 1].path := routes[|routes| - 1].role]
  }

  function Times(n: nat, m: multiset<Ordered>): multiset<Ordered> {
    if n == 0 then multiset{} else Times(n - 1, m) + m
  }

  lemma {:induction false} TimesCounts(n: nat, m: multiset<Ordered>, x: Ordered)
    ensures Times(n, m)[x] == n * m[x]
  {
    if n > 0 {
      TimesCounts(n - 1, m, x);
      Distribute(n, m[x]);
    }
  }

  lemma Distribute(n: nat, k: nat)
    requires n > 0
    ensures (n - 1) * k + k == n * k
  {}

  lemma NamingNext(routes: seq<Route>, route: Route, r: string)
    ensures Naming(routes + [route], r) == Naming(routes, r) + if route.role == r then 1 else 0
  {
    assert (routes + [route])[..|routes|] == routes;
  }

  lemma GainedAgain(n: nat, was: RoleLists, mid: RoleLists, now: RoleLists, before: seq<Ordered>, after: seq<Ordered>)
    requires GainedTimes(n, was, mid, before, after) && Gained(mid, now, before, after)
    ensures GainedTimes(n + 1, was, now, before, after)
  {
    Reassociate(multiset(was.before), Times(n, multiset(before)), multiset(before));
    Reassociate(multiset(was.after), Times(n, multiset(after)), multiset(after));
  }

  lemma Reassociate(a: multiset<Ordered>, b: multiset<Ordered>, c: multiset<Ordered>)
    ensures (a + b) + c == a + (b + c)
  {}

  lemma AddedNext(was: map<string, RoleLists>, mid: map<string, RoleLists>, now: map<string, RoleLists>,
                  routes: seq<Route>, i: nat, befores: map<string, seq<Ordered>>, afters: map<string, seq<Ordered>>)
    requires i < |routes| && AllAdded(was, mid, routes[..i], befores, afters) && Added(mid, now, routes[i].role, befores, afters)
    ensures AllAdded(was, now, routes[..i + 1], befores, afters)
  {
    var next := routes[..i + 1];
    assert next == routes[..i] + [routes[i]];
    forall r ensures RoleAdded(was, now, next, r, befores, afters) {
      RoleAddedNext(was, mid, now, routes[..i], routes[i], r, befores, afters);
    }
  }

  /** The last route with a path, if there is one. */
  function LastWith(routes: seq<Route>, path: string): Option<Route> {
    if routes == [] then None
    else if routes[|routes| - 1].path == path then Some(routes[|routes| - 1])
    else LastWith(routes[..|routes| - 1], path)
  }

  lemma {:induction false} LastRouteDecides(was: map<string, string>, routes: seq<Route>, path: string)
    ensures var last := LastWith(routes, path);
            && (last.Some? ==> path in Paths(was, routes) && Paths(was, routes)[path] == last.value.role
                               && last.value in routes && last.value.path == path)
            && (last == None ==> (path in Paths(was, routes) <==> path in was) && (path in was ==> Paths(was, routes)[path] == was[path]))
            && (last == None ==> forall r :: r in routes ==> r.path != path)
  {
    if routes != [] {
      var prefix := routes[..|routes| - 1];
      assert routes == prefix + [routes[|routes| - 1]];
      LastRouteDecides(was, prefix, path);
    }
  }

  /** A request to a one-segment route has the role that the multi-role function of its path says, and without such a
      function the role of the last route registered with that path. */
  lemma RequestRole(app: Sunny, was: map<string, string>, routes: seq<Route>, path: string, group: string, action: string)
    requires app.pathRoles == Paths(was, routes) && OneSegment(path) && exists r :: r in routes && r.path == path
    ensures LastWith(routes, path).Some?
    ensures app.RoleOf(FullPath(path), group, action)
         == if path in app.multiRoles then app.multiRoles[path](group, action) else LastWith(routes, path).value.role
  {
    LastRouteDecides(was, routes, path);
    FindsOwnPathIff(path);
  }

  /** The answers: what is missing decides, in this order. Without a role nothing is called, without a group only role
      before-handlers. */
  lemma AnswersIff(app: Sunny, fullPath: string, group: string, action: string, aborts: set<Event>)
    ensures var (trace, r) := app.Answer(fullPath, group, action, aborts);
            var role := app.RoleOf(fullPath, group, action);
            && (r == PathNotFound <==> |Split(fullPath, '/')| < 3)
            && (r == RoleNotFound <==> |Split(fullPath, '/')| >= 3 && role !in app.roles)
            && (r == PathNotFound || r == RoleNotFound ==> trace == [])
            && (|Split(fullPath, '/')| >= 3 && role in app.roles && !Aborts(RoleBefore, app.roles[role].before, aborts) ==>
                  && (r == GroupNotFound <==> ColonKey(role, group) !in app.groups)
                  && (r == GroupNotFound ==> trace == All(RoleBefore, app.roles[role].before))
                  && (r == ActionNotFound <==> ColonKey(role, group) in app.groups
                                               && !Aborts(GroupBefore, app.groups[ColonKey(role, group)].before, aborts)
                                               && action !in app.groups[ColonKey(role, group)].actions))
  {
    var role := app.RoleOf(fullPath, group, action);
    if |Split(fullPath, '/')| >= 3 && role in app.roles && !Aborts(RoleBefore, app.roles[role].before, aborts) {
      RanWithoutAbort(RoleBefore, app.roles[role].before, aborts);
    }
  }

  /** Handlers of smaller order are called earlier, and so everything before an abort has at most its order. */
  lemma SmallerOrderRunsFirst(place: Place, s: seq<Ordered>, aborts: set<Event>, i: nat, j: nat)
    requires Sorted(s) && i < |s| && j < |s| && s[i].order < s[j].order
    requires All(place, s)[j] in Ran(place, s, aborts, false)
    ensures i < j && All(place, s)[i] in Ran(place, s, aborts, false)
  {
    var r := Ran(place, s, aborts, false);
    if Aborts(place, s, aborts) {
      RanToFirstAbort(place, s, aborts);
      assert r <= All(place, s)[0..];
    } else {
      RanWithoutAbort(place, s, aborts);
    }
    assert All(place, s)[0..] == All(place, s);
    var k :| 0 <= k < |r| && r[k] == All(place, s)[j];
    assert r[k] == All(place, s)[k];
    assert r[i] == All(place, s)[i];
  }

  lemma PathsNext(was: map<string, string>, routes: seq<Route>, i: nat)
    requires i < |routes|
    ensures Paths(was, routes[..i + 1]) == Paths(was, routes[..i])[routes[i].path := routes[i].role]
  {
    assert routes[..i + 1][..i] == routes[..i];
  }

  lemma AddedBy(was: map<string, RoleLists>, mid: map<string, RoleLists>, now: map<string, RoleLists>, role: string,
                befores: map<string, seq<Ordered>>, afters: map<string, seq<Ordered>>)
    requires mid == was[role := ListsOf(was, role)] && now.Keys == mid.Keys
    requires forall r :: r in mid && r != role ==> now[r] == mid[r]
    requires Gained(mid[role], now[role], Registered(befores, role), Registered(afters, role))
    ensures Added(was, now, role, befores, afters)
  {}

  lemma RoleAddedNext(was: map<string, RoleLists>, mid: map<string, RoleLists>, now: map<string, RoleLists>,
                      routes: seq<Route>, route: Route, r: string, befores: map<string, seq<Ordered>>, afters: map<string, seq<Ordered>>)
    requires RoleAdded(was, mid, routes, r, befores, afters) && Added(mid, now, route.role, befores, afters)
    ensures RoleAdded(was, now, routes + [route], r, befores, afters)
  {
    NamingNext(routes, route, r);
    if r == route.role {
      GainedAgain(Naming(routes, r), ListsOf(was, r), ListsOf(mid, r), now[r], Registered(befores, r), Registered(afters, r));
    } else {
      OtherRoleStays(mid, now, route.role, r, befores, afters);
    }
  }

  lemma OtherRoleStays(mid: map<string, RoleLists>, now: map<string, RoleLists>, role: string, r: string,
                       befores: map<string, seq<Ordered>>, afters: map<string, seq<Ordered>>)
    requires Added(mid, now, role, befores, afters) && r != role
    ensures (r in now <==> r in mid) && ListsOf(now, r) == ListsOf(mid, r)
  {
    assert r in now.Keys <==> r in mid.Keys;
  }
}

/**
 The outbox undisturbed: a pass of the interleaved loop during which nobody publishes, and a publish by itself, are those
 of module FailedMessages (components/mqs/kafka.go:366-411, 505-543).
 */
module OutboxPass {
  import opened FailedMessages
  import opened Outbox
  import opened Sets
  import opened Wrappers

  /** The steps of a pass after it has listed the store. */
  ghost predicate OfPass(a: Action) {
    || a.Abandon? || a.Attempt? || a.ResendAccepted? || a.ResendRefused? || a.StoreFreshCopy? || a.StoreBumped?
    || a.RemoveSent? || a.EndPass?
  }

  /** The broker refuses exactly the resends of the names in rejects. */
  ghost predicate Obeys(s: State, a: Action, rejects: set<Id>) {
    (a.ResendAccepted? && s.loop.Sending? ==> s.loop.m.id !in rejects) && (a.ResendRefused? && s.loop.Sending? ==> s.loop.m.id in rejects)
  }

  ghost predicate UndisturbedRun(c: Config, start: State, run: seq<Action>, rejects: set<Id>) {
    forall i :: 0 <= i < |run| ==> OfPass(run[i]) && (After(c, run[..i], start).Some? ==> Obeys(After(c, run[..i], start).value, run[i], rejects))
  }

  ghost function Names(list: seq<Msg>): seq<Id> {
    seq(|list|, i requires 0 <= i < |list| => list[i].id)
  }

  /** How many messages of the list are done with. */
  ghost function Handled(list: seq<Msg>, s: State): int {
    |list| - |s.todo| - (if Busy(s) then 1 else 0)
  }

  ghost predicate ListedIn(b: Box, list: seq<Msg>) {
    DistinctNames(list) && forall i :: 0 <= i < |list| ==> list[i].id in b.view && b.view[list[i].id] == list[i]
  }

  /** The outbox after the first n messages of the list, in one thread. */
  ghost function BoxAfter(b: Box, list: seq<Msg>, n: nat, rejects: set<Id>, max: nat): Box
    requires ListedIn(b, list) && n <= |list|
  {
    assert forall id :: id in Names(list)[..n] ==> id in b.view;
    ResentAll(b, Names(list)[..n], rejects, max)
  }

  /** Where the loop stands in the list. */
  ghost predicate Position(c: Config, list: seq<Msg>, s: State) {
    var n := Handled(list, s);
    && 0 <= n <= |list| && |s.todo| <= |list| && s.todo == list[|list| - |s.todo|..]
    && (Busy(s) ==> s.loop.m == list[n] && s.loop.m.retries < c.max)
    && (s.loop == Idle ==> s.todo == [])
  }

  /** Store, names and broker are those of r, the box before the message at hand, as far as the loop has come with it. */
  ghost predicate Matches(r: Box, delivered: set<Payload>, rejects: set<Id>, s: State) {
    var sent := delivered + Elements(r.sent);
    match s.loop
    case Accepted(m) => s.store == r.view && s.next == r.next && m.id !in rejects && s.delivered == sent + {m.payload}
    case SendFailed(m) => s.store == r.view && s.next == r.next && m.id in rejects && s.delivered == sent
    case Bumping(m) =>
      var p := Published(r, m.payload, false);
      s.store == p.view && s.next == p.next && m.id in rejects && s.delivered == sent
    case _ => s.store == r.view && s.next == r.next && s.delivered == sent
  }

  /** The message that a step is about. */
  ghost function AtHand(s: State): Option<Msg> {
    if Busy(s) then Some(s.loop.m) else if s.todo != [] then Some(s.todo[0]) else None
  }

  /** The steps that finish a message. */
  ghost predicate Finishes(a: Action) {
    a.Abandon? || a.StoreBumped? || a.RemoveSent?
  }

  lemma PositionMoves(c: Config, list: seq<Msg>, s: State, a: Action)
    requires Position(c, list, s) && Enabled(c, s, a) && OfPass(a)
    ensures Position(c, list, Apply(c, s, a))
    ensures Handled(list, Apply(c, s, a)) == Handled(list, s) + if Finishes(a) then 1 else 0
    ensures Finishes(a) ==> Handled(list, s) < |list| && AtHand(s) == Some(list[Handled(list, s)])
  {}

  lemma StillMatches(c: Config, r: Box, delivered: set<Payload>, rejects: set<Id>, s: State, a: Action)
    requires Matches(r, delivered, rejects, s) && Enabled(c, s, a) && OfPass(a) && !Finishes(a) && Obeys(s, a, rejects)
    ensures Matches(r, delivered, rejects, Apply(c, s, a))
  {}

  lemma AbandonMatches(c: Config, r: Box, delivered: set<Payload>, rejects: set<Id>, s: State)
    requires Matches(r, delivered, rejects, s) && Enabled(c, s, Abandon)
    ensures Matches(Resent(r, s.todo[0], rejects, c.max), delivered, rejects, Apply(c, s, Abandon))
  {}

  lemma RaiseMatches(c: Config, r: Box, delivered: set<Payload>, rejects: set<Id>, s: State)
    requires Matches(r, delivered, rejects, s) && Enabled(c, s, StoreBumped) && s.loop.m.retries < c.max
    ensures Matches(Resent(r, s.loop.m, rejects, c.max), delivered, rejects, Apply(c, s, StoreBumped))
  {}

  lemma RemoveMatches(c: Config, r: Box, delivered: set<Payload>, rejects: set<Id>, s: State)
    requires Matches(r, delivered, rejects, s) && Enabled(c, s, RemoveSent) && s.loop.m.retries < c.max
    ensures Matches(Resent(r, s.loop.m, rejects, c.max), delivered, rejects, Apply(c, s, RemoveSent))
  {
    assert Elements(r.sent + [s.loop.m.payload]) == Elements(r.sent) + {s.loop.m.payload};
  }

  lemma MatchesNext(c: Config, r: Box, delivered: set<Payload>, rejects: set<Id>, s: State, a: Action, m: Msg)
    requires Matches(r, delivered, rejects, s) && Enabled(c, s, a) && Finishes(a) && AtHand(s) == Some(m)
    requires Busy(s) ==> m.retries < c.max
    ensures Matches(Resent(r, m, rejects, c.max), delivered, rejects, Apply(c, s, a))
  {
    match a
    case Abandon => AbandonMatches(c, r, delivered, rejects, s);
    case StoreBumped => RaiseMatches(c, r, delivered, rejects, s);
    case RemoveSent => RemoveMatches(c, r, delivered, rejects, s);
  }

  lemma BoxNext(b: Box, list: seq<Msg>, n: nat, rejects: set<Id>, max: nat)
    requires ListedIn(b, list) && n < |list|
    ensures BoxAfter(b, list, n + 1, rejects, max) == Resent(BoxAfter(b, list, n, rejects, max), list[n], rejects, max)
  {
    assert forall id :: id in Names(list) ==> id in b.view;
    ResentAllStep(b, Names(list), n, rejects, max);
  }

  ghost predicate Tracks(c: Config, b: Box, delivered: set<Payload>, list: seq<Msg>, rejects: set<Id>, s: State)
    requires ListedIn(b, list)
  {
    Position(c, list, s) && Matches(BoxAfter(b, list, Handled(list, s), rejects, c.max), delivered, rejects, s)
  }

  lemma StepTracks(c: Config, b: Box, delivered: set<Payload>, list: seq<Msg>, rejects: set<Id>, s: State, a: Action)
    requires ListedIn(b, list) && Tracks(c, b, delivered, list, rejects, s) && Enabled(c, s, a) && OfPass(a) && Obeys(s, a, rejects)
    ensures Tracks(c, b, delivered, list, rejects, Apply(c, s, a))
  {
    var n := Handled(list, s);
    var r := BoxAfter(b, list, n, rejects, c.max);
    PositionMoves(c, list, s, a);
    if Finishes(a) {
      MatchesNext(c, r, delivered, rejects, s, a, list[n]);
      BoxNext(b, list, n, rejects, c.max);
    } else {
      StillMatches(c, r, delivered, rejects, s, a);
    }
  }

  lemma {:induction false} RunTracks(c: Config, b: Box, start: State, list: seq<Msg>, run: seq<Action>, rejects: set<Id>)
    requires b == Box(start.store, start.next, []) && ListedIn(b, list) && start.loop == Scanning && start.todo == list
    requires UndisturbedRun(c, start, run, rejects) && After(c, run, start).Some?
    ensures Tracks(c, b, start.delivered, list, rejects, After(c, run, start).value)
  {
    if run == [] {
      assert Names(list)[..0] == [];
    } else {
      var prefix := run[..|run| - 1];
      assert forall i :: 0 <= i < |prefix| ==> prefix[i] == run[i] && prefix[..i] == run[..i];
      RunTracks(c, b, start, list, prefix, rejects);
      StepTracks(c, b, start.delivered, list, rejects, After(c, prefix, start).value, run[|run| - 1]);
    }
  }

  /** A pass during which nobody publishes does to the store, the names and the broker exactly what the single-threaded
      pass does to the list it retrieved. So all that is proved of that pass holds of it. */
  lemma UndisturbedPass(c: Config, s: State, list: seq<Msg>, run: seq<Action>, rejects: set<Id>)
    requires Enabled(c, s, Retrieve(list)) && Named(s)
    requires var start := Apply(c, s, Retrieve(list));
             UndisturbedRun(c, start, run, rejects) && After(c, run, start).Some? && After(c, run, start).value.loop == Idle
    ensures Lists(Names(list), s.store)
    ensures var b := Box(s.store, s.next, []);
            var s', r := After(c, run, Apply(c, s, Retrieve(list))).value, ResentAll(b, Names(list), rejects, c.max);
            s'.store == r.view && s'.next == r.next && s'.delivered == s.delivered + Elements(r.sent)
  {
    RetrievedLists(c, s, list);
    var start := Apply(c, s, Retrieve(list));
    RunTracks(c, Box(s.store, s.next, []), start, list, run, rejects);
    assert Handled(list, After(c, run, start).value) == |list|;
    assert Names(list)[..|list|] == Names(list);
  }

  lemma RetrievedLists(c: Config, s: State, list: seq<Msg>)
    requires Enabled(c, s, Retrieve(list)) && Named(s)
    ensures Lists(Names(list), s.store) && ListedIn(Box(s.store, s.next, []), list)
  {
    var names := Names(list);
    forall id ensures id in names <==> id in s.store {
      if id in s.store {
        var i :| 0 <= i < |list| && list[i] == s.store[id];
        assert names[i] == id;
      }
      if id in names {
        var i :| 0 <= i < |names| && names[i] == id;
        assert list[i].id in s.store;
      }
    }
  }

  /** What a publish by itself does: accepted, refused and then stored, or without a channel. */
  ghost predicate PublishOutcome(s: State, s': State, p: Payload, r: Option<Box>) {
    if r == None then s'.store == s.store && s'.next == s.next && s'.delivered == s.delivered && p in s'.unstored
    else
      && s'.store == r.value.view && s'.next == r.value.next && s'.delivered == s.delivered + Elements(r.value.sent)
      && (r.value.sent == [] ==> p in s'.copied)
  }

  lemma UndisturbedAccepted(c: Config, s: State, p: Payload)
    ensures PublishOutcome(s, Apply(c, s, PublishAccepted(p)), p, Some(Published(Box(s.store, s.next, []), p, true)))
    ensures c.pooled ==> PublishOutcome(s, Apply(c, s, PublishWithoutChannel(p)), p, None)
  {
    assert Elements([p]) == {p};
  }

  lemma UndisturbedRefused(c: Config, s: State, p: Payload, h: nat)
    requires h !in s.publishing
    ensures Enabled(c, Apply(c, s, PublishRefused(h, p)), StoreCopy(h))
    ensures PublishOutcome(s, Apply(c, Apply(c, s, PublishRefused(h, p)), StoreCopy(h)), p, Some(Published(Box(s.store, s.next, []), p, false)))
  {
    assert Elements<Payload>([]) == {};
  }
}

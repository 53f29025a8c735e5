/**
 The outbox with any number of concurrent publishers beside the one resend loop of a manager
 (components/mqs/kafka.go:366-411, 505-543; components/mqs/rabbitmq.go:493-554, 646-684).

 A publish whose send failed stores its copy in a later step, and the resend loop works on the list
 it retrieved while publishers go on storing. RabbitMQ has one more way to fail: no channel from the
 pool, and then nothing is stored. The store does not fail and names are never reused.
 */
module Outbox {
  import opened FailedMessages
  import opened Sets
  import opened Wrappers

  /** max is the effective retry limit, so at least 1; pooled tells RabbitMQ from Kafka. */
  datatype Config = Config(max: nat, pooled: bool)

  /** Where the resend loop stands with the message it took from its list. */
  datatype Loop =
    | Idle
    | Scanning
    | Sending(m: Msg)
    | Accepted(m: Msg)
    | SendFailed(m: Msg)
    | Bumping(m: Msg)

  /** publishing holds the publishes whose send failed and whose copy is not stored yet; copied and unstored the
      payloads of publishes that have returned an error, after storing a copy and for want of a channel. The rest is
      history: begun holds every payload ever published, resends counts the attempts made for each name, dry those attempts
      for each payload that got no channel, and accepted lists the names whose resend the broker accepted. */
  datatype State = State(
    store: View, next: Id,
    publishing: map<nat, Payload>, copied: set<Payload>, unstored: set<Payload>, delivered: set<Payload>,
    loop: Loop, todo: seq<Msg>, begun: set<Payload>, resends: map<Id, nat>, dry: map<Payload, nat>, accepted: seq<Id>)

  const INIT := State(map[], 0, map[], {}, {}, {}, Idle, [], {}, map[], map[], [])

  /** The payloads of all publishes that have returned an error. */
  ghost function Failed(s: State): set<Payload> {
    s.copied + s.unstored
  }

  datatype Action =
    | PublishAccepted(p: Payload)
    | PublishRefused(h: nat, p: Payload)
    | StoreCopy(h: nat)
    | PublishWithoutChannel(p: Payload)
    | Retrieve(list: seq<Msg>)
    | Abandon
    | Attempt
    | ResendAccepted
    | ResendRefused
    | ResendWithoutChannel
    | StoreFreshCopy
    | StoreBumped
    | RemoveSent
    | EndPass

  ghost predicate DistinctNames(list: seq<Msg>) {
    forall i, j :: 0 <= i < j < |list| ==> list[i].id != list[j].id
  }

  ghost predicate Enabled(c: Config, s: State, a: Action) {
    match a
    case PublishAccepted(_) => true
    case PublishRefused(h, _) => h !in s.publishing
    case StoreCopy(h) => h in s.publishing
    case PublishWithoutChannel(_) => c.pooled
    case Retrieve(list) =>
      s.loop == Idle && DistinctNames(list)
      && (forall i :: 0 <= i < |list| ==> list[i].id in s.store && s.store[list[i].id] == list[i])
      && (forall id :: id in s.store ==> s.store[id] in list)
    case Abandon => s.loop == Scanning && s.todo != [] && s.todo[0].retries >= c.max
    case Attempt => s.loop == Scanning && s.todo != [] && s.todo[0].retries < c.max
    case ResendAccepted => s.loop.Sending?
    case ResendRefused => s.loop.Sending?
    case ResendWithoutChannel => s.loop.Sending? && c.pooled
    case StoreFreshCopy => s.loop.SendFailed?
    case StoreBumped => s.loop.Bumping?
    case RemoveSent => s.loop.Accepted?
    case EndPass => s.loop == Scanning && s.todo == []
  }

  ghost function Resends(s: State, id: Id): nat {
    if id in s.resends then s.resends[id] else 0
  }

  ghost function Dry(s: State, p: Payload): nat {
    if p in s.dry then s.dry[p] else 0
  }

  ghost function WithCopy(s: State, p: Payload): State {
    s.(store := s.store[s.next := Msg(s.next, p, 0)], next := s.next + 1)
  }

  ghost function Apply(c: Config, s: State, a: Action): State
    requires Enabled(c, s, a)
  {
    match a
    case PublishAccepted(p) => s.(delivered := s.delivered + {p}, begun := s.begun + {p})
    case PublishRefused(h, p) => s.(publishing := s.publishing[h := p], begun := s.begun + {p})
    case StoreCopy(h) =>
      WithCopy(s, s.publishing[h]).(publishing := s.publishing - {h}, copied := s.copied + {s.publishing[h]})
    case PublishWithoutChannel(p) => s.(unstored := s.unstored + {p}, begun := s.begun + {p})
    case Retrieve(list) => s.(loop := Scanning, todo := list)
    case Abandon => s.(store := s.store - {s.todo[0].id}, todo := s.todo[1..])
    case Attempt =>
      var m := s.todo[0];
      s.(loop := Sending(m), todo := s.todo[1..], resends := s.resends[m.id := Resends(s, m.id) + 1])
    case ResendAccepted =>
      s.(loop := Accepted(s.loop.m), delivered := s.delivered + {s.loop.m.payload}, accepted := s.accepted + [s.loop.m.id])
    case ResendRefused => s.(loop := SendFailed(s.loop.m))
    case ResendWithoutChannel =>
      s.(loop := Bumping(s.loop.m), dry := s.dry[s.loop.m.payload := Dry(s, s.loop.m.payload) + 1])
    case StoreFreshCopy => WithCopy(s, s.loop.m.payload).(loop := Bumping(s.loop.m))
    case StoreBumped => s.(loop := Scanning, store := s.store[s.loop.m.id := Bumped(s.loop.m)])
    case RemoveSent => s.(loop := Scanning, store := s.store - {s.loop.m.id})
    case EndPass => s.(loop := Idle)
  }

  ghost function After(c: Config, run: seq<Action>, start: State := INIT): Option<State> {
    if run == [] then Some(start)
    else
      var before := After(c, run[..|run| - 1], start);
      var a := run[|run| - 1];
      if before.Some? && Enabled(c, before.value, a) then Some(Apply(c, before.value, a)) else None
  }

  // ----- Invariant: the loop and the store agree -----

  ghost predicate Busy(s: State) {
    s.loop.Sending? || s.loop.Accepted? || s.loop.SendFailed? || s.loop.Bumping?
  }

  ghost predicate Named(s: State) {
    forall id :: id in s.store ==> s.store[id].id == id < s.next
  }

  /** What is left of the retrieved list is still in the store as it was retrieved: only the loop itself
      changes or removes stored messages. */
  ghost predicate ListCurrent(s: State) {
    && DistinctNames(s.todo)
    && (forall i :: 0 <= i < |s.todo| ==> s.todo[i].id in s.store && s.store[s.todo[i].id] == s.todo[i])
    && (s.loop == Idle ==> s.todo == [])
  }

  ghost predicate MessageCurrent(c: Config, s: State) {
    Busy(s) ==>
      && s.loop.m.retries < c.max && s.loop.m.id in s.store && s.store[s.loop.m.id] == s.loop.m
      && (forall i :: 0 <= i < |s.todo| ==> s.todo[i].id != s.loop.m.id)
  }

  ghost predicate Consistent(c: Config, s: State) {
    Named(s) && ListCurrent(s) && MessageCurrent(c, s)
  }

  lemma StepKeepsConsistent(c: Config, s: State, a: Action)
    requires Consistent(c, s) && Enabled(c, s, a)
    ensures Consistent(c, Apply(c, s, a))
  {}

  // ----- Invariant: how often a name was resent -----

  /** A stored message has been resent as often as its count says, and once more while its attempt is
      under way. */
  ghost predicate CountsMatch(c: Config, s: State) {
    forall id :: id in s.store ==>
      s.store[id].retries <= c.max
      && Resends(s, id) == s.store[id].retries + (if Busy(s) && s.loop.m.id == id then 1 else 0)
  }

  /** No name, stored or gone, was ever resent more than max times. */
  ghost predicate Bounded(c: Config, s: State) {
    forall id :: id in s.resends ==> id < s.next && s.resends[id] <= c.max
  }

  ghost predicate Counted(c: Config, s: State) {
    CountsMatch(c, s) && Bounded(c, s)
  }

  /** The steps that store or remove messages, as against those that only move the loop or the broker. */
  ghost predicate Stores(a: Action) {
    a.StoreCopy? || a.StoreFreshCopy? || a.StoreBumped? || a.RemoveSent? || a.Abandon?
  }

  lemma StoringKeepsCountsMatch(c: Config, s: State, a: Action)
    requires Consistent(c, s) && Counted(c, s) && Enabled(c, s, a) && Stores(a)
    ensures CountsMatch(c, Apply(c, s, a))
  {}

  lemma MovingKeepsCountsMatch(c: Config, s: State, a: Action)
    requires Consistent(c, s) && Counted(c, s) && Enabled(c, s, a) && !Stores(a)
    ensures CountsMatch(c, Apply(c, s, a))
  {}

  lemma StepKeepsCountsMatch(c: Config, s: State, a: Action)
    requires Consistent(c, s) && Counted(c, s) && Enabled(c, s, a)
    ensures CountsMatch(c, Apply(c, s, a))
  {
    if Stores(a) {
      StoringKeepsCountsMatch(c, s, a);
    } else {
      MovingKeepsCountsMatch(c, s, a);
    }
  }

  lemma StepKeepsBounded(c: Config, s: State, a: Action)
    requires Consistent(c, s) && Counted(c, s) && Enabled(c, s, a)
    ensures Bounded(c, Apply(c, s, a))
  {}

  // ----- Invariant: an accepted name is done with -----

  /** An accepted name is in the store only until the loop removes it, and then never again. */
  ghost predicate AcceptedGone(s: State) {
    && (forall id :: id in s.accepted ==> id < s.next && (id in s.store ==> s.loop.Accepted? && s.loop.m.id == id))
    && Distinct(s.accepted)
  }

  lemma StepKeepsAcceptedGone(c: Config, s: State, a: Action)
    requires Consistent(c, s) && AcceptedGone(s) && Enabled(c, s, a)
    ensures AcceptedGone(Apply(c, s, a))
  {
    if a.ResendAccepted? {
      var id := s.loop.m.id;
      assert id !in s.accepted;
      assert forall k :: k in s.accepted + [id] <==> k in s.accepted || k == id;
    } else if a.RemoveSent? {
      assert forall id :: id in s.accepted && id in s.store ==> id == s.loop.m.id;
    }
  }

  lemma {:induction false} RunKeepsAcceptedGone(c: Config, run: seq<Action>)
    requires After(c, run).Some?
    ensures AcceptedGone(After(c, run).value)
  {
    if run != [] {
      var prefix := run[..|run| - 1];
      RunKeepsAcceptedGone(c, prefix);
      RunKeepsCounted(c, prefix);
      StepKeepsAcceptedGone(c, After(c, prefix).value, run[|run| - 1]);
    }
  }

  /** Over every run, beside any publishers, the broker accepts each stored name at most once; once the loop has moved on
      an accepted name is gone, and it is never sent again. */
  lemma AcceptedOnce(c: Config, run: seq<Action>, id: Id)
    requires After(c, run).Some? && id in After(c, run).value.accepted
    ensures var s := After(c, run).value;
            && Distinct(s.accepted)
            && (id in s.store ==> s.loop.Accepted? && s.loop.m.id == id)
            && (forall m :: m in s.todo ==> m.id != id)
            && (s.loop.Sending? ==> s.loop.m.id != id)
  {
    RunKeepsAcceptedGone(c, run);
    RunKeepsCounted(c, run);
  }

  lemma {:induction false} ListingOf(store: View, ids: set<Id>) returns (list: seq<Msg>)
    requires ids <= store.Keys && forall id :: id in ids ==> store[id].id == id
    ensures DistinctNames(list) && (forall i :: 0 <= i < |list| ==> list[i].id in ids && store[list[i].id] == list[i])
    ensures forall id :: id in ids ==> store[id] in list
  {
    if ids == {} {
      list := [];
    } else {
      var x :| x in ids;
      var rest := ListingOf(store, ids - {x});
      list := rest + [store[x]];
      forall id | id in ids ensures store[id] in list {
        if id == x {
          assert list[|rest|] == store[x];
        }
      }
    }
  }

  /** Whatever publishers do, the loop is never stuck: in every reachable state it has a step to take. */
  lemma LoopCanStep(c: Config, run: seq<Action>) returns (a: Action)
    requires After(c, run).Some?
    ensures Enabled(c, After(c, run).value, a)
    ensures !Publishes(a) && !a.StoreCopy?
  {
    RunKeepsCounted(c, run);
    var s := After(c, run).value;
    match s.loop
    case Idle =>
      var list := ListingOf(s.store, s.store.Keys);
      a := Retrieve(list);
    case Scanning => a := if s.todo == [] then EndPass else if s.todo[0].retries < c.max then Attempt else Abandon;
    case Sending(_) => a := ResendAccepted;
    case Accepted(_) => a := RemoveSent;
    case SendFailed(_) => a := StoreFreshCopy;
    case Bumping(_) => a := StoreBumped;
  }

  // ----- Invariant: a stored payload is kept -----

  /** Stored with a count of at most limit, under a name other than except. */
  ghost predicate Within(s: State, p: Payload, limit: nat, except: Option<Id>) {
    exists id :: id in s.store && s.store[id].payload == p && s.store[id].retries <= limit && Some(id) != except
  }

  /** Delivered, or stored with a count of at most the number of resends that got no channel, unless these have used
      up the limit. */
  ghost predicate Kept(c: Config, s: State, p: Payload) {
    p in s.delivered || Dry(s, p) >= c.max || Within(s, p, Dry(s, p), None)
  }

  ghost predicate NoLoss(c: Config, s: State) {
    forall p :: p in s.copied ==> Kept(c, s, p)
  }

  /** Raising the count of the message at hand does no harm: its count may rise, or there is a copy to spare. */
  ghost predicate Spare(c: Config, s: State, m: Msg) {
    || m.payload in s.delivered || Dry(s, m.payload) >= c.max
    || m.retries < Dry(s, m.payload) || Within(s, m.payload, Dry(s, m.payload), Some(m.id))
  }

  ghost predicate Covered(c: Config, s: State) {
    && (s.loop.Bumping? && s.loop.m.payload in s.copied ==> Spare(c, s, s.loop.m))
    && (s.loop.Accepted? ==> s.loop.m.payload in s.delivered)
  }

  lemma RaisingKeepsSafe(c: Config, s: State, p: Payload)
    requires Consistent(c, s) && Covered(c, s) && Enabled(c, s, StoreBumped) && p in s.copied && Kept(c, s, p)
    ensures Kept(c, Apply(c, s, StoreBumped), p)
  {
    var s', m := Apply(c, s, StoreBumped), s.loop.m;
    if p !in s.delivered && Dry(s, p) < c.max {
      var id :| id in s.store && s.store[id].payload == p && s.store[id].retries <= Dry(s, p);
      if id != m.id {
        assert s'.store[id] == s.store[id];
      } else if m.retries < Dry(s, p) {
        assert s'.store[id] == Bumped(m);
      } else {
        var other :| other in s.store && s.store[other].payload == p && s.store[other].retries <= Dry(s, p) && Some(other) != Some(m.id);
        assert s'.store[other] == s.store[other];
      }
    }
  }

  /** Storing never overwrites another name, abandonment needs a count at the limit, and removal follows delivery. */
  lemma StepKeepsSafe(c: Config, s: State, a: Action, p: Payload)
    requires Consistent(c, s) && Covered(c, s) && Enabled(c, s, a) && p in s.copied && Kept(c, s, p)
    ensures Kept(c, Apply(c, s, a), p)
  {
    var s' := Apply(c, s, a);
    if a.StoreBumped? {
      RaisingKeepsSafe(c, s, p);
    } else if p !in s.delivered && Dry(s, p) < c.max {
      var id :| id in s.store && s.store[id].payload == p && s.store[id].retries <= Dry(s, p);
      assert id in s'.store ==> s'.store[id] == s.store[id];
    }
  }

  lemma StepKeepsNoLoss(c: Config, s: State, a: Action)
    requires Consistent(c, s) && Covered(c, s) && NoLoss(c, s) && Enabled(c, s, a)
    ensures NoLoss(c, Apply(c, s, a))
  {
    var s' := Apply(c, s, a);
    forall p | p in s'.copied ensures Kept(c, s', p) {
      if p in s.copied {
        StepKeepsSafe(c, s, a, p);
      } else {
        assert s'.store[s.next].payload == p;
      }
    }
  }

  lemma StartsBumpingCovered(c: Config, s: State, a: Action)
    requires Consistent(c, s) && NoLoss(c, s) && Enabled(c, s, a) && (a.StoreFreshCopy? || a.ResendWithoutChannel?)
    ensures Covered(c, Apply(c, s, a))
  {
    var s', m := Apply(c, s, a), s.loop.m;
    var p := m.payload;
    if a.StoreFreshCopy? {
      assert s'.store[s.next].payload == p && s.next != m.id;
    } else if p in s.copied && p !in s.delivered && Dry(s, p) < c.max {
      var id :| id in s.store && s.store[id].payload == p && s.store[id].retries <= Dry(s, p);
      assert id != m.id ==> s'.store[id] == s.store[id];
    }
  }

  lemma StaysCovered(c: Config, s: State, a: Action)
    requires Consistent(c, s) && Covered(c, s) && Enabled(c, s, a) && !a.StoreFreshCopy? && !a.ResendWithoutChannel?
    ensures Covered(c, Apply(c, s, a))
  {
    var s' := Apply(c, s, a);
    if s'.loop.Bumping? && s'.loop.m.payload in s'.copied {
      var m := s.loop.m;
      var p := m.payload;
      if p !in s.copied {
        assert s'.store[s.next].payload == p && s.next != m.id;
      } else if p !in s.delivered && Dry(s, p) < c.max && m.retries >= Dry(s, p) {
        var id :| id in s.store && s.store[id].payload == p && s.store[id].retries <= Dry(s, p) && Some(id) != Some(m.id);
        assert s'.store[id] == s.store[id];
      }
    }
  }

  lemma StepKeepsCovered(c: Config, s: State, a: Action)
    requires Consistent(c, s) && Covered(c, s) && NoLoss(c, s) && Enabled(c, s, a)
    ensures Covered(c, Apply(c, s, a))
  {
    if a.StoreFreshCopy? || a.ResendWithoutChannel? {
      StartsBumpingCovered(c, s, a);
    } else {
      StaysCovered(c, s, a);
    }
  }

  // ----- Invariant: what was never stored stays away -----

  ghost predicate Publishes(a: Action) {
    a.PublishAccepted? || a.PublishRefused? || a.PublishWithoutChannel?
  }

  /** Every publish has a payload of its own, as it does when origins differ. */
  ghost predicate FreshPublishes(c: Config, run: seq<Action>) {
    forall i :: 0 <= i < |run| && Publishes(run[i]) && After(c, run[..i]).Some? ==> run[i].p !in After(c, run[..i]).value.begun
  }

  ghost predicate InStore(s: State, p: Payload) {
    exists id :: id in s.store && s.store[id].payload == p
  }

  ghost predicate Served(s: State, p: Payload) {
    p in s.delivered || InStore(s, p)
  }

  /** The payload has left no trace but its failed publish. */
  ghost predicate Away(s: State, p: Payload) {
    !Served(s, p) && p !in s.copied && forall h :: h in s.publishing ==> s.publishing[h] != p
  }

  ghost predicate Traced(s: State) {
    && (forall p :: p in s.unstored ==> p in s.begun && Away(s, p))
    && (forall p :: p !in s.begun ==> Away(s, p))
  }

  /** Only a publish of p brings a trace of p. */
  lemma StepKeepsAway(c: Config, s: State, a: Action, p: Payload)
    requires Consistent(c, s) && Enabled(c, s, a) && Away(s, p) && !((a.PublishAccepted? || a.PublishRefused?) && a.p == p)
    ensures Away(Apply(c, s, a), p)
  {
    var s' := Apply(c, s, a);
    assert Busy(s) ==> s.loop.m.payload != p;
    forall id | id in s'.store ensures s'.store[id].payload != p {
      assert id in s.store ==> s.store[id].payload != p;
    }
  }

  lemma StepKeepsTraced(c: Config, s: State, a: Action)
    requires Consistent(c, s) && Traced(s) && Enabled(c, s, a) && (Publishes(a) ==> a.p !in s.begun)
    ensures Traced(Apply(c, s, a))
  {
    var s' := Apply(c, s, a);
    forall p | p in s'.unstored || p !in s'.begun ensures Away(s', p) {
      StepKeepsAway(c, s, a, p);
    }
  }

  // ----- Main results -----

  lemma {:induction false} RunKeepsCounted(c: Config, run: seq<Action>)
    requires After(c, run).Some?
    ensures var s := After(c, run).value; Consistent(c, s) && Counted(c, s)
  {
    if run != [] {
      var prefix, a := run[..|run| - 1], run[|run| - 1];
      RunKeepsCounted(c, prefix);
      StepKeepsConsistent(c, After(c, prefix).value, a);
      StepKeepsCountsMatch(c, After(c, prefix).value, a);
      StepKeepsBounded(c, After(c, prefix).value, a);
    }
  }

  /** Over a whole run, for both brokers, a name is resent at most max times and its stored count never
      exceeds max. */
  lemma RetriesAreBounded(c: Config, run: seq<Action>, id: Id)
    requires After(c, run).Some?
    ensures var s := After(c, run).value;
            Resends(s, id) <= c.max && (id in s.store ==> s.store[id].retries <= c.max)
  {
    RunKeepsCounted(c, run);
  }

  /** Over every run, of either broker, a payload whose failed publish stored a copy is delivered, or stored with a
      count of at most the number of its resends that got no channel, as long as these are fewer than the limit. */
  lemma {:induction false} RunKeepsNoLoss(c: Config, run: seq<Action>)
    requires After(c, run).Some?
    ensures var s := After(c, run).value; NoLoss(c, s) && Covered(c, s)
  {
    if run != [] {
      var prefix, a := run[..|run| - 1], run[|run| - 1];
      RunKeepsNoLoss(c, prefix);
      RunKeepsCounted(c, prefix);
      StepKeepsNoLoss(c, After(c, prefix).value, a);
      StepKeepsCovered(c, After(c, prefix).value, a);
    }
  }

  lemma {:induction false} RunKeepsTraced(c: Config, run: seq<Action>)
    requires After(c, run).Some? && FreshPublishes(c, run)
    ensures Traced(After(c, run).value)
  {
    if run != [] {
      var prefix, a := run[..|run| - 1], run[|run| - 1];
      assert forall i :: 0 <= i < |prefix| ==> prefix[..i] == run[..i];
      RunKeepsTraced(c, prefix);
      RunKeepsCounted(c, prefix);
      StepKeepsTraced(c, After(c, prefix).value, a);
    }
  }

  lemma {:induction false} KafkaNeverPools(c: Config, run: seq<Action>)
    requires !c.pooled && After(c, run).Some?
    ensures After(c, run).value.dry == map[] && After(c, run).value.unstored == {}
  {
    if run != [] {
      KafkaNeverPools(c, run[..|run| - 1]);
    }
  }

  /** Kafka loses nothing: in every reachable state each payload whose publish failed was delivered or is
      stored as a copy with retry count 0, whatever was abandoned at the limit meanwhile. With an origin of its own
      for every publish this holds publish by publish. */
  lemma KafkaLosesNothing(c: Config, run: seq<Action>, p: Payload)
    requires c.max > 0 && !c.pooled && After(c, run).Some? && p in Failed(After(c, run).value)
    ensures var s := After(c, run).value;
            p in s.delivered || exists id :: id in s.store && s.store[id].payload == p && s.store[id].retries == 0
  {
    KafkaNeverPools(c, run);
    RunKeepsNoLoss(c, run);
    var s := After(c, run).value;
    if p !in s.delivered {
      var id :| id in s.store && s.store[id].payload == p && s.store[id].retries <= Dry(s, p);
      assert s.store[id].retries == 0;
    }
  }

  /** RabbitMQ: while fewer resends of a payload than the limit got no channel, the payload of a failed publish is
      delivered or stored if and only if its own publish got a channel or was made while disconnected. Without a channel
      it is never delivered or stored, however the run goes on. */
  lemma PoolFailureLosesIff(c: Config, run: seq<Action>, p: Payload)
    requires After(c, run).Some? && FreshPublishes(c, run) && p in Failed(After(c, run).value)
    ensures var s := After(c, run).value; p in s.unstored ==> !Served(s, p)
    ensures var s := After(c, run).value; Dry(s, p) < c.max ==> (Served(s, p) <==> p !in s.unstored)
  {
    RunKeepsTraced(c, run);
    RunKeepsNoLoss(c, run);
    var s := After(c, run).value;
    if p !in s.unstored && Dry(s, p) < c.max {
      assert Kept(c, s, p);
    }
  }

  lemma AfterExtend(c: Config, run: seq<Action>, a: Action) returns (longer: seq<Action>)
    requires After(c, run).Some? && Enabled(c, After(c, run).value, a)
    ensures longer == run + [a] && After(c, longer) == Some(Apply(c, After(c, run).value, a))
    ensures FreshPublishes(c, run) && (Publishes(a) ==> a.p !in After(c, run).value.begun) ==> FreshPublishes(c, longer)
  {
    longer := run + [a];
    assert longer[..|run|] == run;
    assert forall i :: 0 <= i < |run| ==> longer[..i] == run[..i];
  }

  /** Only p was published, its copy is stored, and each of n resends of it got no channel. */
  ghost function Starving(p: Payload, n: nat): State {
    State(map[0 := Msg(0, p, n)], 1, map[], {p}, {}, {}, Idle, [], {p},
          if n == 0 then map[] else map[0 := n], if n == 0 then map[] else map[p := n], [])
  }

  ghost predicate Reaches(c: Config, run: seq<Action>, s: State) {
    After(c, run) == Some(s) && FreshPublishes(c, run)
  }

  /** The loop takes the single stored message. */
  lemma TakesStarving(c: Config, run: seq<Action>, p: Payload, n: nat) returns (longer: seq<Action>)
    requires n < c.max && Reaches(c, run, Starving(p, n))
    ensures Reaches(c, longer, Starving(p, n).(loop := Sending(Msg(0, p, n)), resends := map[0 := n + 1]))
  {
    var m := Msg(0, p, n);
    longer := AfterExtend(c, run, Retrieve([m]));
    longer := AfterExtend(c, longer, Attempt);
    assert Starving(p, n).resends[0 := n + 1] == map[0 := n + 1];
    assert [m][1..] == [];
  }

  /** And finds no channel for it. */
  lemma ResendFindsNoChannel(c: Config, run: seq<Action>, p: Payload, n: nat) returns (longer: seq<Action>)
    requires c.pooled && n < c.max && Reaches(c, run, Starving(p, n))
    ensures Reaches(c, longer, Starving(p, n).(loop := Bumping(Msg(0, p, n)), resends := map[0 := n + 1], dry := map[p := n + 1]))
  {
    longer := TakesStarving(c, run, p, n);
    longer := AfterExtend(c, longer, ResendWithoutChannel);
    assert Starving(p, n).dry[p := n + 1] == map[p := n + 1];
  }

  lemma PassWithoutChannel(c: Config, run: seq<Action>, p: Payload, n: nat) returns (longer: seq<Action>)
    requires c.pooled && n < c.max && Reaches(c, run, Starving(p, n))
    ensures Reaches(c, longer, Starving(p, n + 1))
  {
    longer := ResendFindsNoChannel(c, run, p, n);
    longer := RaisesStarving(c, longer, p, n);
    longer := AfterExtend(c, longer, EndPass);
  }

  lemma RaisesStarving(c: Config, run: seq<Action>, p: Payload, n: nat) returns (longer: seq<Action>)
    requires Reaches(c, run, Starving(p, n).(loop := Bumping(Msg(0, p, n)), resends := map[0 := n + 1], dry := map[p := n + 1]))
    ensures Reaches(c, longer, Starving(p, n + 1).(loop := Scanning))
  {
    RaisingStarving(c, p, n);
    longer := AfterExtend(c, run, StoreBumped);
  }

  lemma RaisingStarving(c: Config, p: Payload, n: nat)
    ensures var s := Starving(p, n).(loop := Bumping(Msg(0, p, n)), resends := map[0 := n + 1], dry := map[p := n + 1]);
            Enabled(c, s, StoreBumped) && Apply(c, s, StoreBumped) == Starving(p, n + 1).(loop := Scanning)
  {
    assert map[0 := Msg(0, p, n)][0 := Msg(0, p, n + 1)] == map[0 := Msg(0, p, n + 1)];
  }

  lemma {:induction false} StarvingIsReachable(c: Config, p: Payload, n: nat) returns (run: seq<Action>)
    requires c.pooled && n <= c.max
    ensures Reaches(c, run, Starving(p, n))
  {
    if n == 0 {
      run := AfterExtend(c, [], PublishRefused(0, p));
      run := AfterExtend(c, run, StoreCopy(0));
      assert After(c, run).value == Starving(p, 0);
    } else {
      run := StarvingIsReachable(c, p, n - 1);
      run := PassWithoutChannel(c, run, p, n - 1);
    }
  }

  /** For every limit, that many resends without a channel can abandon a stored payload with nothing in its place. */
  lemma PoolFailuresAbandonPayload(c: Config, p: Payload) returns (run: seq<Action>)
    requires c.pooled
    ensures After(c, run).Some? && FreshPublishes(c, run)
    ensures var s := After(c, run).value; p in s.copied && !Served(s, p) && s.store == map[] && Dry(s, p) == c.max
  {
    run := StarvingIsReachable(c, p, c.max);
    run := AfterExtend(c, run, Retrieve([Msg(0, p, c.max)]));
    run := AfterExtend(c, run, Abandon);
  }

  ghost predicate LostAfter(c: Config, run: seq<Action>, p: Payload, dry: nat) {
    After(c, run).Some? && FreshPublishes(c, run) && var s := After(c, run).value;
    p in s.copied && !Served(s, p) && Dry(s, p) == dry
  }

  /** The bound is tight: of up to max resends without a channel, exactly max can lose a stored payload. */
  lemma StarvationLosesIff(c: Config, p: Payload, dry: nat)
    requires c.pooled && dry <= c.max
    ensures (exists run :: LostAfter(c, run, p, dry)) <==> dry == c.max
  {
    if run :| LostAfter(c, run, p, dry) {
      RunKeepsNoLoss(c, run);
      assert Kept(c, After(c, run).value, p);
    }
    if dry == c.max {
      var run := PoolFailuresAbandonPayload(c, p);
      assert LostAfter(c, run, p, dry);
    }
  }

  ghost predicate LosesEarly(c: Config, run: seq<Action>, p: Payload) {
    After(c, run).Some? && FreshPublishes(c, run) && var s := After(c, run).value;
    p in Failed(s) && Dry(s, p) < c.max && !Served(s, p)
  }

  /** A failed publish can lose its payload before resends of it use up the limit exactly with RabbitMQ: the run is one
      publish that gets no channel. */
  lemma LosesEarlyIff(c: Config, p: Payload)
    requires c.max > 0
    ensures (exists run :: LosesEarly(c, run, p)) <==> c.pooled
  {
    if c.pooled {
      var run := AfterExtend(c, [], PublishWithoutChannel(p));
      assert LosesEarly(c, run, p);
    } else {
      forall run ensures !LosesEarly(c, run, p) {
        if After(c, run).Some? && p in Failed(After(c, run).value) {
          KafkaLosesNothing(c, run, p);
        }
      }
    }
  }
}

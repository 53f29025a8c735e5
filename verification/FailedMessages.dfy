/**
 The failed-message outbox run by one thread: the memory store (components/mqs/memory_store.go), Publish
 and one pass of the resend loop of the Kafka manager (components/mqs/kafka.go:366-411, 505-543).
 */
module FailedMessages {
  import opened Sets

  /** uuid.New is a supply of names that were never used before: the naturals from next on. */
  type Id = nat

  /** origin is history: it names the publish that a message stems from. The program has no such field and nothing here
      reads it, but with it two publishes of the same bytes are told apart. */
  datatype Payload = Payload(topic: string, body: seq<bv8>, origin: nat)

  datatype Msg = Msg(id: Id, payload: Payload, retries: nat)

  type View = map<Id, Msg>

  const DEFAULT_RETRIES: nat := 3

  function EffectiveRetries(maxRetries: int): (n: nat)
    ensures n > 0
    ensures if maxRetries > 0 then n == maxRetries else n == 3
  {
    if maxRetries <= 0 then DEFAULT_RETRIES else maxRetries
  }

  // ----- Specification on values -----

  /** A manager's outbox: what the store holds, the next unused name, and what the broker accepted. */
  datatype Box = Box(view: View, next: Id, sent: seq<Payload>)

  ghost predicate Sound(b: Box) {
    forall id :: id in b.view ==> id < b.next && b.view[id].id == id
  }

  function Published(b: Box, p: Payload, accepted: bool): Box {
    if accepted then b.(sent := b.sent + [p])
    else b.(view := b.view[b.next := Msg(b.next, p, 0)], next := b.next + 1)
  }

  /** A failed resend first stores a fresh copy, inside Publish, and then the old message with its count
      raised. */
  function Resent(b: Box, m: Msg, rejects: set<Id>, max: nat): Box {
    if m.retries >= max then b.(view := b.view - {m.id})
    else
      var b' := Published(b, m.payload, m.id !in rejects);
      if m.id in rejects then b'.(view := b'.view[m.id := m.(retries := m.retries + 1)])
      else b'.(view := b'.view - {m.id})
  }

  /** A pass over the stored messages that order names. Each is handled as it was when retrieved. */
  function ResentAll(b: Box, order: seq<Id>, rejects: set<Id>, max: nat): Box
    requires forall id :: id in order ==> id in b.view
  {
    if order == [] then b
    else Resent(ResentAll(b, order[..|order| - 1], rejects, max), b.view[order[|order| - 1]], rejects, max)
  }

  lemma ResentAllStep(b: Box, order: seq<Id>, i: nat, rejects: set<Id>, max: nat)
    requires i < |order| && forall id :: id in order ==> id in b.view
    ensures ResentAll(b, order[..i + 1], rejects, max)
         == Resent(ResentAll(b, order[..i], rejects, max), b.view[order[i]], rejects, max)
  {
    assert order[..i + 1][..i] == order[..i];
  }

  /** order names every message of view once. */
  ghost predicate Lists(order: seq<Id>, view: View) {
    Distinct(order) && forall id :: id in order <==> id in view
  }

  ghost predicate Fails(m: Msg, rejects: set<Id>, max: nat) {
    m.retries < max && m.id in rejects
  }

  ghost function Failing(view: View, order: seq<Id>, rejects: set<Id>, max: nat): seq<Id>
    requires forall id :: id in order ==> id in view
  {
    if order == [] then []
    else
      var rest, id := Failing(view, order[..|order| - 1], rejects, max), order[|order| - 1];
      if Fails(view[id], rejects, max) then rest + [id] else rest
  }

  ghost function Accepted(view: View, order: seq<Id>, rejects: set<Id>, max: nat): seq<Payload>
    requires forall id :: id in order ==> id in view
  {
    if order == [] then []
    else
      var rest, m := Accepted(view, order[..|order| - 1], rejects, max), view[order[|order| - 1]];
      if m.retries < max && m.id !in rejects then rest + [m.payload] else rest
  }

  function Bumped(m: Msg): Msg {
    m.(retries := m.retries + 1)
  }

  /** What a pass over order has made of the messages that were stored before: those in order stay only if
      their resend failed, with the count raised; the others are as they were. */
  ghost predicate OldPart(b: Box, b': Box, order: seq<Id>, rejects: set<Id>, max: nat) {
    forall id :: id in b.view ==>
      if id in order && !Fails(b.view[id], rejects, max) then id !in b'.view
      else id in b'.view && b'.view[id] == if id in order then Bumped(b.view[id]) else b.view[id]
  }

  /** The rest of the store: one fresh copy, with count 0, of every message whose resend failed. */
  ghost predicate NewPart(b: Box, b': Box, failing: seq<Id>)
    requires forall id :: id in failing ==> id in b.view
  {
    && b'.next == b.next + |failing|
    && (forall id :: b.next <= id < b'.next ==>
          id in b'.view && b'.view[id] == Msg(id, b.view[failing[id - b.next]].payload, 0))
    && (forall id :: id in b'.view ==> id in b.view || b.next <= id < b'.next)
  }

  lemma OldPartStep(b: Box, b1: Box, prefix: seq<Id>, id: Id, rejects: set<Id>, max: nat)
    requires Sound(b) && b1.next >= b.next && id !in prefix && id in b.view
    requires OldPart(b, b1, prefix, rejects, max)
    ensures OldPart(b, Resent(b1, b.view[id], rejects, max), prefix + [id], rejects, max)
  {}

  lemma NewPartStep(b: Box, b1: Box, rest: seq<Id>, id: Id, rejects: set<Id>, max: nat)
    requires Sound(b) && id in b.view && (forall i :: i in rest ==> i in b.view)
    requires NewPart(b, b1, rest)
    ensures NewPart(b, Resent(b1, b.view[id], rejects, max), if Fails(b.view[id], rejects, max) then rest + [id] else rest)
  {}

  lemma {:induction false} FailingIsTheFailed(view: View, order: seq<Id>, rejects: set<Id>, max: nat)
    requires Distinct(order) && forall id :: id in order ==> id in view
    ensures var f := Failing(view, order, rejects, max);
            Distinct(f) && forall id :: id in f <==> id in order && Fails(view[id], rejects, max)
  {
    if order != [] {
      var prefix, id := order[..|order| - 1], order[|order| - 1];
      assert order == prefix + [id];
      FailingIsTheFailed(view, prefix, rejects, max);
    }
  }

  /** One pass, however the store listed its messages. */
  lemma {:induction false} PassOutcome(b: Box, order: seq<Id>, rejects: set<Id>, max: nat)
    requires Sound(b) && Distinct(order) && forall id :: id in order ==> id in b.view
    ensures var b', f := ResentAll(b, order, rejects, max), Failing(b.view, order, rejects, max);
            && OldPart(b, b', order, rejects, max)
            && (forall id :: id in f ==> id in b.view) && NewPart(b, b', f)
            && b'.sent == b.sent + Accepted(b.view, order, rejects, max)
  {
    if order != [] {
      var prefix, id := order[..|order| - 1], order[|order| - 1];
      assert order == prefix + [id];
      PassOutcome(b, prefix, rejects, max);
      var b1 := ResentAll(b, prefix, rejects, max);
      OldPartStep(b, b1, prefix, id, rejects, max);
      NewPartStep(b, b1, Failing(b.view, prefix, rejects, max), id, rejects, max);
    }
  }

  // ----- Main results about one pass -----

  /** The store after a pass holds exactly the failed messages with their count raised and, under the names
      from next on, one fresh count-0 copy of each. */
  ghost predicate Doubled(before: View, after: View, next: Id, failing: seq<Id>) {
    && (forall id :: id in failing ==> id in before && id < next && id in after && after[id] == Bumped(before[id]))
    && (forall id :: next <= id < next + |failing| ==>
          id in after && failing[id - next] in before && after[id] == Msg(id, before[failing[id - next]].payload, 0))
    && (forall id :: id in after ==> id < next + |failing| && (id < next ==> id in failing))
  }

  lemma OldAndNewMakeDoubled(b: Box, b': Box, order: seq<Id>, failing: seq<Id>, rejects: set<Id>, max: nat)
    requires Sound(b) && Lists(order, b.view)
    requires forall id :: id in failing <==> id in order && Fails(b.view[id], rejects, max)
    requires OldPart(b, b', order, rejects, max) && NewPart(b, b', failing)
    ensures Doubled(b.view, b'.view, b.next, failing)
  {
    assert forall k :: 0 <= k < |failing| ==> failing[k] in failing;
  }

  /** With n failed resends the store ends with 2n messages, n old and n new. */
  lemma PassDoublesTheFailures(b: Box, order: seq<Id>, rejects: set<Id>, max: nat)
    requires Sound(b) && Lists(order, b.view)
    ensures var b', failing := ResentAll(b, order, rejects, max), Failing(b.view, order, rejects, max);
            && Doubled(b.view, b'.view, b.next, failing)
            && |b'.view| == 2 * |failing|
            && (forall id :: id in failing <==> id in b.view && Fails(b.view[id], rejects, max))
  {
    var b', failing := ResentAll(b, order, rejects, max), Failing(b.view, order, rejects, max);
    PassOutcome(b, order, rejects, max);
    FailingIsTheFailed(b.view, order, rejects, max);
    OldAndNewMakeDoubled(b, b', order, failing, rejects, max);
    DoubledSize(b.view, b'.view, b.next, failing);
  }

  lemma DoubledSize(before: View, after: View, next: Id, failing: seq<Id>)
    requires Doubled(before, after, next, failing) && Distinct(failing)
    ensures |after| == 2 * |failing|
  {
    assert after.Keys == Elements(failing) + Range(next, |failing|);
    assert Elements(failing) !! Range(next, |failing|);
    assert |after| == |after.Keys|;
  }

  /** When every resend is accepted the store ends empty, and every message still under the retry limit has
      reached the broker. */
  lemma AcceptedPassEmptiesStore(b: Box, order: seq<Id>, rejects: set<Id>, max: nat)
    requires Sound(b) && Lists(order, b.view) && rejects !! b.view.Keys
    ensures var b' := ResentAll(b, order, rejects, max);
            b'.view == map[] && forall id :: id in b.view && b.view[id].retries < max ==> b.view[id].payload in b'.sent
  {
    PassDoublesTheFailures(b, order, rejects, max);
    PassOutcome(b, order, rejects, max);
    var failing := Failing(b.view, order, rejects, max);
    assert forall id :: id in failing ==> b.view[id].id == id;
    assert failing == [] by {
      assert forall i :: 0 <= i < |failing| ==> failing[i] in failing;
    }
    forall id | id in b.view && b.view[id].retries < max
      ensures b.view[id].payload in Accepted(b.view, order, rejects, max)
    {
      AcceptedHas(b.view, order, rejects, max, id);
    }
  }

  lemma {:induction false} AcceptedHas(view: View, order: seq<Id>, rejects: set<Id>, max: nat, id: Id)
    requires (forall i :: i in order ==> i in view) && id in order
    requires view[id].retries < max && view[id].id !in rejects
    ensures view[id].payload in Accepted(view, order, rejects, max)
  {
    if id != order[|order| - 1] {
      AcceptedHas(view, order[..|order| - 1], rejects, max, id);
    }
  }

  /** The names of one pass's store, mapped to those of another that made its fresh copies in another order:
      place tells where. */
  ghost function Renaming(view: View, next: Id, place: seq<nat>): map<Id, Id>
    requires forall id :: id in view ==> id < next + |place|
  {
    map id | id in view :: if id < next then id else next + place[id - next]
  }

  ghost predicate Onto(rename: map<Id, Id>, ids: set<Id>) {
    forall id :: id in ids ==> exists x :: x in rename && rename[x] == id
  }

  ghost predicate OneToOne(rename: map<Id, Id>) {
    forall x, y :: x in rename && y in rename && rename[x] == rename[y] ==> x == y
  }

  /** rename maps the store v1 onto the store v2 one to one, changing nothing but names from next on. */
  ghost predicate Renames(rename: map<Id, Id>, v1: View, v2: View, next: Id) {
    rename.Keys == v1.Keys && Onto(rename, v2.Keys) && OneToOne(rename) && KeepsValues(rename, v1, v2, next)
  }

  ghost predicate KeepsValues(rename: map<Id, Id>, v1: View, v2: View, next: Id) {
    forall id :: id in v1 && id in rename ==>
      rename[id] in v2
      && if id < next then rename[id] == id && v2[id] == v1[id]
         else v2[rename[id]] == Msg(rename[id], v1[id].payload, v1[id].retries)
  }

  /** The order in which the store lists its messages matters only for which fresh name goes to which copy. */
  lemma OrderOnlyRenames(b: Box, one: seq<Id>, two: seq<Id>, rejects: set<Id>, max: nat) returns (rename: map<Id, Id>)
    requires Sound(b) && Lists(one, b.view) && Lists(two, b.view)
    ensures Renames(rename, ResentAll(b, one, rejects, max).view, ResentAll(b, two, rejects, max).view, b.next)
  {
    PassDoublesTheFailures(b, one, rejects, max);
    PassDoublesTheFailures(b, two, rejects, max);
    FailingIsTheFailed(b.view, one, rejects, max);
    FailingIsTheFailed(b.view, two, rejects, max);
    rename := RenameDoubled(b.view, ResentAll(b, one, rejects, max).view, ResentAll(b, two, rejects, max).view, b.next,
                            Failing(b.view, one, rejects, max), Failing(b.view, two, rejects, max));
  }

  /** Where each element of f1 stands in f2. */
  ghost function Places(f1: seq<Id>, f2: seq<Id>): (place: seq<nat>)
    requires forall id :: id in f1 ==> id in f2
    ensures |place| == |f1| && forall k :: 0 <= k < |f1| ==> place[k] < |f2| && f2[place[k]] == f1[k]
  {
    if f1 == [] then []
    else
      assert f1[|f1| - 1] in f2;
      var j :| 0 <= j < |f2| && f2[j] == f1[|f1| - 1];
      Places(f1[..|f1| - 1], f2) + [j]
  }

  lemma SameLength(f1: seq<Id>, f2: seq<Id>)
    requires Distinct(f1) && Distinct(f2) && forall id :: id in f1 <==> id in f2
    ensures |f1| == |f2|
  {
    assert Elements(f1) == Elements(f2);
  }

  lemma RenameDoubled(before: View, v1: View, v2: View, next: Id, f1: seq<Id>, f2: seq<Id>) returns (rename: map<Id, Id>)
    requires Doubled(before, v1, next, f1) && Doubled(before, v2, next, f2)
    requires Distinct(f1) && Distinct(f2) && forall id :: id in f1 <==> id in f2
    ensures Renames(rename, v1, v2, next)
  {
    SameLength(f1, f2);
    NamesMatch(before, v1, v2, next, f1, f2);
    var place := Places(f1, f2);
    rename := Renaming(v1, next, place);
    assert OneToOne(rename) by {
      RenamingIsInjective(v1, next, f1, f2, place);
    }
    assert Onto(rename, v2.Keys) by {
      var back := Places(f2, f1);
      PlacesAreInverse(f1, f2, place, back);
      RenamingIsOnto(v1, v2.Keys, next, place, back);
    }
    assert KeepsValues(rename, v1, v2, next) by {
      RenamingKeepsValues(before, v1, v2, next, f1, f2, place);
    }
  }

  lemma NamesMatch(before: View, v1: View, v2: View, next: Id, f1: seq<Id>, f2: seq<Id>)
    requires Doubled(before, v1, next, f1) && Doubled(before, v2, next, f2)
    requires |f1| == |f2| && forall id :: id in f1 <==> id in f2
    ensures forall id :: id in v1 ==> id < next + |f1|
    ensures forall id :: next <= id < next + |f1| ==> id in v1
    ensures forall id :: id in v2.Keys ==> id < next + |f1| && (id < next ==> id in v1)
  {}

  lemma RenamingKeepsValues(before: View, v1: View, v2: View, next: Id, f1: seq<Id>, f2: seq<Id>, place: seq<nat>)
    requires Doubled(before, v1, next, f1) && Doubled(before, v2, next, f2)
    requires |place| == |f1| && forall k :: 0 <= k < |f1| ==> place[k] < |f2| && f2[place[k]] == f1[k]
    requires forall id :: id in f1 ==> id in f2
    ensures KeepsValues(Renaming(v1, next, place), v1, v2, next)
  {
    var rename := Renaming(v1, next, place);
    forall id | id in v1
      ensures rename[id] in v2
              && if id < next then rename[id] == id && v2[id] == v1[id]
                 else v2[rename[id]] == Msg(rename[id], v1[id].payload, v1[id].retries)
    {
      if id < next {
        OldNamesAgree(before, v1, v2, next, f1, f2, id);
      } else {
        NewNamesAgree(before, v1, v2, next, f1, f2, id, place[id - next]);
      }
    }
  }

  lemma OldNamesAgree(before: View, v1: View, v2: View, next: Id, f1: seq<Id>, f2: seq<Id>, id: Id)
    requires Doubled(before, v1, next, f1) && Doubled(before, v2, next, f2)
    requires (id in f1 ==> id in f2) && id in v1 && id < next
    ensures id in v2 && v2[id] == v1[id]
  {}

  lemma NewNamesAgree(before: View, v1: View, v2: View, next: Id, f1: seq<Id>, f2: seq<Id>, id: Id, at: nat)
    requires Doubled(before, v1, next, f1) && Doubled(before, v2, next, f2)
    requires next <= id < next + |f1| && at < |f2| && f2[at] == f1[id - next]
    ensures id in v1 && next + at in v2 && v2[next + at] == Msg(next + at, v1[id].payload, v1[id].retries)
  {
    var renamed := next + at;
    assert v2[renamed] == Msg(renamed, before[f2[at]].payload, 0);
  }

  lemma RenamingIsInjective(view: View, next: Id, f1: seq<Id>, f2: seq<Id>, place: seq<nat>)
    requires Distinct(f1) && |place| == |f1| && forall k :: 0 <= k < |f1| ==> place[k] < |f2| && f2[place[k]] == f1[k]
    requires forall id :: id in view ==> id < next + |place|
    ensures OneToOne(Renaming(view, next, place))
  {
    var rename := Renaming(view, next, place);
    forall x, y | x in rename && y in rename && rename[x] == rename[y] ensures x == y {
      if x >= next && y >= next {
        assert f1[x - next] == f2[place[x - next]] == f1[y - next];
      }
    }
  }

  lemma PlacesAreInverse(f1: seq<Id>, f2: seq<Id>, place: seq<nat>, back: seq<nat>)
    requires Distinct(f2)
    requires |place| == |f1| && forall k :: 0 <= k < |f1| ==> place[k] < |f2| && f2[place[k]] == f1[k]
    requires |back| == |f2| && forall k :: 0 <= k < |f2| ==> back[k] < |f1| && f1[back[k]] == f2[k]
    ensures forall k :: 0 <= k < |back| ==> place[back[k]] == k
  {
    forall k | 0 <= k < |back| ensures place[back[k]] == k {
      assert f2[place[back[k]]] == f1[back[k]] == f2[k];
    }
  }

  lemma RenamingIsOnto(view: View, ids: set<Id>, next: Id, place: seq<nat>, back: seq<nat>)
    requires |back| == |place| && forall k :: 0 <= k < |back| ==> back[k] < |place| && place[back[k]] == k
    requires forall id :: id in view ==> id < next + |place|
    requires forall id :: next <= id < next + |place| ==> id in view
    requires forall id :: id in ids ==> id < next + |place| && (id < next ==> id in view)
    ensures Onto(Renaming(view, next, place), ids)
  {
    var rename := Renaming(view, next, place);
    forall id | id in ids ensures exists x :: x in rename && rename[x] == id {
      var x := if id < next then id else next + back[id - next];
      assert x in rename && rename[x] == id;
    }
  }

  // ----- The memory store -----

  class Message {
    const id: Id
    const payload: Payload
    var retryCount: nat

    constructor (id: Id, payload: Payload)
      ensures this.id == id && this.payload == payload && retryCount == 0
    {
      this.id, this.payload, retryCount := id, payload, 0;
    }

    ghost function Value(): Msg
      reads this
    {
      Msg(id, payload, retryCount)
    }
  }

  class MemoryFailedMessageStore {
    var messages: map<Id, Message>

    ghost predicate Valid()
      reads this
    {
      forall id :: id in messages ==> messages[id].id == id
    }

    ghost function Messages(): View
      reads this, messages.Values
    {
      map id | id in messages :: messages[id].Value()
    }

    constructor ()
      ensures Valid() && messages == map[] && Messages() == map[]
    {
      messages := map[];
    }

    method Store(msg: Message)
      requires Valid()
      modifies this
      ensures Valid() && messages == old(messages)[msg.id := msg]
      ensures Messages() == old(Messages())[msg.id := msg.Value()]
    {
      messages := messages[msg.id := msg];
    }

    /** Lists every stored message once, in an order the map chooses; order holds their names. */
    method Retrieve() returns (list: seq<Message>, ghost order: seq<Id>)
      requires Valid()
      ensures |list| == |messages|
      ensures Lists(order, Messages()) && |list| == |order|
      ensures forall i :: 0 <= i < |list| ==> order[i] in messages && list[i] == messages[order[i]]
    {
      list, order := [], [];
      var left := messages.Keys;
      while left != {}
        invariant left <= messages.Keys && |list| == |order| && Distinct(order) && |list| + |left| == |messages|
        invariant forall i :: 0 <= i < |list| ==> order[i] in messages && list[i] == messages[order[i]]
        invariant forall id :: id in order <==> id in messages && id !in left
        decreases |left|
      {
        var id :| id in left;
        list, order := list + [messages[id]], order + [id];
        left := left - {id};
      }
    }

    method Remove(id: Id)
      requires Valid()
      modifies this
      ensures Valid() && messages == old(messages) - {id}
      ensures Messages() == old(Messages()) - {id}
    {
      messages := messages - {id};
    }

    method Clear()
      modifies this
      ensures Valid() && Messages() == map[]
    {
      messages := map[];
    }
  }

  // ----- The manager -----

  class KafkaManager {
    const failedStore: MemoryFailedMessageStore
    const maxRetries: nat
    var isConnected: bool
    var nextId: Id
    var sent: seq<Payload>

    ghost predicate Valid()
      reads this, failedStore
    {
      failedStore.Valid() && forall id :: id in failedStore.messages ==> id < nextId
    }

    ghost function Outbox(): Box
      reads this, failedStore, failedStore.messages.Values
    {
      Box(failedStore.Messages(), nextId, sent)
    }

    /** The store may hold messages of an earlier manager; unused is where the names not used by them begin. */
    constructor (maxRetries: int, failedStore: MemoryFailedMessageStore, unused: Id)
      requires failedStore.Valid() && forall id :: id in failedStore.messages ==> id < unused
      ensures this.failedStore == failedStore && this.maxRetries == EffectiveRetries(maxRetries)
      ensures Valid() && !isConnected && Outbox() == Box(failedStore.Messages(), unused, [])
    {
      this.failedStore := failedStore;
      this.maxRetries := EffectiveRetries(maxRetries);
      isConnected, nextId, sent := false, unused, [];
    }

    /** accepts is the broker's answer, which is not asked for when the manager is disconnected. */
    method Publish(payload: Payload, accepts: bool) returns (ok: bool)
      requires Valid()
      modifies this`nextId, this`sent, failedStore
      ensures Valid() && ok == (isConnected && accepts)
      ensures Outbox() == Published(old(Outbox()), payload, ok)
      ensures ok ==> failedStore.messages == old(failedStore.messages)
      ensures !ok ==> old(nextId) in failedStore.messages && fresh(failedStore.messages[old(nextId)])
                      && failedStore.messages == old(failedStore.messages)[old(nextId) := failedStore.messages[old(nextId)]]
    {
      if !isConnected || !accepts {
        var failed := new Message(nextId, payload);
        nextId := nextId + 1;
        failedStore.Store(failed);
        return false;
      }
      sent := sent + [payload];
      return true;
    }

    /** The body of the loop for one message of the retrieved list. */
    method Resend(msg: Message, rejects: set<Id>)
      requires Valid() && isConnected
      requires msg.id in failedStore.messages && failedStore.messages[msg.id] == msg
      modifies this`nextId, this`sent, failedStore, msg
      ensures Valid()
      ensures Outbox() == Resent(old(Outbox()), old(msg.Value()), rejects, maxRetries)
      ensures forall id :: id in old(failedStore.messages) && id != msg.id ==>
                id in failedStore.messages && failedStore.messages[id] == old(failedStore.messages)[id]
      ensures forall id :: id in failedStore.messages && id !in old(failedStore.messages) ==> fresh(failedStore.messages[id])
    {
      if msg.retryCount >= maxRetries {
        failedStore.Remove(msg.id);
        return;
      }
      ghost var m := msg.Value();
      var ok := Publish(msg.payload, msg.id !in rejects);
      if ok {
        failedStore.Remove(msg.id);
      } else {
        ghost var view := failedStore.Messages();
        msg.retryCount := msg.retryCount + 1;
        assert failedStore.Messages() == view[m.id := Bumped(m)];
        failedStore.Store(msg);
      }
    }

    /** The loop over the retrieved list. */
    method ResendList(list: seq<Message>, ghost order: seq<Id>, rejects: set<Id>)
      requires Valid() && isConnected && |list| == |order| && Distinct(order)
      requires forall j :: 0 <= j < |list| ==> order[j] in failedStore.messages && failedStore.messages[order[j]] == list[j]
      modifies this`nextId, this`sent, failedStore, failedStore.messages.Values
      ensures Valid() && Outbox() == ResentAll(old(Outbox()), order, rejects, maxRetries)
    {
      ghost var before := Outbox();
      var i := 0;
      while i < |list|
        invariant 0 <= i <= |list|
        invariant Valid() && isConnected
        invariant forall j :: i <= j < |list| ==>
                    order[j] in failedStore.messages && failedStore.messages[order[j]] == list[j] && list[j].Value() == before.view[order[j]]
        invariant forall id :: id in failedStore.messages && id !in old(failedStore.messages) ==> fresh(failedStore.messages[id])
        invariant Outbox() == ResentAll(before, order[..i], rejects, maxRetries)
      {
        assert forall j :: i < j < |list| ==> list[j].id != list[i].id;
        ghost var m, b := list[i].Value(), Outbox();
        Resend(list[i], rejects);
        assert Outbox() == Resent(b, m, rejects, maxRetries);
        ResentAllStep(before, order, i, rejects, maxRetries);
        i := i + 1;
      }
      assert order[..i] == order;
    }

    /** One tick of resendFailedMessages; rejects are the stored messages the broker will refuse. */
    method ResendPass(rejects: set<Id>) returns (ghost order: seq<Id>)
      requires Valid()
      modifies this`nextId, this`sent, failedStore, failedStore.messages.Values
      ensures Valid()
      ensures !isConnected ==> Outbox() == old(Outbox())
      ensures isConnected ==> Lists(order, old(Outbox()).view) && Outbox() == ResentAll(old(Outbox()), order, rejects, maxRetries)
    {
      order := [];
      if !isConnected {
        return;
      }
      var list;
      list, order := failedStore.Retrieve();
      ResendList(list, order, rejects);
    }
  }
}

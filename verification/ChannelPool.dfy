/**
 The AMQP channel pool of the RabbitMQ manager (components/mqs/rabbitmq.go:83-152) and the paths through
 connect and Publish that borrow from it (324-364, 493-554).

 Go's buffered channel is a queue with its own closed flag: sending on it once it is closed panics. The ghost
 account follows every AMQP channel from the moment it is opened.
 */
module ChannelPool {
  import FailedMessages
  import opened Sets
  import opened Wrappers

  /** An AMQP channel, numbered as it was opened. */
  type Channel = nat

  /** idle is the content of the Go channel and queueClosed its state; made counts the channels opened so far; out are those that
      holders have taken and not put back; shut are the closed ones; panicked records a send on the closed Go channel. */
  datatype Pool = Pool(
    idle: seq<Channel>, queueClosed: bool, closed: bool, maxSize: nat,
    made: nat, out: set<Channel>, shut: set<Channel>, panicked: bool)

  function Fresh(maxSize: nat): Pool {
    Pool([], false, false, maxSize, 0, {}, {}, false)
  }

  /** opens tells whether the connection can open a channel when none is idle. */
  function AfterGet(p: Pool, opens: bool): (Pool, Option<Channel>) {
    if p.closed then (p, None)
    else if p.idle != [] then (p.(idle := p.idle[1..], out := p.out + {p.idle[0]}), Some(p.idle[0]))
    else if opens then (p.(made := p.made + 1, out := p.out + {p.made}), Some(p.made))
    else (p, None)
  }

  function AfterPut(p: Pool, ch: Channel): Pool {
    var back := p.(out := p.out - {ch});
    if p.closed then back.(shut := p.shut + {ch})
    else if p.queueClosed then back.(panicked := true)
    else if |p.idle| < p.maxSize then back.(idle := p.idle + [ch])
    else back.(shut := p.shut + {ch})
  }

  function AfterClose(p: Pool): Pool {
    if p.closed then p
    else p.(closed := true, queueClosed := true, idle := [], shut := p.shut + (set ch | ch in p.idle))
  }

  /** Every channel ever opened is in exactly one place: idle, with a holder, or closed. */
  ghost predicate Conserved(p: Pool) {
    && (forall ch: Channel :: ch < p.made <==> ch in p.idle || ch in p.out || ch in p.shut)
    && (forall ch :: ch in p.idle ==> ch !in p.out && ch !in p.shut)
    && p.out !! p.shut
    && (forall i, j :: 0 <= i < j < |p.idle| ==> p.idle[i] != p.idle[j])
  }

  ghost predicate Sane(p: Pool) {
    Conserved(p) && |p.idle| <= p.maxSize && p.queueClosed == p.closed && (p.closed ==> p.idle == []) && !p.panicked
  }

  datatype Action = Get(opens: bool) | Put(ch: Channel) | Close

  function Apply(p: Pool, a: Action): Pool {
    match a
    case Get(opens) => AfterGet(p, opens).0
    case Put(ch) => AfterPut(p, ch)
    case Close => AfterClose(p)
  }

  lemma StepKeepsSane(p: Pool, a: Action)
    requires Sane(p) && (a.Put? ==> a.ch in p.out)
    ensures Sane(Apply(p, a))
  {
    match a
    case Get(opens) => GetKeepsSane(p, opens);
    case Put(ch) => PutKeepsSane(p, ch);
    case Close =>
  }

  lemma GetKeepsSane(p: Pool, opens: bool)
    requires Sane(p)
    ensures Sane(AfterGet(p, opens).0)
  {
    if !p.closed && p.idle != [] {
      var first, rest := p.idle[0], p.idle[1..];
      assert p.idle == [first] + rest;
      assert forall ch :: ch in p.idle <==> ch == first || ch in rest;
      assert forall i :: 0 <= i < |rest| ==> rest[i] == p.idle[i + 1];
      assert first !in rest;
    }
  }

  lemma PutKeepsSane(p: Pool, ch: Channel)
    requires Sane(p) && ch in p.out
    ensures Sane(AfterPut(p, ch))
  {
    var longer := p.idle + [ch];
    assert forall c :: c in longer <==> c in p.idle || c == ch;
  }

  function AfterAll(p: Pool, run: seq<Action>): Pool {
    if run == [] then p else Apply(AfterAll(p, run[..|run| - 1]), run[|run| - 1])
  }

  /** Holders put back only what they hold. */
  ghost predicate PutsOnce(p: Pool, run: seq<Action>) {
    forall i :: 0 <= i < |run| && run[i].Put? ==> run[i].ch in AfterAll(p, run[..i]).out
  }

  /** Conservation over every run: no channel is lost, doubled or leaked, at most maxSize are idle, and nothing is
      ever sent on the closed Go channel, whenever the pool is closed. */
  lemma {:induction false} ChannelsAreConserved(maxSize: nat, run: seq<Action>)
    requires PutsOnce(Fresh(maxSize), run)
    ensures var p := AfterAll(Fresh(maxSize), run);
            Sane(p) && p.made == |p.idle| + |p.out| + |p.shut|
  {
    var start := Fresh(maxSize);
    RunKeepsSane(start, run);
    ConservedCount(AfterAll(start, run));
  }

  lemma {:induction false} RunKeepsSane(p: Pool, run: seq<Action>)
    requires Sane(p) && PutsOnce(p, run)
    ensures Sane(AfterAll(p, run))
  {
    if run != [] {
      var prefix := run[..|run| - 1];
      assert forall i :: 0 <= i < |prefix| ==> prefix[..i] == run[..i];
      RunKeepsSane(p, prefix);
      StepKeepsSane(AfterAll(p, prefix), run[|run| - 1]);
    }
  }

  lemma ConservedCount(p: Pool)
    requires Conserved(p)
    ensures p.made == |p.idle| + |p.out| + |p.shut|
  {
    assert Distinct(p.idle);
    var idle := Elements(p.idle);
    assert idle !! p.out && (idle + p.out) !! p.shut;
    assert Range(0, p.made) == idle + p.out + p.shut;
  }

  /** Once the pool is closed and everything is put back, everything is closed. */
  lemma ClosedPoolEndsShut(p: Pool)
    requires Sane(p) && p.closed && p.out == {}
    ensures |p.shut| == p.made
  {
    ConservedCount(p);
  }

  // ----- How many channels are kept -----

  /** n Gets in a row, on a connection that opens what it is asked for. */
  function Gets(n: nat): seq<Action> {
    if n == 0 then [] else Gets(n - 1) + [Get(true)]
  }

  /** The first n channels given back, in the order in which they were opened. */
  function Puts(n: nat): seq<Action> {
    if n == 0 then [] else Puts(n - 1) + [Put(n - 1)]
  }

  function First(n: nat): seq<Channel> {
    seq(n, i => i)
  }

  lemma {:induction false} GetsOpen(maxSize: nat, n: nat)
    ensures var p := AfterAll(Fresh(maxSize), Gets(n));
            p == Fresh(maxSize).(made := n, out := p.out) && forall ch: Channel :: ch in p.out <==> ch < n
  {
    if n > 0 {
      GetsOpen(maxSize, n - 1);
      assert Gets(n)[..n - 1] == Gets(n - 1) by {
        GetsLength(n - 1);
      }
      GetsLength(n);
    }
  }

  lemma {:induction false} GetsLength(n: nat)
    ensures |Gets(n)| == n
  {
    if n > 0 {
      GetsLength(n - 1);
    }
  }

  lemma AfterOneMore(p: Pool, run: seq<Action>, a: Action)
    ensures AfterAll(p, run + [a]) == Apply(AfterAll(p, run), a)
  {
    assert (run + [a])[..|run|] == run;
  }

  /** Of total channels opened, k have come back: the first maxSize of these are idle, in order, and the others closed. */
  ghost predicate FilledUp(p: Pool, maxSize: nat, total: nat, k: nat) {
    var kept := if k < maxSize then k else maxSize;
    && k <= total && p.idle == First(kept)
    && (forall ch: Channel :: ch in p.shut <==> kept <= ch < k)
    && (forall ch: Channel :: ch in p.out <==> k <= ch < total)
    && p.made == total && !p.closed && !p.queueClosed && p.maxSize == maxSize && !p.panicked
  }

  lemma PutFills(p: Pool, maxSize: nat, total: nat, k: nat)
    requires FilledUp(p, maxSize, total, k) && k < total
    ensures FilledUp(AfterPut(p, k), maxSize, total, k + 1)
  {
    if k < maxSize {
      assert First(k) + [k] == First(k + 1);
    }
  }

  /** What goes back is kept while there is room and closed from then on. */
  lemma {:induction false} PoolFillsUp(maxSize: nat, total: nat, k: nat)
    requires k <= total
    ensures FilledUp(AfterAll(Fresh(maxSize), Gets(total) + Puts(k)), maxSize, total, k)
  {
    if k == 0 {
      GetsOpen(maxSize, total);
      assert Gets(total) + Puts(0) == Gets(total);
      assert First(0) == [];
    } else {
      PoolFillsUp(maxSize, total, k - 1);
      var before := Gets(total) + Puts(k - 1);
      assert Gets(total) + Puts(k) == before + [Put(k - 1)];
      AfterOneMore(Fresh(maxSize), before, Put(k - 1));
      PutFills(AfterAll(Fresh(maxSize), before), maxSize, total, k - 1);
    }
  }

  /** The channel that has been idle longest is handed out first, and none is opened while one is idle. */
  lemma OldestIdleFirst(p: Pool, opens: bool)
    requires !p.closed
    ensures p.idle != [] ==> AfterGet(p, opens).1 == Some(p.idle[0]) && AfterGet(p, opens).0.idle == p.idle[1..] && AfterGet(p, opens).0.made == p.made
    ensures p.idle == [] ==> AfterGet(p, opens).0.made == (if opens then p.made + 1 else p.made) && (AfterGet(p, opens).1.Some? <==> opens)
  {}

  // ----- The pool as an object, and its borrowers -----

  class Channels {
    const maxSize: nat
    var idle: seq<Channel>
    var queueClosed: bool
    var closed: bool
    var made: nat
    ghost var out: set<Channel>
    ghost var shut: set<Channel>

    ghost function Account(): Pool
      reads this
    {
      Pool(idle, queueClosed, closed, maxSize, made, out, shut, false)
    }

    constructor (maxSize: nat)
      ensures this.maxSize == maxSize && Account() == Fresh(maxSize)
    {
      this.maxSize := maxSize;
      idle, queueClosed, closed, made := [], false, false, 0;
      out, shut := {}, {};
    }

    method Get(opens: bool) returns (ch: Option<Channel>)
      requires Sane(Account())
      modifies this
      ensures (Account(), ch) == AfterGet(old(Account()), opens) && Sane(Account())
    {
      StepKeepsSane(Account(), Action.Get(opens));
      if closed {
        return None;
      }
      if idle != [] {
        ch := Some(idle[0]);
        idle := idle[1..];
      } else if opens {
        ch := Some(made);
        made := made + 1;
      } else {
        return None;
      }
      out := out + {ch.value};
    }

    /** A nil channel is ignored. */
    method Put(ch: Option<Channel>)
      requires Sane(Account()) && (ch.Some? ==> ch.value in out)
      modifies this
      ensures Account() == (if ch.Some? then AfterPut(old(Account()), ch.value) else old(Account())) && Sane(Account())
    {
      if ch == None {
        return;
      }
      StepKeepsSane(Account(), Action.Put(ch.value));
      out := out - {ch.value};
      if closed {
        shut := shut + {ch.value};
        return;
      }
      assert !queueClosed;
      if |idle| < maxSize {
        idle := idle + [ch.value];
      } else {
        shut := shut + {ch.value};
      }
    }

    method Close()
      requires Sane(Account())
      modifies this
      ensures Account() == AfterClose(old(Account())) && Sane(Account())
    {
      StepKeepsSane(Account(), Action.Close);
      if closed {
        return;
      }
      closed, queueClosed := true, true;
      ghost var rest := set ch | ch in idle;
      ghost var before := shut;
      while idle != []
        invariant shut + (set ch | ch in idle) == before + rest
        invariant closed && queueClosed && made == old(made) && out == old(out)
        decreases |idle|
      {
        assert idle == [idle[0]] + idle[1..];
        shut := shut + {idle[0]};
        idle := idle[1..];
      }
    }
  }

  datatype MqError = NotConnected | DialFailed | NoChannel | DeclareFailed | SendFailed

  class RabbitMqManager {
    const poolSize: nat
    const hasStore: bool
    var pool: Channels
    var isConnected: bool
    /** The failed-message store and what the broker accepted. */
    var outbox: FailedMessages.Box

    constructor (channelPoolSize: int, hasStore: bool, outbox: FailedMessages.Box)
      ensures this.hasStore == hasStore && this.outbox == outbox
      ensures poolSize == (if channelPoolSize <= 0 then 10 else channelPoolSize) && poolSize > 0
      ensures fresh(pool) && pool.Account() == Fresh(0) && !isConnected
    {
      poolSize := if channelPoolSize <= 0 then 10 else channelPoolSize;
      pool := new Channels(0);
      isConnected, this.hasStore, this.outbox := false, hasStore, outbox;
    }

    /** The setup channel is back in the pool when connect succeeds, and closed when declaring the exchange
        fails: the pool is closed first and the deferred Put then closes what it is given. */
    method Connect(dials: bool, opens: bool, declares: bool) returns (r: Result<(), MqError>)
      modifies this
      ensures r == if !dials then Failure(DialFailed) else if !opens then Failure(NoChannel)
                   else if !declares then Failure(DeclareFailed) else Success(())
      ensures !dials ==> pool == old(pool)
      ensures dials ==> fresh(pool) && Sane(pool.Account()) && pool.out == {}
      ensures r.Success? ==> isConnected && pool.made == 1 && (poolSize > 0 ==> pool.idle == [0])
      ensures r == Failure(DeclareFailed) ==> pool.closed && pool.shut == {0}
      ensures r.Failure? ==> isConnected == old(isConnected)
      ensures outbox == old(outbox)
    {
      if !dials {
        return Failure(DialFailed);
      }
      pool := new Channels(poolSize);
      var setupCh := pool.Get(opens);
      if setupCh == None {
        return Failure(NoChannel);
      }
      if !declares {
        pool.Close();
        r := Failure(DeclareFailed);
      } else {
        isConnected := true;
        r := Success(());
      }
      pool.Put(setupCh);
    }

    method StoreFailed(payload: FailedMessages.Payload)
      modifies this`outbox
      ensures outbox == if hasStore then FailedMessages.Published(old(outbox), payload, false) else old(outbox)
    {
      if hasStore {
        outbox := FailedMessages.Published(outbox, payload, false);
      }
    }

    /** Whatever happens, Publish holds no channel when it returns, and what it borrowed is idle again or closed. It
        stores a copy when disconnected or when the send fails, and none when it gets no channel. closesMeanwhile is
        another goroutine's Close between the borrow and the return. */
    method Publish(payload: FailedMessages.Payload, opens: bool, sends: bool, closesMeanwhile: bool) returns (r: Result<(), MqError>)
      requires Sane(pool.Account())
      modifies this`outbox, pool
      ensures Sane(pool.Account()) && pool.out == old(pool.out)
      ensures old(pool.idle) == [] && opens && isConnected && !old(pool.closed) ==> pool.made == old(pool.made) + 1
      ensures !(old(pool.idle) == [] && opens && isConnected && !old(pool.closed)) ==> pool.made == old(pool.made)
      ensures r == if !isConnected then Failure(NotConnected)
                   else if old(pool.closed) || (old(pool.idle) == [] && !opens) then Failure(NoChannel)
                   else if sends then Success(()) else Failure(SendFailed)
      ensures outbox == if r.Success? then FailedMessages.Published(old(outbox), payload, true)
                        else if hasStore && r != Failure(NoChannel) then FailedMessages.Published(old(outbox), payload, false)
                        else old(outbox)
    {
      if !isConnected {
        StoreFailed(payload);
        return Failure(NotConnected);
      }
      var ch := pool.Get(opens);
      if ch == None {
        return Failure(NoChannel);
      }
      if closesMeanwhile {
        pool.Close();
      }
      if sends {
        outbox := FailedMessages.Published(outbox, payload, true);
        r := Success(());
      } else {
        StoreFailed(payload);
        r := Failure(SendFailed);
      }
      pool.Put(ch);
    }
  }
}

/**
 RedisLimiterLocker (components/limits/limit.go:138-286): a lease taken with SET NX and a time to
 live, given back by a script that deletes the key only if it still holds the caller's value.

 The clock is the server's. A call may find its SET NX answered with an error although the server
 applied it, and its release may be late, repeated or never sent.
 */
module Lease {
  import opened Strings
  import opened Wrappers

  datatype Held = Held(value: string, expires: nat)

  /** What the server keeps. A row whose time has come reads as absent. */
  type Leases = map<string, Held>

  predicate Live(leases: Leases, key: string, now: nat) {
    key in leases && now < leases[key].expires
  }

  function AfterSetNX(leases: Leases, key: string, value: string, ttl: nat, now: nat): Leases {
    if Live(leases, key, now) then leases else leases[key := Held(value, now + ttl)]
  }

  function AfterRelease(leases: Leases, key: string, value: string, now: nat): Leases {
    if Live(leases, key, now) && leases[key].value == value then leases - {key} else leases
  }

  const DEFAULT_TTL: nat := 30_000

  function EffectiveTTL(defaultTTL: int): (ttl: nat)
    ensures ttl > 0
    ensures if defaultTTL > 0 then ttl == defaultTTL else ttl == 30 * 1000
  {
    if defaultTTL <= 0 then DEFAULT_TTL else defaultTTL
  }

  function EffectivePrefix(prefix: string): string {
    if prefix == "" then "lock" else prefix
  }

  // ----- One call against the server, with nobody else moving -----

  class RedisServer {
    var now: nat
    var leases: Leases

    constructor ()
      ensures now == 0 && leases == map[]
    {
      now, leases := 0, map[];
    }

    method SetNX(key: string, value: string, ttl: nat) returns (ok: bool)
      modifies this
      ensures ok == !Live(old(leases), key, now)
      ensures now == old(now) && leases == AfterSetNX(old(leases), key, value, ttl, now)
    {
      ok := !(key in leases && now < leases[key].expires);
      if ok {
        leases := leases[key := Held(value, now + ttl)];
      }
    }

    method CompareAndDelete(key: string, value: string)
      modifies this
      ensures now == old(now) && leases == AfterRelease(old(leases), key, value, now)
    {
      if key in leases && now < leases[key].expires && leases[key].value == value {
        leases := leases - {key};
      }
    }

    method Wait(duration: nat)
      modifies this
      ensures now == old(now) + duration && leases == old(leases)
    {
      now := now + duration;
    }
  }

  datatype LockError = LockBusy | NoAnswer | FnError(code: int)

  class RedisLimiterLocker {
    const rdb: RedisServer
    const defaultTTL: nat
    const prefix: string

    constructor (rdb: RedisServer, defaultTTL: int, prefix: string)
      ensures this.rdb == rdb && this.defaultTTL == EffectiveTTL(defaultTTL) && this.defaultTTL > 0
      ensures this.prefix == if prefix == "" then "lock" else prefix
    {
      this.rdb := rdb;
      this.defaultTTL := EffectiveTTL(defaultTTL);
      this.prefix := EffectivePrefix(prefix);
    }

    /** fn takes fnTime and ends with fnResult. Another lease on the key is left alone and refuses the call. Otherwise
        fn runs, and afterwards nothing live is left under the key, or, when the release was lost, exactly the lease.
        A call that gets no answer does not run fn; it may leave a lease behind all the same. */
    method DoWithTryLock(key: string, value: string, line: Line, releaseLost: bool, fnTime: nat, fnResult: Result<(), LockError>)
      returns (r: Result<(), LockError>)
      modifies rdb
      ensures line.CutBefore? ==> r == Failure(NoAnswer) && rdb.leases == old(rdb.leases) && rdb.now == old(rdb.now)
      ensures line.CutAfter? ==>
                r == Failure(NoAnswer) && rdb.now == old(rdb.now)
                && rdb.leases == AfterSetNX(old(rdb.leases), ColonKey(prefix, key), value, defaultTTL, rdb.now)
      ensures line.Up? ==>
                var full := ColonKey(prefix, key);
                if Live(old(rdb.leases), full, old(rdb.now))
                then r == Failure(LockBusy) && rdb.leases == old(rdb.leases)
                else r == fnResult && rdb.now == old(rdb.now) + fnTime && rdb.leases - {full} == old(rdb.leases) - {full}
                     && (if releaseLost then full in rdb.leases && rdb.leases[full] == Held(value, old(rdb.now) + defaultTTL)
                         else !Live(rdb.leases, full, rdb.now))
    {
      var full := ColonKey(prefix, key);
      if line.CutBefore? {
        return Failure(NoAnswer);
      }
      var success := rdb.SetNX(full, value, defaultTTL);
      if line.CutAfter? {
        return Failure(NoAnswer);
      }
      if !success {
        return Failure(LockBusy);
      }
      rdb.Wait(fnTime);
      if !releaseLost {
        rdb.CompareAndDelete(full, value);
      }
      return fnResult;
    }
  }

  /** What a waiting call finds at one attempt: whether its context is done before it tries or while it
      sleeps afterwards, the connection, and the rows and time the server answers from. */
  datatype Moment = Moment(doneBefore: bool, line: Line, leases: Leases, now: nat, doneAfter: bool)

  datatype WaitResult = Ran | Cancelled | ServerError | StillWaiting

  predicate Undecided(m: Moment, key: string) {
    !m.doneBefore && m.line.Up? && Live(m.leases, key, m.now) && !m.doneAfter
  }

  /** The rows right after an attempt of a call that locks with value. */
  function AfterAttempt(m: Moment, key: string, value: string, ttl: nat): Leases {
    if m.doneBefore || m.line.CutBefore? then m.leases else AfterSetNX(m.leases, key, value, ttl, m.now)
  }

  /** The retry loop of DoWithWaitLock over the attempts it gets to make: fn runs at the first attempt that
      finds the row free, unless an earlier attempt met an error or a cancelled context. taken are the rows right after
      the deciding attempt. When fn ran, the server's rows at its end, atEnd at time endNow, become left by the release,
      even if the call's lease has run out meanwhile. */
  method WaitForLock(key: string, value: string, ttl: nat, attempts: seq<Moment>, atEnd: Leases, endNow: nat)
      returns (r: WaitResult, i: nat, taken: Leases, left: Leases)
    requires ttl > 0
    ensures i <= |attempts| && (forall j :: 0 <= j < i ==> Undecided(attempts[j], key))
    ensures forall j :: 0 <= j < i ==> AfterAttempt(attempts[j], key, value, ttl) == attempts[j].leases
    ensures r == StillWaiting <==> i == |attempts|
    ensures i < |attempts| ==> !Undecided(attempts[i], key) && taken == AfterAttempt(attempts[i], key, value, ttl)
    ensures r == Ran ==>
              && !attempts[i].doneBefore && attempts[i].line.Up? && !Live(attempts[i].leases, key, attempts[i].now)
              && taken == attempts[i].leases[key := Held(value, attempts[i].now + ttl)]
              && left == AfterRelease(atEnd, key, value, endNow)
    ensures r == ServerError ==> !attempts[i].doneBefore && !attempts[i].line.Up?
    ensures r == Cancelled && !attempts[i].doneBefore ==>
              && attempts[i].line.Up? && Live(attempts[i].leases, key, attempts[i].now) && attempts[i].doneAfter
              && taken == attempts[i].leases
  {
    i, taken, left := 0, map[], map[];
    while i < |attempts|
      invariant i <= |attempts|
      invariant forall j :: 0 <= j < i ==> Undecided(attempts[j], key)
    {
      var m := attempts[i];
      taken := m.leases;
      if m.doneBefore {
        return Cancelled, i, taken, left;
      }
      if m.line.CutBefore? {
        return ServerError, i, taken, left;
      }
      var success := !(key in m.leases && m.now < m.leases[key].expires);
      if success {
        taken := taken[key := Held(value, m.now + ttl)];
      }
      if m.line.CutAfter? {
        return ServerError, i, taken, left;
      }
      if success {
        left := atEnd;
        if key in left && endNow < left[key].expires && left[key].value == value {
          left := left - {key};
        }
        return Ran, i, taken, left;
      }
      if m.doneAfter {
        return Cancelled, i, taken, left;
      }
      i := i + 1;
    }
    return StillWaiting, i, taken, left;
  }

  // ----- Any number of calls, interleaved -----

  datatype Stage = Waiting | InFn(since: nat) | Leaving

  /** One call. value is the value it locks with; ttl is that of the locker it was made on; waits tells
      DoWithWaitLock from DoWithTryLock. */
  datatype Call = Call(key: string, value: string, ttl: nat, waits: bool, stage: Stage)

  /** used holds every value any call was ever started with. */
  datatype State = State(now: nat, leases: Leases, calls: map<nat, Call>, used: set<string>)

  const INIT := State(0, map[], map[], {})

  datatype Action =
    | Tick(d: nat)
    | Expire(key: string)
    | Start(c: nat, key: string, value: string, ttl: nat, waits: bool)
    | Acquire(c: nat)
    | Busy(c: nat)
    | LostReply(c: nat, givesUp: bool)
    | GiveUp(c: nat)
    | EndFn(c: nat)
    | Release(c: nat)
    | Return(c: nat)

  ghost predicate At(s: State, c: nat, stage: Stage) {
    c in s.calls && s.calls[c].stage == stage
  }

  ghost predicate Running(s: State, c: nat) {
    c in s.calls && s.calls[c].stage.InFn?
  }

  ghost predicate Enabled(s: State, a: Action) {
    match a
    case Tick(_) => true
    case Expire(key) => key in s.leases && !Live(s.leases, key, s.now)
    case Start(c, key, value, ttl, waits) => c !in s.calls && ttl > 0
    case Acquire(c) => At(s, c, Waiting) && !Live(s.leases, s.calls[c].key, s.now)
    case Busy(c) => At(s, c, Waiting) && Live(s.leases, s.calls[c].key, s.now)
    case LostReply(c, _) => At(s, c, Waiting)
    case GiveUp(c) => At(s, c, Waiting) && s.calls[c].waits
    case EndFn(c) => Running(s, c)
    case Release(c) => At(s, c, Leaving)
    case Return(c) => At(s, c, Leaving)
  }

  ghost function SetNX(s: State, c: nat): Leases
    requires c in s.calls
  {
    var call := s.calls[c];
    AfterSetNX(s.leases, call.key, call.value, call.ttl, s.now)
  }

  /** A busy row sends a try home with ErrLockBusy; a waiting call tries again until its context is done. */
  ghost function Apply(s: State, a: Action): State
    requires Enabled(s, a)
  {
    match a
    case Tick(d) => s.(now := s.now + d)
    case Expire(key) => s.(leases := s.leases - {key})
    case Start(c, key, value, ttl, waits) =>
      s.(calls := s.calls[c := Call(key, value, ttl, waits, Waiting)], used := s.used + {value})
    case Acquire(c) => s.(leases := SetNX(s, c), calls := s.calls[c := s.calls[c].(stage := InFn(s.now))])
    case Busy(c) => if s.calls[c].waits then s else s.(calls := s.calls - {c})
    case LostReply(c, givesUp) => s.(leases := SetNX(s, c), calls := if givesUp then s.calls - {c} else s.calls)
    case GiveUp(c) => s.(calls := s.calls - {c})
    case EndFn(c) => s.(calls := s.calls[c := s.calls[c].(stage := Leaving)])
    case Release(c) => s.(leases := AfterRelease(s.leases, s.calls[c].key, s.calls[c].value, s.now))
    case Return(c) => s.(calls := s.calls - {c})
  }

  ghost function After(run: seq<Action>): Option<State> {
    if run == [] then Some(INIT)
    else
      var before := After(run[..|run| - 1]);
      var a := run[|run| - 1];
      if before.Some? && Enabled(before.value, a) then Some(Apply(before.value, a)) else None
  }

  /** Every call is started with a value that no call had before, as generateLockValue is meant to give. */
  ghost predicate FreshValues(run: seq<Action>) {
    forall i :: 0 <= i < |run| && run[i].Start? && After(run[..i]).Some? ==> run[i].value !in After(run[..i]).value.used
  }

  /** The call is inside fn and its lease has not run out. */
  ghost predicate InTime(s: State, c: nat) {
    Running(s, c) && s.now < s.calls[c].stage.since + s.calls[c].ttl
  }

  // ----- The invariant -----

  ghost predicate Unique(s: State) {
    && (forall c :: c in s.calls ==> s.calls[c].value in s.used)
    && (forall c, d :: c in s.calls && d in s.calls && s.calls[c].value == s.calls[d].value ==> c == d)
  }

  /** A call whose lease has not run out still owns the row, with the expiry it was given. */
  ghost predicate Secured(s: State) {
    forall c :: InTime(s, c) ==>
      s.calls[c].key in s.leases
      && s.leases[s.calls[c].key] == Held(s.calls[c].value, s.calls[c].stage.since + s.calls[c].ttl)
  }

  ghost predicate Inv(s: State) {
    Unique(s) && Secured(s)
  }

  ghost predicate FreshStart(s: State, a: Action) {
    a.Start? ==> a.value !in s.used
  }

  lemma StepKeepsUnique(s: State, a: Action)
    requires Unique(s) && Enabled(s, a) && FreshStart(s, a)
    ensures Unique(Apply(s, a))
  {}

  /** Taking the row is the only way in, and it needs the row to be free. */
  lemma TakingKeepsSecured(s: State, a: Action)
    requires Unique(s) && Secured(s) && Enabled(s, a) && (a.Acquire? || a.LostReply?)
    ensures Secured(Apply(s, a))
  {
    var s' := Apply(s, a);
    forall c | InTime(s', c)
      ensures s'.calls[c].key in s'.leases
              && s'.leases[s'.calls[c].key] == Held(s'.calls[c].value, s'.calls[c].stage.since + s'.calls[c].ttl)
    {
      if !(a.Acquire? && c == a.c) {
        assert InTime(s, c) && s'.calls[c] == s.calls[c];
      }
    }
  }

  lemma ReleaseKeepsSecured(s: State, c: nat)
    requires Unique(s) && Secured(s) && Enabled(s, Release(c))
    ensures Secured(Apply(s, Release(c)))
  {
    var s' := Apply(s, Release(c));
    forall d | InTime(s', d)
      ensures s'.calls[d].key in s'.leases
              && s'.leases[s'.calls[d].key] == Held(s'.calls[d].value, s'.calls[d].stage.since + s'.calls[d].ttl)
    {
      assert InTime(s, d) && s.calls[d].value != s.calls[c].value;
    }
  }

  lemma RestKeepsSecured(s: State, a: Action)
    requires Secured(s) && Enabled(s, a) && !a.Acquire? && !a.LostReply? && !a.Release?
    ensures Secured(Apply(s, a))
  {
    var s' := Apply(s, a);
    forall c | InTime(s', c)
      ensures s'.calls[c].key in s'.leases
              && s'.leases[s'.calls[c].key] == Held(s'.calls[c].value, s'.calls[c].stage.since + s'.calls[c].ttl)
    {
      assert InTime(s, c) && s'.calls[c] == s.calls[c];
    }
  }

  lemma StepKeepsInv(s: State, a: Action)
    requires Inv(s) && Enabled(s, a) && FreshStart(s, a)
    ensures Inv(Apply(s, a))
  {
    StepKeepsUnique(s, a);
    match a
    case Acquire(_) => TakingKeepsSecured(s, a);
    case LostReply(_, _) => TakingKeepsSecured(s, a);
    case Release(c) => ReleaseKeepsSecured(s, c);
    case _ => RestKeepsSecured(s, a);
  }

  lemma {:induction false} RunKeepsInv(run: seq<Action>)
    requires FreshValues(run) && After(run).Some?
    ensures Inv(After(run).value)
  {
    if run != [] {
      var prefix := run[..|run| - 1];
      assert forall i :: 0 <= i < |prefix| ==> prefix[..i] == run[..i];
      RunKeepsInv(prefix);
      StepKeepsInv(After(run[..|run| - 1]).value, run[|run| - 1]);
    }
  }

  // ----- Main results -----

  /** At most one call per key has an unexpired lease, whatever was delayed, repeated or lost, and the
      server still stores that call's value. */
  lemma OneUnexpiredHolder(run: seq<Action>, c: nat, d: nat)
    requires FreshValues(run) && After(run).Some?
    requires var s := After(run).value; InTime(s, c) && InTime(s, d) && s.calls[c].key == s.calls[d].key
    ensures c == d
    ensures var s := After(run).value; Live(s.leases, s.calls[c].key, s.now) && s.leases[s.calls[c].key].value == s.calls[c].value
  {
    RunKeepsInv(run);
  }

  /** Two calls inside fn for one key: all but one have outstayed their lease. If every fn ends within
      its lease, exclusion is therefore unconditional. */
  lemma OverlapMeansOverstay(run: seq<Action>, c: nat, d: nat)
    requires FreshValues(run) && After(run).Some?
    requires var s := After(run).value;
             c != d && Running(s, c) && Running(s, d) && s.calls[c].key == s.calls[d].key
    ensures var s := After(run).value;
            s.now >= s.calls[c].stage.since + s.calls[c].ttl || s.now >= s.calls[d].stage.since + s.calls[d].ttl
  {
    if InTime(After(run).value, c) && InTime(After(run).value, d) {
      OneUnexpiredHolder(run, c, d);
    }
  }

  ghost predicate Prompt(s: State) {
    forall c :: Running(s, c) ==> InTime(s, c)
  }

  lemma PromptCallsExclude(run: seq<Action>, c: nat, d: nat)
    requires FreshValues(run) && After(run).Some? && Prompt(After(run).value)
    requires var s := After(run).value; Running(s, c) && Running(s, d) && s.calls[c].key == s.calls[d].key
    ensures c == d
  {
    OneUnexpiredHolder(run, c, d);
  }

  /** A release, however late, only ever removes a row its own call wrote: every other running call that
      was in time keeps its row. */
  lemma LateReleaseIsHarmless(run: seq<Action>, c: nat, d: nat)
    requires FreshValues(run) && After(run).Some? && Enabled(After(run).value, Release(c)) && InTime(After(run).value, d)
    ensures var s := After(run).value;
            var s' := Apply(s, Release(c));
            s'.leases.Keys >= {s.calls[d].key} && s'.leases[s.calls[d].key] == s.leases[s.calls[d].key]
  {
    RunKeepsInv(run);
    var s := After(run).value;
    assert s.calls[d].value != s.calls[c].value;
  }

  /** Overstaying really breaks exclusion: one slow fn is enough. */
  lemma OverstayAdmitsTwo(key: string, ttl: nat) returns (run: seq<Action>)
    requires ttl > 0
    ensures FreshValues(run) && After(run).Some?
    ensures var s := After(run).value;
            Running(s, 0) && Running(s, 1) && s.calls[0].key == s.calls[1].key == key
  {
    run := Extend([], Start(0, key, "a", ttl, false));
    run := Extend(run, Start(1, key, "b", ttl, false));
    run := Extend(run, Acquire(0));
    run := Extend(run, Tick(ttl));
    run := Extend(run, Acquire(1));
  }

  lemma TwoCallsOneValue(key: string, ttl: nat) returns (run: seq<Action>)
    requires ttl > 0
    ensures After(run).Some?
    ensures var s := After(run).value;
            && s.now == ttl && s.leases == map[key := Held("v", ttl + ttl)] && s.calls.Keys == {0, 1, 2}
            && s.calls[0] == Call(key, "v", ttl, false, InFn(0)) && s.calls[1] == Call(key, "v", ttl, true, InFn(ttl))
            && s.calls[2] == Call(key, "w", ttl, true, Waiting)
  {
    run := Extend([], Start(0, key, "v", ttl, false));
    run := Extend(run, Start(1, key, "v", ttl, true));
    run := Extend(run, Start(2, key, "w", ttl, true));
    run := Extend(run, Acquire(0));
    run := Extend(run, Tick(ttl));
    run := Extend(run, Acquire(1));
  }

  /** Why the values must be unique: when two calls share one, the release of the first, which outstayed its
      lease, deletes the row of the second, and a third call gets in while the second is still in time. */
  lemma SharedValueAdmitsTwo(key: string, ttl: nat) returns (run: seq<Action>)
    requires ttl > 0
    ensures After(run).Some?
    ensures var s := After(run).value;
            InTime(s, 1) && InTime(s, 2) && s.calls[1].key == s.calls[2].key == key
  {
    run := TwoCallsOneValue(key, ttl);
    run := Extend(run, EndFn(0));
    run := Extend(run, Release(0));
    run := Extend(run, Acquire(2));
  }

  lemma Extend(run: seq<Action>, a: Action) returns (longer: seq<Action>)
    requires After(run).Some? && Enabled(After(run).value, a)
    ensures FreshValues(run) && FreshStart(After(run).value, a) ==> FreshValues(longer)
    ensures longer == run + [a] && After(longer) == Some(Apply(After(run).value, a))
  {
    longer := run + [a];
    assert longer[..|run|] == run;
    assert forall i :: 0 <= i < |run| ==> longer[..i] == run[..i];
  }

  /** Who leaves, and when: a call that tries is sent home by a busy row, a call that waits is not, and leaves otherwise
      only when its context is done, when it gives up after an error, or when it is over. */
  lemma CallLeavesIff(s: State, a: Action, c: nat)
    requires Enabled(s, a) && c in s.calls
    ensures c !in Apply(s, a).calls <==>
              || a == Return(c) || a == LostReply(c, true)
              || (a == GiveUp(c) && s.calls[c].waits) || (a == Busy(c) && !s.calls[c].waits)
    ensures a.Busy? ==> Apply(s, a).leases == s.leases && Live(s.leases, s.calls[a.c].key, s.now)
  {}

  /** And who runs fn: exactly the call that finds the row free and takes it, from then until fn ends. */
  lemma CallRunsFnIff(s: State, a: Action, c: nat)
    requires Enabled(s, a) && (a.Start? ==> a.c != c)
    ensures !Running(s, c) ==>
              (Running(Apply(s, a), c) <==> a == Acquire(c))
    ensures Running(s, c) ==> (Running(Apply(s, a), c) <==> a != EndFn(c))
    ensures a == Acquire(c) ==>
              var call := s.calls[c];
              && !Live(s.leases, call.key, s.now) && call.key in Apply(s, a).leases
              && Apply(s, a).leases[call.key] == Held(call.value, s.now + call.ttl)
  {}

  /** Of a call that is at the row, exactly one of taking it and being told that it is busy is possible. */
  lemma FreeOrBusy(s: State, c: nat)
    requires At(s, c, Waiting)
    ensures Enabled(s, Acquire(c)) <==> !Enabled(s, Busy(c))
    ensures Enabled(s, Busy(c)) <==> s.calls[c].key in s.leases && s.now < s.leases[s.calls[c].key].expires
    ensures Enabled(s, GiveUp(c)) <==> s.calls[c].waits
  {}

  /** What each step does to the rows: taking and a lost reply write the caller's value and lifetime if the row is free,
      releasing removes the caller's own live row, expiry a dead one, and nothing else changes any. */
  lemma RowsChangeOnlySo(s: State, a: Action, key: string)
    requires Enabled(s, a)
    ensures var before, after := s.leases, Apply(s, a).leases;
            if (a.Acquire? || a.LostReply?) && s.calls[a.c].key == key && !(key in before && s.now < before[key].expires)
            then key in after && after[key] == Held(s.calls[a.c].value, s.now + s.calls[a.c].ttl)
            else if a.Release? && s.calls[a.c].key == key && key in before && s.now < before[key].expires
                    && before[key].value == s.calls[a.c].value
            then key !in after
            else if a == Expire(key) then key !in after && before[key].expires <= s.now
            else (key in after <==> key in before) && (key in before ==> after[key] == before[key])
  {}

  /** A call is started with what it was asked for, and keeps it; only its stage changes. */
  lemma CallsKeepTheirTerms(s: State, a: Action, c: nat)
    requires Enabled(s, a) && c in Apply(s, a).calls
    ensures a.Start? && a.c == c ==> Apply(s, a).calls[c] == Call(a.key, a.value, a.ttl, a.waits, Waiting)
    ensures !(a.Start? && a.c == c) ==>
              c in s.calls && Apply(s, a).calls[c] == s.calls[c].(stage := Apply(s, a).calls[c].stage)
    ensures a == Acquire(c) ==> Apply(s, a).calls[c].stage == InFn(s.now)
    ensures Apply(s, a).now == s.now + if a.Tick? then a.d else 0
  {}
}

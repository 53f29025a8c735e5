/**
 LocalCache (components/caches/local.go) used by one goroutine: entries with an optional expiry, deleted lazily
 by the operation that finds them expired and in bulk by a periodic cleanup.

 Every reading of the clock an operation makes is a parameter of that operation, so that the two readings of
 GetWithTTL, or the many of a Range, may differ. Module SingleFlight has the concurrent part.
 */
module LocalCache {
  import opened Wrappers

  /** expires is None for the zero time, which never expires. */
  datatype Item<T> = Item(value: T, expires: Option<nat>)

  type Data<T> = map<string, Item<T>>

  predicate Expired<T>(item: Item<T>, now: nat) {
    item.expires.Some? && now > item.expires.value
  }

  predicate Live<T>(data: Data<T>, key: string, now: nat) {
    key in data && !Expired(data[key], now)
  }

  /** A lifetime of zero or less means entries never expire. */
  datatype Config = Config(ttl: int, hasLoader: bool)

  function NewItem<T>(c: Config, value: T, now: nat): Item<T> {
    Item(value, if c.ttl > 0 then Some(now + c.ttl) else None)
  }

  /** loaded is what the loader returns if it is called, None for an error, and stored the time of the Set that
      follows. The operations that range over the map read the clock anew for each key. */
  datatype Op<T> =
    | Get(key: string, at: nat, stored: nat, loaded: Option<T>)
    | Set(key: string, value: T, at: nat)
    | Delete(key: string)
    | Clean
    | Cleanup(when: string -> nat)
    | Exists(key: string, at: nat)
    | GetWithTTL(key: string, at: nat, later: nat)
    | Keys(when: string -> nat)
    | Size(at: nat)

  datatype Answer<T> =
    | Hit(value: T)
    | Loaded(value: T)
    | LoadFailed
    | NotFound
    | Done
    | Found(present: bool)
    | WithTTL(value: T, remaining: nat)
    | KeySet(keys: set<string>)
    | Count(n: nat)

  function Remaining<T>(item: Item<T>, now: nat): nat {
    if item.expires.Some? && item.expires.value > now then item.expires.value - now else 0
  }

  function LiveKeys<T>(data: Data<T>, when: string -> nat): set<string> {
    set k | k in data && !Expired(data[k], when(k))
  }

  /** What an operation does to the cache's map, and what it answers. */
  function LazyStep<T>(c: Config, data: Data<T>, op: Op<T>): (Data<T>, Answer<T>) {
    match op
    case Get(key, at, stored, loaded) =>
      if Live(data, key, at) then (data, Hit(data[key].value))
      else if !c.hasLoader then (data - {key}, NotFound)
      else if loaded == None then (data - {key}, LoadFailed)
      else ((data - {key})[key := NewItem(c, loaded.value, stored)], Loaded(loaded.value))
    case Set(key, value, at) => (data[key := NewItem(c, value, at)], Done)
    case Delete(key) => (data - {key}, Done)
    case Clean => (map[], Done)
    case Cleanup(when) => (data - (data.Keys - LiveKeys(data, when)), Done)
    case Exists(key, at) => if Live(data, key, at) then (data, Found(true)) else (data - {key}, Found(false))
    case GetWithTTL(key, at, later) =>
      if Live(data, key, at) then (data, WithTTL(data[key].value, Remaining(data[key], later)))
      else (data - {key}, NotFound)
    case Keys(when) => (data, KeySet(LiveKeys(data, when)))
    case Size(at) => (data, Count(|data|))
  }

  /** The reference: a map that is never purged, only overwritten and explicitly deleted from, and whose answers
      filter by expiry. */
  function PlainStep<T>(c: Config, plain: Data<T>, op: Op<T>): (Data<T>, Answer<T>) {
    match op
    case Get(key, at, stored, loaded) =>
      if Live(plain, key, at) then (plain, Hit(plain[key].value))
      else if !c.hasLoader then (plain, NotFound)
      else if loaded == None then (plain, LoadFailed)
      else (plain[key := NewItem(c, loaded.value, stored)], Loaded(loaded.value))
    case Set(key, value, at) => (plain[key := NewItem(c, value, at)], Done)
    case Delete(key) => (plain - {key}, Done)
    case Clean => (map[], Done)
    case Cleanup(when) => (plain, Done)
    case Exists(key, at) => (plain, Found(Live(plain, key, at)))
    case GetWithTTL(key, at, later) =>
      if Live(plain, key, at) then (plain, WithTTL(plain[key].value, Remaining(plain[key], later))) else (plain, NotFound)
    case Keys(when) => (plain, KeySet(LiveKeys(plain, when)))
    case Size(at) => (plain, Count(|LiveKeys(plain, (k: string) => at)|))
  }

  /** The cache may count entries that have expired; everything else must be answered alike. */
  ghost predicate Agree<T>(op: Op<T>, lazy: Answer<T>, plain: Answer<T>) {
    if op.Size? then lazy.Count? && plain.Count? && lazy.n >= plain.n else lazy == plain
  }

  /** All the clock readings of op lie between from and until. */
  ghost predicate Timed<T>(op: Op<T>, from: nat, until: nat) {
    from <= until &&
    match op
    case Get(_, at, stored, _) => from <= at <= stored <= until
    case Set(_, _, at) => from <= at <= until
    case Cleanup(when) => forall k :: from <= when(k) <= until
    case Exists(_, at) => from <= at <= until
    case GetWithTTL(_, at, later) => from <= at <= later <= until
    case Keys(when) => forall k :: from <= when(k) <= until
    case Size(at) => from <= at <= until
    case _ => true
  }

  /** The cache holds a part of the plain map, and what it lacks has expired by now. */
  ghost predicate Simulates<T>(data: Data<T>, plain: Data<T>, now: nat) {
    && (forall k :: k in data ==> k in plain && plain[k] == data[k])
    && (forall k :: k in plain && k !in data ==> Expired(plain[k], now))
  }

  lemma LookupsAgree<T>(data: Data<T>, plain: Data<T>, now: nat, key: string, at: nat)
    requires Simulates(data, plain, now) && now <= at
    ensures Live(data, key, at) <==> Live(plain, key, at)
    ensures Live(data, key, at) ==> data[key] == plain[key]
    ensures !Live(plain, key, at) ==> Simulates(data - {key}, plain, at)
  {}

  /** One operation on the cache and on the plain map keeps them in step and gets the same answer. */
  ghost predicate InStep<T>(c: Config, data: Data<T>, plain: Data<T>, op: Op<T>, until: nat) {
    var (data', a), (plain', b) := LazyStep(c, data, op), PlainStep(c, plain, op);
    Simulates(data', plain', until) && Agree(op, a, b)
  }

  lemma GetAgrees<T>(c: Config, data: Data<T>, plain: Data<T>, now: nat, op: Op<T>, until: nat)
    requires Simulates(data, plain, now) && Timed(op, now, until) && op.Get?
    ensures InStep(c, data, plain, op, until)
  {
    LookupsAgree(data, plain, now, op.key, op.at);
  }

  lemma ReadsAgree<T>(c: Config, data: Data<T>, plain: Data<T>, now: nat, op: Op<T>, until: nat)
    requires Simulates(data, plain, now) && Timed(op, now, until) && (op.Exists? || op.GetWithTTL?)
    ensures InStep(c, data, plain, op, until)
  {
    LookupsAgree(data, plain, now, op.key, op.at);
  }

  lemma WritesAgree<T>(c: Config, data: Data<T>, plain: Data<T>, now: nat, op: Op<T>, until: nat)
    requires Simulates(data, plain, now) && Timed(op, now, until) && (op.Set? || op.Delete? || op.Clean? || op.Cleanup?)
    ensures InStep(c, data, plain, op, until)
  {}

  lemma RangesAgree<T>(c: Config, data: Data<T>, plain: Data<T>, now: nat, op: Op<T>, until: nat)
    requires Simulates(data, plain, now) && Timed(op, now, until) && (op.Keys? || op.Size?)
    ensures InStep(c, data, plain, op, until)
  {
    if op.Keys? {
      assert LiveKeys(data, op.when) == LiveKeys(plain, op.when);
    } else {
      SizeCovers(data, plain, now, op.at);
    }
  }

  lemma StepsAgree<T>(c: Config, data: Data<T>, plain: Data<T>, now: nat, op: Op<T>, until: nat)
    requires Simulates(data, plain, now) && Timed(op, now, until)
    ensures InStep(c, data, plain, op, until)
  {
    match op
    case Get(_, _, _, _) => GetAgrees(c, data, plain, now, op, until);
    case Exists(_, _) => ReadsAgree(c, data, plain, now, op, until);
    case GetWithTTL(_, _, _) => ReadsAgree(c, data, plain, now, op, until);
    case Keys(_) => RangesAgree(c, data, plain, now, op, until);
    case Size(_) => RangesAgree(c, data, plain, now, op, until);
    case _ => WritesAgree(c, data, plain, now, op, until);
  }

  lemma SizeCovers<T>(data: Data<T>, plain: Data<T>, now: nat, at: nat)
    requires Simulates(data, plain, now) && now <= at
    ensures |data| >= |LiveKeys(plain, (k: string) => at)|
  {
    var live := LiveKeys(plain, (k: string) => at);
    assert live <= data.Keys;
    SubsetSize(live, data.Keys);
  }

  lemma {:induction false} SubsetSize(a: set<string>, b: set<string>)
    requires a <= b
    ensures |a| <= |b|
  {
    if x :| x in a {
      SubsetSize(a - {x}, b - {x});
    }
  }

  // ----- Whole histories -----

  /** An operation together with the time by which it is over. */
  datatype Event<T> = Event(op: Op<T>, until: nat)

  function End<T>(history: seq<Event<T>>): nat {
    if history == [] then 0 else history[|history| - 1].until
  }

  /** Each operation reads the clock after the one before it was over. */
  ghost predicate Monotone<T>(history: seq<Event<T>>) {
    history == [] ||
    var prefix, last := history[..|history| - 1], history[|history| - 1];
    Monotone(prefix) && Timed(last.op, End(prefix), last.until)
  }

  function LazyRun<T>(c: Config, history: seq<Event<T>>): (Data<T>, seq<Answer<T>>) {
    if history == [] then (map[], [])
    else
      var (data, answers) := LazyRun(c, history[..|history| - 1]);
      var (data', a) := LazyStep(c, data, history[|history| - 1].op);
      (data', answers + [a])
  }

  function PlainRun<T>(c: Config, history: seq<Event<T>>): (Data<T>, seq<Answer<T>>) {
    if history == [] then (map[], [])
    else
      var (plain, answers) := PlainRun(c, history[..|history| - 1]);
      var (plain', a) := PlainStep(c, plain, history[|history| - 1].op);
      (plain', answers + [a])
  }

  /** Lazy deletion and cleanup are invisible: under a clock that does not run backwards every history gets the
      answers of the map that is never purged, and Size counts at least the live keys. */
  lemma {:induction false} PurgingIsInvisible<T>(c: Config, history: seq<Event<T>>)
    requires Monotone(history)
    ensures var (data, lazy), (plain, answers) := LazyRun(c, history), PlainRun(c, history);
            && |lazy| == |answers| == |history|
            && (forall i :: 0 <= i < |history| ==> Agree(history[i].op, lazy[i], answers[i]))
            && Simulates(data, plain, End(history))
  {
    if history != [] {
      var prefix, last := history[..|history| - 1], history[|history| - 1];
      assert forall i :: 0 <= i < |prefix| ==> prefix[i] == history[i];
      PurgingIsInvisible(c, prefix);
      StepsAgree(c, LazyRun(c, prefix).0, PlainRun(c, prefix).0, End(prefix), last.op, last.until);
    }
  }

  // ----- The cache itself -----

  class Cache<T> {
    const config: Config
    var data: Data<T>

    constructor (ttl: int, hasLoader: bool)
      ensures config == Config(ttl, hasLoader) && data == map[]
    {
      config := Config(ttl, hasLoader);
      data := map[];
    }

    /** The re-check inside the flight finds nothing here: with one goroutine the key is still absent. */
    method GetKey(key: string, at: nat, stored: nat, loaded: Option<T>) returns (answer: Answer<T>)
      modifies this
      ensures (data, answer) == LazyStep(config, old(data), Get(key, at, stored, loaded))
    {
      if key in data {
        if !Expired(data[key], at) {
          return Hit(data[key].value);
        }
        data := data - {key};
      }
      assert data == old(data) - {key};
      if !config.hasLoader {
        return NotFound;
      }
      match loaded
      case None => return LoadFailed;
      case Some(value) =>
        SetKey(key, value, stored);
        return Loaded(value);
    }

    method SetKey(key: string, value: T, at: nat)
      modifies this
      ensures data == LazyStep(config, old(data), Set(key, value, at)).0
    {
      var expires := None;
      if config.ttl > 0 {
        expires := Some(at + config.ttl);
      }
      data := data[key := Item(value, expires)];
    }

    method DeleteKey(key: string)
      modifies this
      ensures data == LazyStep(config, old(data), Delete(key)).0
    {
      data := data - {key};
    }

    /** Range over the keys, deleting each. */
    method CleanAll()
      modifies this
      ensures data == LazyStep(config, old(data), Clean).0
    {
      var left := data.Keys;
      while left != {}
        invariant left == data.Keys
        decreases |left|
      {
        var k :| k in left;
        data := data - {k};
        left := left - {k};
      }
    }

    /** Range over the keys, deleting those found expired. */
    method CleanupExpired(when: string -> nat)
      modifies this
      ensures data == LazyStep(config, old(data), Cleanup(when)).0
    {
      var left := data.Keys;
      while left != {}
        invariant left <= data.Keys
        invariant forall k :: k in left ==> k in data
        invariant data == old(data) - ((old(data).Keys - left) - LiveKeys(old(data), when))
        decreases |left|
      {
        var k :| k in left;
        if Expired(data[k], when(k)) {
          data := data - {k};
        }
        left := left - {k};
      }
    }

    method ExistsKey(key: string, at: nat) returns (answer: Answer<T>)
      modifies this
      ensures (data, answer) == LazyStep(config, old(data), Exists(key, at))
    {
      if key in data {
        if !Expired(data[key], at) {
          return Found(true);
        }
        data := data - {key};
      }
      assert data == old(data) - {key};
      return Found(false);
    }

    method GetKeyWithTTL(key: string, at: nat, later: nat) returns (answer: Answer<T>)
      modifies this
      ensures (data, answer) == LazyStep(config, old(data), GetWithTTL(key, at, later))
    {
      if key in data {
        var item := data[key];
        if !Expired(item, at) {
          var remaining := 0;
          match item.expires {
            case None =>
            case Some(e) =>
              remaining := e - later;
              if remaining < 0 {
                remaining := 0;
              }
          }
          return WithTTL(item.value, remaining);
        }
        data := data - {key};
      }
      assert data == old(data) - {key};
      return NotFound;
    }

    /** Keys lists each live key once. */
    method ListKeys(when: string -> nat) returns (keys: seq<string>)
      ensures KeySet(set k | k in keys) == LazyStep(config, data, Keys(when)).1
      ensures forall i, j :: 0 <= i < j < |keys| ==> keys[i] != keys[j]
    {
      keys := [];
      var left := data.Keys;
      while left != {}
        invariant left <= data.Keys
        invariant forall k :: k in keys <==> k in data && k !in left && !Expired(data[k], when(k))
        invariant forall i, j :: 0 <= i < j < |keys| ==> keys[i] != keys[j]
        decreases |left|
      {
        var k :| k in left;
        if !Expired(data[k], when(k)) {
          keys := keys + [k];
        }
        left := left - {k};
      }
      assert (set k | k in keys) == LiveKeys(data, when);
    }

    method CountAll() returns (count: nat)
      ensures Count(count) == LazyStep(config, data, Size(0)).1
    {
      count := 0;
      var left := data.Keys;
      while left != {}
        invariant count + |left| == |data.Keys|
        decreases |left|
      {
        var k :| k in left;
        left := left - {k};
        count := count + 1;
      }
    }
  }
}

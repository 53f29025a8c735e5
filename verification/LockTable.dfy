/**
 The reference-counted table of mutexes behind UniLimiterLocker (components/limits/limit.go).
 AfterGet and AfterRelease say what getMutex and releaseMutex do to the table; the class below
 performs them on objects, and module KeyedLocks interleaves them between callers.
 */
module LockTable {
  import opened Wrappers

  /** One row of muMap. The count is an int32, so it wraps. */
  datatype Entry<M> = Entry(mu: M, refs: int)

  type Table<M> = map<string, Entry<M>>

  const INT32_SPAN := 0x1_0000_0000
  const INT32_TOP := 0x8000_0000

  /** The int32 that Go stores for the mathematical integer n. */
  function Wrap32(n: int): (r: int)
    ensures -INT32_TOP <= r < INT32_TOP
    ensures -INT32_TOP <= n < INT32_TOP ==> r == n
  {
    (n + INT32_TOP) % INT32_SPAN - INT32_TOP
  }

  /** Wrapping after every addition is the same as wrapping once at the end. */
  lemma Wrap32Absorbs(n: int, d: int)
    ensures Wrap32(Wrap32(n) + d) == Wrap32(n + d)
  {
    var q := (n + INT32_TOP) / INT32_SPAN;
    assert Wrap32(n) == n - q * INT32_SPAN;
    ModShift(n + d + INT32_TOP, -q);
  }

  lemma ModShift(x: int, q: int)
    ensures (x + q * INT32_SPAN) % INT32_SPAN == x % INT32_SPAN
  {
    var y := x + q * INT32_SPAN;
    assert y == (x / INT32_SPAN + q) * INT32_SPAN + x % INT32_SPAN;
  }

  function AfterGet<M>(table: Table<M>, key: string, newMutex: M): Table<M> {
    if key in table
    then table[key := table[key].(refs := Wrap32(table[key].refs + 1))]
    else table[key := Entry(newMutex, 1)]
  }

  function AfterRelease<M>(table: Table<M>, key: string): Table<M> {
    if key !in table then table
    else
      var refs := Wrap32(table[key].refs - 1);
      if refs <= 0 then table - {key} else table[key := table[key].(refs := refs)]
  }

  /** The table after a call that nobody interleaves with: a row whose count has wrapped to zero or below goes. */
  function Settled<M>(table: Table<M>, key: string): Table<M> {
    if key in table && table[key].refs <= 0 then table - {key} else table
  }

  /** Releasing undoes getting, also across the int32 boundary, exactly if the key has no row or one whose count is
      positive. */
  lemma ReleaseUndoesGetIff<M>(table: Table<M>, key: string, newMutex: M)
    requires key in table ==> -INT32_TOP <= table[key].refs < INT32_TOP
    ensures AfterRelease(AfterGet(table, key, newMutex), key) == table <==> (key in table ==> table[key].refs > 0)
    ensures AfterRelease(AfterGet(table, key, newMutex), key) == Settled(table, key)
  {
    if key in table {
      Wrap32Absorbs(table[key].refs + 1, -1);
      if table[key].refs <= 0 {
        assert key in table && key !in table - {key};
      }
    }
  }

  datatype LockError = LockBusy | FnError(code: int)

  class Mutex {
    var locked: bool

    constructor ()
      ensures !locked
    {
      locked := false;
    }

    method TryLock() returns (ok: bool)
      modifies this
      ensures ok == !old(locked) && locked
    {
      ok := !locked;
      locked := true;
    }

    method Unlock()
      requires locked
      modifies this
      ensures !locked
    {
      locked := false;
    }

    /** What a call does with the mutex: run fn under it, or find it taken. */
    method TryRun(fnResult: Result<(), LockError>) returns (r: Result<(), LockError>, ran: bool)
      modifies this
      ensures locked == old(locked) && ran == !locked && r == if ran then fnResult else Failure(LockBusy)
    {
      ran := TryLock();
      if !ran {
        return Failure(LockBusy), false;
      }
      Unlock();
      return fnResult, true;
    }
  }

  class MutexRef {
    const mu: Mutex
    var refCount: int

    constructor (mu: Mutex)
      ensures this.mu == mu && refCount == 1
    {
      this.mu := mu;
      refCount := 1;
    }
  }

  class UniLimiterLocker {
    var muMap: map<string, MutexRef>

    /** No two rows share a MutexRef or a mutex. */
    ghost predicate Distinct()
      reads this
    {
      forall k, l :: k in muMap && l in muMap && k != l ==> muMap[k] != muMap[l] && muMap[k].mu != muMap[l].mu
    }

    /** Rows are not shared, and every stored count is an int32. */
    ghost predicate Valid()
      reads this, muMap.Values
    {
      Distinct() && forall k :: k in muMap ==> -INT32_TOP <= muMap[k].refCount < INT32_TOP
    }

    ghost function Rows(): Table<Mutex>
      reads this, muMap.Values
    {
      map k | k in muMap :: Entry(muMap[k].mu, muMap[k].refCount)
    }

    constructor ()
      ensures Valid() && Rows() == map[]
    {
      muMap := map[];
    }

    method GetMutex(key: string) returns (mu: Mutex, existed: bool)
      requires Valid()
      modifies this, muMap.Values
      ensures Valid()
      ensures existed == (key in old(muMap))
      ensures existed ==> mu == old(muMap[key].mu) && muMap == old(muMap)
      ensures !existed ==> fresh(mu) && !mu.locked && key in muMap && fresh(muMap[key]) && muMap == old(muMap)[key := muMap[key]]
      ensures Rows() == AfterGet(old(Rows()), key, mu)
    {
      if key in muMap {
        var ref := muMap[key];
        ref.refCount := Wrap32(ref.refCount + 1);
        return ref.mu, true;
      }
      var mutex := new Mutex();
      var ref := new MutexRef(mutex);
      muMap := muMap[key := ref];
      return mutex, false;
    }

    method ReleaseMutex(key: string)
      requires Valid()
      modifies this, muMap.Values
      ensures Valid()
      ensures Rows() == AfterRelease(old(Rows()), key)
      ensures muMap == (if key in Rows() then old(muMap) else old(muMap) - {key})
    {
      if key in muMap {
        var ref := muMap[key];
        ref.refCount := Wrap32(ref.refCount - 1);
        if ref.refCount <= 0 {
          muMap := muMap - {key};
        }
      }
    }

    /** One whole call while nobody else moves: fn runs exactly when the key's mutex is free, the mutexes end as they
        began, and so does the table, unless the key's count had wrapped: then its row goes. The outcome of fn is a
        parameter. */
    method DoWithTryLock(key: string, fnResult: Result<(), LockError>) returns (r: Result<(), LockError>, ran: bool)
      requires Valid()
      modifies this, muMap.Values, set ref <- muMap.Values :: ref.mu
      ensures Valid()
      ensures ran == !(key in old(muMap) && old(muMap[key].mu.locked))
      ensures r == if ran then fnResult else Failure(LockBusy)
      ensures Rows() == Settled(old(Rows()), key)
      ensures forall k :: k in old(muMap) ==> old(muMap[k]).mu.locked == old(muMap[k].mu.locked)
    {
      ghost var before := Rows();
      var mu, existed := GetMutex(key);
      ghost var during := Rows();
      assert AfterRelease(during, key) == Settled(before, key) by {
        ReleaseUndoesGetIff(before, key, mu);
      }
      r, ran := mu.TryRun(fnResult);
      assert Rows() == during;
      ReleaseMutex(key);
    }
  }
}

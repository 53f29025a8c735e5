/**
 The nine-slot ring of signing keys (components/auths/jwt.go:24-107, 186-276): the manager rotates it, replicas follow
 through UpdateKey, and a signature names the slot it was made with.
 */
module KeyRing {
  import opened SigningString
  import opened Wrappers

  type Key = seq<bv8>

  const SLOTS: nat := 9

  /** An empty slot is a nil key. */
  type Chain = s: seq<Option<Key>> | |s| == 9 witness [None, None, None, None, None, None, None, None, None]

  const EMPTY: Chain := [None, None, None, None, None, None, None, None, None]

  datatype Ring = Ring(current: nat, chain: Chain)

  function Rotated(r: Ring, key: Key): Ring {
    var next := (r.current + 1) % SLOTS;
    Ring(next, r.chain[next := Some(key)])
  }

  function FirstRing(key: Key): Ring {
    Ring(0, EMPTY[0 := Some(key)])
  }

  /** The ring after issuing the keys of history in turn. */
  function RingAfter(history: seq<Key>): Ring
    requires history != []
  {
    if |history| == 1 then FirstRing(history[0])
    else Rotated(RingAfter(history[..|history| - 1]), history[|history| - 1])
  }

  /** The j-th key issued sits in slot j modulo 9 as long as it is among the last nine, and slots not yet reached
      are empty. */
  ghost predicate HoldsLatest(r: Ring, history: seq<Key>) {
    && history != []
    && r.current == (|history| - 1) % SLOTS
    && (forall j: nat :: |history| - SLOTS <= j < |history| ==> r.chain[j % SLOTS] == Some(history[j]))
    && (forall s: nat :: |history| <= s < SLOTS ==> r.chain[s] == None)
  }

  lemma SlotsDiffer(j: nat, n: nat)
    requires n - SLOTS < j < n
    ensures j % SLOTS != n % SLOTS
  {}

  lemma NextSlot(n: nat)
    requires n > 0
    ensures ((n - 1) % SLOTS + 1) % SLOTS == n % SLOTS
  {}

  lemma RotationHoldsLatest(r: Ring, history: seq<Key>, key: Key)
    requires HoldsLatest(r, history)
    ensures HoldsLatest(Rotated(r, key), history + [key])
  {
    var n := |history|;
    NextSlot(n);
    forall j: nat | n + 1 - SLOTS <= j < n
      ensures j % SLOTS != n % SLOTS
    {
      SlotsDiffer(j, n);
    }
  }

  lemma {:induction false} RingHoldsLatest(history: seq<Key>)
    requires history != []
    ensures HoldsLatest(RingAfter(history), history)
  {
    if |history| > 1 {
      var prefix := history[..|history| - 1];
      RingHoldsLatest(prefix);
      RotationHoldsLatest(RingAfter(prefix), prefix, history[|history| - 1]);
      assert prefix + [history[|history| - 1]] == history;
    }
  }

  /** After any number of rotations the ring holds exactly the most recent keys, at most nine: what is in a slot is
      one of them, and each of them is in a slot. */
  lemma RingIsTheRecentKeys(history: seq<Key>, key: Key)
    requires history != []
    ensures Some(key) in RingAfter(history).chain
            <==> exists j: nat :: |history| - SLOTS <= j < |history| && history[j] == key
  {
    RingHoldsLatest(history);
    var r, n := RingAfter(history), |history|;
    if Some(key) in r.chain {
      var s: nat :| s < SLOTS && r.chain[s] == Some(key);
      var j := IssuedAt(s, n);
      assert r.chain[j % SLOTS] == Some(history[j]);
    }
    if j: nat :| n - SLOTS <= j < n && history[j] == key {
      assert r.chain[j % SLOTS] == Some(key);
    }
  }

  /** The latest of the first n issues that went to slot s. */
  lemma IssuedAt(s: nat, n: nat) returns (j: nat)
    requires s < SLOTS && s < n
    ensures n - SLOTS <= j < n && j % SLOTS == s
  {
    j := n - 1 - (n - 1 - s) % SLOTS;
  }

  // ----- Restart -----

  /** What Start makes of the persisted keys and index: at most nine keys, in slot order. None is the refusal of an
      index past the ring. */
  function Restarted(keys: seq<Key>, index: nat): Option<Ring> {
    if index >= SLOTS then None
    else Some(Ring(index, seq(SLOTS, s requires 0 <= s < SLOTS => if s < |keys| then Some(keys[s]) else None)))
  }

  /** The keys of a ring that was filled from slot 0 on, in slot order: what should be persisted. */
  function Persisted(chain: Chain, n: nat): seq<Key>
    requires n <= SLOTS && forall s :: 0 <= s < n ==> chain[s].Some?
  {
    seq(n, s requires 0 <= s < n => chain[s].value)
  }

  /** A restart from the persisted slots gives the ring back, after any number of rotations. */
  lemma RestartRestores(history: seq<Key>)
    requires history != []
    ensures var r, n := RingAfter(history), if |history| < SLOTS then |history| else SLOTS;
            && (forall s :: 0 <= s < n ==> r.chain[s].Some?)
            && Restarted(Persisted(r.chain, n), r.current) == Some(r)
  {
    RingHoldsLatest(history);
    var r, n := RingAfter(history), if |history| < SLOTS then |history| else SLOTS;
    forall s: nat | s < n ensures r.chain[s].Some? {
      var j := IssuedAt(s, |history|);
      assert r.chain[j % SLOTS] == Some(history[j]);
    }
    assert Restarted(Persisted(r.chain, n), r.current).value.chain == r.chain;
  }

  /** The keys that are still in the ring, oldest first. */
  function Recent(history: seq<Key>): seq<Key> {
    if |history| <= SLOTS then history else history[|history| - SLOTS..]
  }

  ghost predicate AllDiffer(keys: seq<Key>) {
    forall i, j :: 0 <= i < j < |keys| ==> keys[i] != keys[j]
  }

  lemma KeyAt(r: Ring, history: seq<Key>, j: nat)
    requires HoldsLatest(r, history) && |history| - SLOTS <= j < |history|
    ensures r.chain[j % SLOTS] == Some(history[j])
  {}

  /** The s-th oldest key of a full ring sits s slots on from where the next key goes. */
  lemma RecentSits(r: Ring, history: seq<Key>, s: nat)
    requires HoldsLatest(r, history) && |history| >= SLOTS && s < SLOTS
    ensures r.chain[(|history| % SLOTS + s) % SLOTS] == Some(Recent(history)[s])
  {
    KeyAt(r, history, |history| - SLOTS + s);
    Around(r.chain, history, s);
  }

  lemma Around(chain: Chain, history: seq<Key>, s: nat)
    requires |history| >= SLOTS && s < SLOTS
    requires chain[(|history| - SLOTS + s) % SLOTS] == Some(history[|history| - SLOTS + s])
    ensures chain[(|history| % SLOTS + s) % SLOTS] == Some(Recent(history)[s])
  {
    AroundTheRing(|history|, s);
    if |history| > SLOTS {
      assert Recent(history)[s] == history[|history| - SLOTS + s];
    }
  }

  lemma AroundTheRing(n: nat, s: nat)
    requires n >= SLOTS
    ensures (n - SLOTS + s) % SLOTS == (n % SLOTS + s) % SLOTS
  {}

  /** A full ring in which the keys start at slot t is what a restart makes of them exactly when t is 0. */
  lemma FullRestartIff(r: Ring, recent: seq<Key>, t: nat)
    requires r.current < SLOTS && t < SLOTS && |recent| == SLOTS && AllDiffer(recent)
    requires forall s: nat :: s < SLOTS ==> r.chain[(t + s) % SLOTS] == Some(recent[s])
    ensures Restarted(recent, r.current) == Some(r) <==> t == 0
  {
    var restarted := Restarted(recent, r.current).value;
    if t == 0 {
      forall s: nat | s < SLOTS ensures r.chain[s] == Some(recent[s]) {
        assert (t + s) % SLOTS == s;
      }
      assert restarted.chain == r.chain;
    } else {
      assert r.chain[(t + 0) % SLOTS] == Some(recent[0]);
      assert restarted.chain[t] == Some(recent[t]);
    }
  }

  /** When the keys come back oldest first instead, as a list sorted by time would, the restart restores the ring exactly
      if it has not wrapped or has just completed a turn. */
  lemma RestartFromOldestIff(history: seq<Key>)
    requires history != []
    requires AllDiffer(Recent(history))
    ensures Restarted(Recent(history), RingAfter(history).current) == Some(RingAfter(history))
            <==> |history| <= SLOTS || |history| % SLOTS == 0
  {
    RingHoldsLatest(history);
    RestartIff(RingAfter(history), history);
  }

  lemma RestartIff(r: Ring, history: seq<Key>)
    requires HoldsLatest(r, history) && AllDiffer(Recent(history))
    ensures Restarted(Recent(history), r.current) == Some(r) <==> |history| <= SLOTS || |history| % SLOTS == 0
  {
    if |history| < SLOTS {
      PartialRestart(r, history);
    } else {
      var recent, t := Recent(history), |history| % SLOTS;
      forall s: nat | s < SLOTS ensures r.chain[(t + s) % SLOTS] == Some(recent[s]) {
        RecentSits(r, history, s);
      }
      FullRestartIff(r, recent, t);
    }
  }

  lemma PartialRestart(r: Ring, history: seq<Key>)
    requires HoldsLatest(r, history) && |history| < SLOTS
    ensures Restarted(Recent(history), r.current) == Some(r)
  {
    var restarted := Restarted(history, r.current).value;
    forall s: nat | s < SLOTS ensures restarted.chain[s] == r.chain[s] {
      assert s < |history| ==> r.chain[s % SLOTS] == Some(history[s]);
    }
    assert restarted.chain == r.chain;
  }

  lemma SameSlot(j: nat)
    ensures (j + SLOTS) % SLOTS == j % SLOTS
  {}

  // ----- Replicas -----

  datatype Update = Update(slot: nat, key: Key)

  function Updated(chain: Chain, u: Update): Chain {
    if u.slot < SLOTS then chain[u.slot := Some(u.key)] else chain
  }

  function AllUpdated(chain: Chain, updates: seq<Update>): Chain {
    if updates == [] then chain else Updated(AllUpdated(chain, updates[..|updates| - 1]), updates[|updates| - 1])
  }

  ghost predicate DistinctSlots(updates: seq<Update>) {
    forall i, j :: 0 <= i < j < |updates| ==> updates[i].slot != updates[j].slot
  }

  /** The notifications the manager sends for the keys it issues from ring r on. */
  function Notices(r: Ring, keys: seq<Key>): seq<Update> {
    seq(|keys|, i requires 0 <= i < |keys| => Update((r.current + 1 + i) % SLOTS, keys[i]))
  }

  function AllRotated(r: Ring, keys: seq<Key>): Ring {
    if keys == [] then r else Rotated(AllRotated(r, keys[..|keys| - 1]), keys[|keys| - 1])
  }

  lemma CurrentAfter(c: nat, n: nat)
    ensures ((c + n) % SLOTS + 1) % SLOTS == (c + 1 + n) % SLOTS
  {}

  /** A replica that gets every notice in order has the manager's chain. */
  lemma {:induction false} NoticesFollowManager(r: Ring, keys: seq<Key>)
    ensures AllUpdated(r.chain, Notices(r, keys)) == AllRotated(r, keys).chain
    ensures keys != [] ==> AllRotated(r, keys).current == (r.current + |keys|) % SLOTS
  {
    if keys != [] {
      var prefix := keys[..|keys| - 1];
      NoticesFollowManager(r, prefix);
      assert Notices(r, keys)[..|keys| - 1] == Notices(r, prefix);
      CurrentAfter(r.current, |prefix|);
    }
  }

  lemma NoticesHaveDistinctSlots(r: Ring, keys: seq<Key>)
    requires |keys| <= SLOTS
    ensures DistinctSlots(Notices(r, keys))
  {
    var sent := Notices(r, keys);
    forall i, j | 0 <= i < j < |sent| ensures sent[i].slot != sent[j].slot {
      SlotsDiffer(r.current + 1 + i, r.current + 1 + j);
    }
  }

  /** Two of the updates put different keys into one slot. */
  ghost predicate Conflict(updates: seq<Update>) {
    exists i, j :: 0 <= i < j < |updates| && updates[i].slot == updates[j].slot && updates[i].key != updates[j].key
  }

  /** Without a conflict, each slot ends with the key of any update for it, in whatever order they come. */
  lemma {:induction false} UpdatesAgree(chain: Chain, updates: seq<Update>, u: Update)
    requires u in updates && u.slot < SLOTS && forall v :: v in updates && v.slot == u.slot ==> v.key == u.key
    ensures AllUpdated(chain, updates)[u.slot] == Some(u.key)
  {
    var prefix, last := updates[..|updates| - 1], updates[|updates| - 1];
    assert updates == prefix + [last];
    if last.slot != u.slot {
      UpdatesAgree(chain, prefix, u);
    }
  }

  lemma NoConflictMeans(updates: seq<Update>)
    requires !Conflict(updates)
    ensures forall u, v :: u in updates && v in updates && u.slot == v.slot ==> u.key == v.key
  {
    forall u, v | u in updates && v in updates && u.slot == v.slot ensures u.key == v.key {
      var i :| 0 <= i < |updates| && updates[i] == u;
      var j :| 0 <= j < |updates| && updates[j] == v;
    }
  }

  lemma SameElements(a: seq<Update>, b: seq<Update>)
    requires multiset(a) == multiset(b)
    ensures forall u :: u in a <==> u in b
  {
    forall u ensures u in a <==> u in b {
      assert u in a <==> u in multiset(a);
      assert u in b <==> u in multiset(b);
    }
  }

  /** Any other order of updates without a conflict leads to the same chain. */
  lemma OrderDoesNotMatter(chain: Chain, sent: seq<Update>, received: seq<Update>)
    requires !Conflict(sent) && multiset(received) == multiset(sent)
    ensures AllUpdated(chain, received) == AllUpdated(chain, sent)
  {
    NoConflictMeans(sent);
    SameElements(received, sent);
    forall s: nat | s < SLOTS ensures AllUpdated(chain, received)[s] == AllUpdated(chain, sent)[s] {
      if u :| u in sent && u.slot == s {
        UpdatesAgree(chain, sent, u);
        UpdatesAgree(chain, received, u);
      } else {
        OtherSlotsUntouched(chain, sent, s);
        OtherSlotsUntouched(chain, received, s);
      }
    }
  }

  /** The order in which update m arrives last. */
  function Delayed(sent: seq<Update>, m: nat): (received: seq<Update>)
    requires m < |sent|
    ensures multiset(received) == multiset(sent)
  {
    assert sent == sent[..m] + [sent[m]] + sent[m + 1..];
    sent[..m] + sent[m + 1..] + [sent[m]]
  }

  lemma DelayedWins(chain: Chain, sent: seq<Update>, m: nat)
    requires m < |sent| && sent[m].slot < SLOTS
    ensures AllUpdated(chain, Delayed(sent, m))[sent[m].slot] == Some(sent[m].key)
  {
    LastLands(chain, Delayed(sent, m));
  }

  /** A replica that starts equal to the manager can end with another ring, by the order alone in which it gets the
      manager's updates, if and only if two of them put different keys into one slot. */
  lemma ReplicaDivergesIff(r: Ring, keys: seq<Key>)
    ensures (exists received :: multiset(received) == multiset(Notices(r, keys)) && AllUpdated(r.chain, received) != AllRotated(r, keys).chain)
            <==> Conflict(Notices(r, keys))
  {
    var sent := Notices(r, keys);
    NoticesFollowManager(r, keys);
    if Conflict(sent) {
      var i, j :| 0 <= i < j < |sent| && sent[i].slot == sent[j].slot && sent[i].key != sent[j].key;
      var m := if AllRotated(r, keys).chain[sent[i].slot] == Some(sent[i].key) then j else i;
      DelayedWins(r.chain, sent, m);
      var received := Delayed(sent, m);
      assert AllUpdated(r.chain, received) != AllRotated(r, keys).chain;
    } else {
      forall received | multiset(received) == multiset(sent)
        ensures AllUpdated(r.chain, received) == AllRotated(r, keys).chain
      {
        OrderDoesNotMatter(r.chain, sent, received);
      }
    }
  }

  /** Among different keys that takes more than nine updates: nine or fewer converge in any order, and of ten or more
      the first and the tenth conflict. */
  lemma ConflictNeedsTen(r: Ring, keys: seq<Key>)
    requires AllDiffer(keys)
    ensures Conflict(Notices(r, keys)) <==> |keys| > SLOTS
  {
    var sent := Notices(r, keys);
    if |keys| > SLOTS {
      SameSlot(r.current + 1);
      assert sent[0].slot == sent[SLOTS].slot && sent[0].key != sent[SLOTS].key;
    } else {
      NoticesHaveDistinctSlots(r, keys);
    }
  }

  /** A replica equal to the manager's chain and fed up to nine consecutive updates in any order ends with the
      manager's chain again. */
  lemma ReplicaConverges(r: Ring, keys: seq<Key>, received: seq<Update>)
    requires |keys| <= SLOTS && multiset(received) == multiset(Notices(r, keys))
    ensures AllUpdated(r.chain, received) == AllRotated(r, keys).chain
  {
    NoticesHaveDistinctSlots(r, keys);
    NoticesFollowManager(r, keys);
    OrderDoesNotMatter(r.chain, Notices(r, keys), received);
  }

  // ----- Signatures -----

  datatype JwtError = IndexOutOfRange | KeyIsNil

  /** A keyed hash of the canonical string. */
  type Mac = (Key, string) -> string

  function Signature(mac: Mac, chain: Chain, text: string, index: int): Result<string, JwtError> {
    if index < 0 || index >= SLOTS then Failure(IndexOutOfRange)
    else match chain[index]
         case None => Failure(KeyIsNil)
         case Some(key) => Success(mac(key, text))
  }

  lemma {:induction false} OtherSlotsUntouched(chain: Chain, updates: seq<Update>, s: nat)
    requires s < SLOTS && forall u :: u in updates ==> u.slot != s
    ensures AllUpdated(chain, updates)[s] == chain[s]
  {
    if updates != [] {
      assert updates[|updates| - 1] in updates;
      OtherSlotsUntouched(chain, updates[..|updates| - 1], s);
    }
  }

  /** A signature can be recomputed under the index it was returned with, across any updates that do not overwrite
      that slot. */
  lemma SignatureRecomputes(mac: Mac, chain: Chain, text: string, index: nat, updates: seq<Update>)
    requires index < SLOTS && forall u :: u in updates ==> u.slot != index
    ensures Signature(mac, AllUpdated(chain, updates), text, index) == Signature(mac, chain, text, index)
  {
    OtherSlotsUntouched(chain, updates, index);
  }

  /** Of up to nine rotations by the manager, exactly those short of a full turn leave a given signature's slot alone:
      the current key's signature survives eight and not nine. */
  lemma CurrentKeySurvivesEight(r: Ring, keys: seq<Key>)
    requires r.current < SLOTS && |keys| <= SLOTS && forall k :: k in keys ==> Some(k) != r.chain[r.current]
    ensures AllRotated(r, keys).chain[r.current] == r.chain[r.current] <==> |keys| < SLOTS
  {
    NoticesFollowManager(r, keys);
    var sent := Notices(r, keys);
    if |keys| < SLOTS {
      FewSkipCurrent(r, keys);
      OtherSlotsUntouched(r.chain, sent, r.current);
    } else {
      NinthLandsOnCurrent(r, keys);
      assert keys[SLOTS - 1] in keys;
    }
  }

  lemma NinthLandsOnCurrent(r: Ring, keys: seq<Key>)
    requires r.current < SLOTS && |keys| == SLOTS
    ensures AllUpdated(r.chain, Notices(r, keys))[r.current] == Some(keys[SLOTS - 1])
  {
    SameSlot(r.current);
    LastLands(r.chain, Notices(r, keys));
  }

  lemma FewSkipCurrent(r: Ring, keys: seq<Key>)
    requires r.current < SLOTS && |keys| < SLOTS
    ensures forall u :: u in Notices(r, keys) ==> u.slot != r.current
  {
    var sent := Notices(r, keys);
    forall i | 0 <= i < |keys| ensures sent[i].slot != r.current {
      SlotsDiffer(r.current, r.current + 1 + i);
    }
  }

  lemma LastLands(chain: Chain, updates: seq<Update>)
    requires updates != [] && updates[|updates| - 1].slot < SLOTS
    ensures AllUpdated(chain, updates)[updates[|updates| - 1].slot] == Some(updates[|updates| - 1].key)
  {}

  /** A keyed hash in which nobody finds two inputs with one result, idealised. */
  ghost predicate Injective(mac: Mac) {
    forall k1, t1, k2, t2 :: mac(k1, t1) == mac(k2, t2) ==> k1 == k2 && t1 == t2
  }

  /** Signing succeeds exactly if the slot holds a key. */
  lemma SigningSucceedsIff(mac: Mac, chain: Chain, text: string, index: int)
    ensures Signature(mac, chain, text, index).Success? <==> 0 <= index < 9 && chain[index].Some?
    ensures Signature(mac, chain, text, index) == Failure(IndexOutOfRange) <==> index < 0 || index >= 9
  {}

  /** A signature covers the key and the text: two are equal exactly if the keys in the two slots and the texts are. */
  lemma SignaturesEqualIff(mac: Mac, chain1: Chain, text1: string, i1: nat, chain2: Chain, text2: string, i2: nat)
    requires Injective(mac) && i1 < SLOTS && i2 < SLOTS && chain1[i1].Some? && chain2[i2].Some?
    ensures Signature(mac, chain1, text1, i1) == Signature(mac, chain2, text2, i2) <==> chain1[i1] == chain2[i2] && text1 == text2
  {}

  /** Under one key, maps that keep clear of the separators are signed alike only if they are equal. */
  lemma SignatureCoversTheData(mac: Mac, chain: Chain, index: nat, data1: map<string, string>, text1: string, data2: map<string, string>, text2: string)
    requires Injective(mac) && index < SLOTS && chain[index].Some?
    requires Clean(data1) && Clean(data2) && Canonical(text1, data1) && Canonical(text2, data2)
    ensures Signature(mac, chain, text1, index) == Signature(mac, chain, text2, index) <==> data1 == data2
  {
    SignaturesEqualIff(mac, chain, text1, index, chain, text2, index);
    if data1 == data2 {
      CanonicalIsUnique(data1, text1, text2);
    }
    if text1 == text2 {
      CanonicalIsInjective(data1, data2, text1);
    }
  }

  // ----- The objects -----

  class Jwt {
    var currentKeyIndex: nat
    const keysChain: array<Option<Key>>

    ghost predicate Valid()
      reads this
    {
      keysChain.Length == SLOTS && currentKeyIndex < SLOTS
    }

    constructor ()
      ensures Valid() && currentKeyIndex == 0 && keysChain[..] == EMPTY && fresh(keysChain)
    {
      currentKeyIndex := 0;
      keysChain := new Option<Key>[SLOTS](i => None);
    }

    /** A replica's own current index is not moved: it goes on signing with the slot it was set up with. */
    method UpdateKey(key: Key, index: int) returns (r: Result<(), JwtError>)
      requires Valid()
      modifies keysChain
      ensures r == if 0 <= index < SLOTS then Success(()) else Failure(IndexOutOfRange)
      ensures keysChain[..] == if index < 0 then old(keysChain[..]) else Updated(old(keysChain[..]), Update(index, key))
    {
      if index < 0 || index >= SLOTS {
        return Failure(IndexOutOfRange);
      }
      keysChain[index] := Some(key);
      return Success(());
    }

    method GetKeyByIndex(index: int) returns (r: Result<Option<Key>, JwtError>)
      requires Valid()
      ensures r == if 0 <= index < SLOTS then Success(keysChain[index]) else Failure(IndexOutOfRange)
    {
      if index < 0 || index >= SLOTS {
        return Failure(IndexOutOfRange);
      }
      return Success(keysChain[index]);
    }

    /** text is the canonical string that was signed. */
    method GenerateSignatureWithKeyIndex(mac: Mac, data: map<string, string>, index: int)
      returns (r: Result<string, JwtError>, ghost text: string)
      requires Valid()
      ensures Canonical(text, data) && r == Signature(mac, keysChain[..], text, index)
      ensures index < 0 || index >= 9 ==> r == Failure(IndexOutOfRange)
      ensures 0 <= index < 9 && keysChain[index] == None ==> r == Failure(KeyIsNil)
      ensures 0 <= index < 9 && keysChain[index].Some? ==> r == Success(mac(keysChain[index].value, text))
    {
      var sortedStr := SortMapToString(data);
      text := sortedStr;
      var key := GetKeyByIndex(index);
      match key {
        case Failure(e) => r := Failure(e);
        case Success(None) => r := Failure(KeyIsNil);
        case Success(Some(k)) => r := Success(mac(k, sortedStr));
      }
    }

    /** The signature and the index it can be recomputed with. */
    method GenerateSignature(mac: Mac, data: map<string, string>) returns (r: Result<(string, nat), JwtError>, ghost text: string)
      requires Valid()
      ensures Canonical(text, data)
      ensures r.Success? <==> keysChain[currentKeyIndex].Some?
      ensures r.Success? ==> r.value.1 == currentKeyIndex
      ensures if keysChain[currentKeyIndex] == None then r == Failure(KeyIsNil)
              else r == Success((mac(keysChain[currentKeyIndex].value, text), currentKeyIndex))
      ensures match Signature(mac, keysChain[..], text, currentKeyIndex)
              case Success(s) => r == Success((s, currentKeyIndex))
              case Failure(e) => r == Failure(e)
    {
      var s;
      s, text := GenerateSignatureWithKeyIndex(mac, data, currentKeyIndex);
      match s {
        case Failure(e) => r := Failure(e);
        case Success(signature) => r := Success((signature, currentKeyIndex));
      }
    }
  }

  class JwtKeyManager {
    var currentKeyIndex: nat
    const keysChain: array<Option<Key>>

    ghost predicate Valid()
      reads this
    {
      keysChain.Length == SLOTS && currentKeyIndex < SLOTS
    }

    /** What the update handler was called with, in order. */
    ghost var sent: seq<Update>

    ghost function State(): Ring
      requires Valid()
      reads this, keysChain
    {
      Ring(currentKeyIndex, keysChain[..])
    }

    constructor ()
      ensures Valid() && State() == Ring(0, EMPTY) && sent == [] && fresh(keysChain)
    {
      currentKeyIndex, sent := 0, [];
      keysChain := new Option<Key>[SLOTS](i => None);
    }

    /** The first part of Start: ask the init handler, whose error loaded is None stands for, then load what was
        persisted, or issue a first key when there is nothing (a negative index). firstKey is the random key drawn in
        that case. */
    method Initialise(loaded: Option<(seq<Key>, int)>, firstKey: Key) returns (ok: bool)
      requires Valid() && State() == Ring(0, EMPTY) && sent == []
      modifies this, keysChain
      ensures Valid()
      ensures ok <==> loaded.Some? && loaded.value.1 < SLOTS
      ensures loaded == None ==> State() == old(State())
      ensures loaded.Some? && loaded.value.1 < 0 ==> State() == FirstRing(firstKey)
      ensures loaded.Some? && 0 <= loaded.value.1 < SLOTS ==> Some(State()) == Restarted(loaded.value.0, loaded.value.1)
      ensures sent == if loaded.Some? && loaded.value.1 < 0 then [Update(0, firstKey)] else []
    {
      if loaded == None {
        return false;
      }
      var keys, index := loaded.value.0, loaded.value.1;
      if index < 0 {
        keysChain[0] := Some(firstKey);
        currentKeyIndex := 0;
        sent := sent + [Update(0, firstKey)];
        return true;
      }
      var i := 0;
      while i < |keys| && i < SLOTS
        invariant 0 <= i <= |keys| && i <= SLOTS
        invariant forall s :: 0 <= s < SLOTS ==> keysChain[s] == if s < i then Some(keys[s]) else None
        invariant currentKeyIndex == 0 && sent == []
      {
        keysChain[i] := Some(keys[i]);
        i := i + 1;
      }
      if index >= SLOTS {
        return false;
      }
      currentKeyIndex := index;
      assert keysChain[..] == Restarted(keys, index).value.chain;
      return true;
    }

    /** One tick of the rotation loop. */
    method Rotate(newKey: Key)
      requires Valid()
      modifies this, keysChain
      ensures Valid() && State() == Rotated(old(State()), newKey)
      ensures sent == old(sent) + Notices(old(State()), [newKey])
    {
      var nextIndex := (currentKeyIndex + 1) % SLOTS;
      keysChain[nextIndex] := Some(newKey);
      currentKeyIndex := nextIndex;
      sent := sent + [Update(nextIndex, newKey)];
      assert Notices(old(State()), [newKey]) == [Update(nextIndex, newKey)];
    }
  }
}

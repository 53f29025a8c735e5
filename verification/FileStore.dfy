/**
 FileFailedMessageStore (components/mqs/file_store.go): every operation loads the whole map from one file,
 changes it, and rewrites the file through a temporary path and a rename.

 The JSON codec is a parameter: an encoder whose output decodes to what was encoded. A file system call may
 fail, and the process may stop between any two bytes written; what reached the file system stays.
 */
module FileStore {
  import opened Sets
  import opened Wrappers
  import opened FailedMessages

  type Bytes = seq<bv8>

  /** What json.Unmarshal makes of the file: nothing, an object without messages, or a map. */
  datatype Parsed = Bad | NoMessages | Messages(view: View)

  datatype Codec = Codec(encode: View -> Bytes, decode: Bytes -> Parsed)

  ghost predicate Lawful(c: Codec) {
    forall v :: c.encode(v) != [] && c.decode(c.encode(v)) == Messages(v)
  }

  /** The two paths the store uses; None is a missing file. */
  datatype Disk = Disk(main: Option<Bytes>, temp: Option<Bytes>)

  /** What loadFromFile returns when the read itself succeeds. */
  function Load(c: Codec, main: Option<Bytes>): Option<View> {
    match main
    case None => Some(map[])
    case Some(data) =>
      if data == [] then Some(map[])
      else match c.decode(data)
           case Bad => None
           case NoMessages => Some(map[])
           case Messages(view) => Some(view)
  }

  // ----- saveToFile, byte by byte -----

  /** How a save ends: all went well, a call failed, or the process stopped after n steps. The first step truncates
      the temporary file, each further step writes one byte, and the last renames. */
  datatype Ending = Complete | OpenFails | WriteFails(written: nat) | RenameFails | Crash(steps: nat)

  /** The disk after the first n steps of saving data. */
  function DuringSave(d: Disk, data: Bytes, n: nat): Disk {
    if n == 0 then d
    else if n <= |data| + 1 then d.(temp := Some(data[..n - 1]))
    else Disk(Some(data), None)
  }

  function AfterSave(d: Disk, data: Bytes, e: Ending): Disk {
    match e
    case Complete => DuringSave(d, data, |data| + 2)
    case OpenFails => d
    case WriteFails(written) => d.(temp := Some(if written <= |data| then data[..written] else data))
    case RenameFails => d.(temp := None)
    case Crash(steps) => DuringSave(d, data, steps)
  }

  /** Whether the save got as far as the rename. */
  predicate Renamed(data: Bytes, e: Ending) {
    match e
    case Complete => true
    case Crash(steps) => steps >= |data| + 2
    case _ => false
  }

  /** At every point of a save the main file is byte for byte the old file or the new one, and it is the new one
      from the rename on. */
  lemma SaveIsAtomic(d: Disk, data: Bytes, e: Ending)
    ensures AfterSave(d, data, e).main == if Renamed(data, e) then Some(data) else d.main
  {}

  // ----- The operations and what they mean -----

  datatype Op = Store(m: Msg) | Remove(id: Id) | Clear

  /** The memory store's answer to the same operation. */
  function Meant(view: View, op: Op): View {
    match op
    case Store(m) => view[m.id := m]
    case Remove(id) => view - {id}
    case Clear => map[]
  }

  /** One call: reading may fail, and a call that got its map saves it. Clear does not read. */
  datatype Call = Call(op: Op, readFails: bool, ending: Ending)

  function AfterCall(c: Codec, d: Disk, call: Call): Disk {
    if call.op.Clear? then AfterSave(d, c.encode(map[]), call.ending)
    else
      var loaded := Load(c, d.main);
      if call.readFails || loaded == None then d
      else AfterSave(d, c.encode(Meant(loaded.value, call.op)), call.ending)
  }

  /** Whether the call reached its rename. Otherwise it returned an error or died, and counts for nothing. */
  predicate Committed(c: Codec, d: Disk, call: Call) {
    if call.op.Clear? then Renamed(c.encode(map[]), call.ending)
    else
      var loaded := Load(c, d.main);
      !call.readFails && loaded.Some? && Renamed(c.encode(Meant(loaded.value, call.op)), call.ending)
  }

  /** One call keeps the file readable and moves its meaning as the memory store would, or not at all. */
  lemma CallRefinesMemory(c: Codec, d: Disk, call: Call, view: View)
    requires Lawful(c) && Load(c, d.main) == Some(view)
    ensures Load(c, AfterCall(c, d, call).main) == Some(if Committed(c, d, call) then Meant(view, call.op) else view)
  {
    var data := c.encode(Meant(view, call.op));
    SaveIsAtomic(d, data, call.ending);
    assert c.decode(data) == Messages(Meant(view, call.op));
  }

  function AfterCalls(c: Codec, d: Disk, calls: seq<Call>): Disk {
    if calls == [] then d else AfterCall(c, AfterCalls(c, d, calls[..|calls| - 1]), calls[|calls| - 1])
  }

  /** The memory store after the committed calls only. */
  function MemoryAfter(c: Codec, d: Disk, calls: seq<Call>, view: View): View {
    if calls == [] then view
    else
      var before, last := calls[..|calls| - 1], calls[|calls| - 1];
      var v := MemoryAfter(c, d, before, view);
      if Committed(c, AfterCalls(c, d, before), last) then Meant(v, last.op) else v
  }

  /** Over any sequence of calls, with failures and crashes anywhere and whatever temporary file they left
      behind, the file reads as the memory store that performed exactly the committed calls. */
  lemma {:induction false} FileRefinesMemory(c: Codec, d: Disk, calls: seq<Call>, view: View)
    requires Lawful(c) && Load(c, d.main) == Some(view)
    ensures Load(c, AfterCalls(c, d, calls).main) == Some(MemoryAfter(c, d, calls, view))
  {
    if calls != [] {
      var before := calls[..|calls| - 1];
      FileRefinesMemory(c, d, before, view);
      CallRefinesMemory(c, AfterCalls(c, d, before), calls[|calls| - 1], MemoryAfter(c, d, before, view));
    }
  }

  /** What the committed calls have last said of an ID. */
  function LastWord(c: Codec, d: Disk, calls: seq<Call>, view: View, id: Id): Option<Msg> {
    if calls == [] then (if id in view then Some(view[id]) else None)
    else
      var before, last := calls[..|calls| - 1], calls[|calls| - 1];
      if !Committed(c, AfterCalls(c, d, before), last) then LastWord(c, d, before, view, id)
      else match last.op
           case Store(m) => if m.id == id then Some(m) else LastWord(c, d, before, view, id)
           case Remove(k) => if k == id then None else LastWord(c, d, before, view, id)
           case Clear => None
  }

  /** Under each ID the file holds exactly the message of the last committed Store of it, unless a committed Remove of it or
      a Clear came later. */
  lemma {:induction false} FileHoldsLastWord(c: Codec, d: Disk, calls: seq<Call>, view: View, id: Id)
    requires Lawful(c) && Load(c, d.main) == Some(view)
    ensures var loaded := Load(c, AfterCalls(c, d, calls).main);
            && loaded.Some?
            && LastWord(c, d, calls, view, id) == if id in loaded.value then Some(loaded.value[id]) else None
  {
    if calls != [] {
      var before := calls[..|calls| - 1];
      FileHoldsLastWord(c, d, before, view, id);
      FileRefinesMemory(c, d, before, view);
      CallRefinesMemory(c, AfterCalls(c, d, before), calls[|calls| - 1], MemoryAfter(c, d, before, view));
    }
  }

  /** A missing and an empty file read as no messages, and one that does not parse as an error. */
  lemma ReadingIsForgiving(c: Codec, data: Bytes)
    ensures Load(c, None) == Load(c, Some([])) == Some(map[])
    ensures data != [] ==> (Load(c, Some(data)) == None <==> c.decode(data) == Bad)
    ensures data != [] && c.decode(data) == NoMessages ==> Load(c, Some(data)) == Some(map[])
    ensures data != [] && c.decode(data).Messages? ==> Load(c, Some(data)) == Some(c.decode(data).view)
  {}

  /** A call commits exactly if it could read what is there, unless it clears, and its save was renamed. */
  lemma CommitsIff(c: Codec, d: Disk, call: Call)
    ensures Committed(c, d, call) ==>
              call.ending == Complete || (call.ending.Crash? && AfterCall(c, d, call).temp == None && AfterCall(c, d, call).main.Some?)
    ensures call.ending == Complete ==> (Committed(c, d, call) <==> call.op.Clear? || (!call.readFails && Load(c, d.main).Some?))
    ensures !Committed(c, d, call) ==> AfterCall(c, d, call).main == d.main
  {
    if call.op.Clear? {
      SaveIsAtomic(d, c.encode(map[]), call.ending);
    } else if Load(c, d.main).Some? {
      SaveIsAtomic(d, c.encode(Meant(Load(c, d.main).value, call.op)), call.ending);
    }
  }

  /** Without failures the two stores agree after every call. */
  lemma {:induction false} CompleteCallsAgree(c: Codec, d: Disk, ops: seq<Op>, view: View)
    requires Lawful(c) && Load(c, d.main) == Some(view)
    ensures var calls := seq(|ops|, i requires 0 <= i < |ops| => Call(ops[i], false, Complete));
            Load(c, AfterCalls(c, d, calls).main) == Some(MeantAll(view, ops))
  {
    var calls := seq(|ops|, i requires 0 <= i < |ops| => Call(ops[i], false, Complete));
    if ops != [] {
      var before := ops[..|ops| - 1];
      CompleteCallsAgree(c, d, before, view);
      assert calls[..|calls| - 1] == seq(|before|, i requires 0 <= i < |before| => Call(before[i], false, Complete));
      CallRefinesMemory(c, AfterCalls(c, d, calls[..|calls| - 1]), calls[|calls| - 1], MeantAll(view, before));
    }
  }

  function MeantAll(view: View, ops: seq<Op>): View {
    if ops == [] then view else Meant(MeantAll(view, ops[..|ops| - 1]), ops[|ops| - 1])
  }

  // ----- The store itself -----

  /** The file system calls the store makes. fault says how the running operation's calls go wrong. */
  class FailedMessageFile {
    const codec: Codec
    var main: Option<Bytes>
    var temp: Option<Bytes>

    ghost function Now(): Disk
      reads this
    {
      Disk(main, temp)
    }

    constructor (codec: Codec, disk: Disk)
      ensures this.codec == codec && Now() == disk
    {
      this.codec, main, temp := codec, disk.main, disk.temp;
    }

    /** NewFileFailedMessageStore: makes the directory, and the file when it is missing. Either can fail. */
    static method NewStore(codec: Codec, disk: Disk, dirFails: bool, ending: Ending) returns (store: FailedMessageFile, ok: bool)
      ensures fresh(store) && store.codec == codec
      ensures store.Now() == if dirFails || disk.main.Some? then disk else AfterSave(disk, codec.encode(map[]), ending)
      ensures ok <==> !dirFails && (disk.main.Some? || ending == Complete)
    {
      store := new FailedMessageFile(codec, disk);
      if dirFails {
        return store, false;
      }
      if store.main == None {
        ok := store.SaveToFile(map[], ending);
        return store, ok;
      }
      return store, true;
    }

    method LoadFromFile(readFails: bool) returns (messages: Option<View>)
      ensures messages == if readFails then None else Load(codec, main)
    {
      if readFails {
        return None;
      }
      if main == None || main.value == [] {
        return Some(map[]);
      }
      match codec.decode(main.value) {
        case Bad => return None;
        case NoMessages => return Some(map[]);
        case Messages(view) => return Some(view);
      }
    }

    /** Writes the temporary file byte by byte and renames it. ending decides where this stops; the result tells
        whether the caller saw success. */
    method SaveToFile(messages: View, ending: Ending) returns (ok: bool)
      modifies this
      ensures Now() == AfterSave(old(Now()), codec.encode(messages), ending)
      ensures ok <==> ending == Complete
    {
      var data := codec.encode(messages);
      if ending.OpenFails? || (ending.Crash? && ending.steps == 0) {
        return false;
      }
      temp := Some([]);
      var i := 0;
      while i < |data|
        invariant 0 <= i <= |data|
        invariant main == old(main) && temp == Some(data[..i])
        invariant ending.WriteFails? ==> i <= ending.written
        invariant ending.Crash? ==> i + 1 <= ending.steps
      {
        if (ending.WriteFails? && ending.written == i) || (ending.Crash? && ending.steps == i + 1) {
          return false;
        }
        assert data[..i] + [data[i]] == data[..i + 1];
        temp := Some(temp.value + [data[i]]);
        i := i + 1;
      }
      assert data[..i] == data;
      if ending.WriteFails? || (ending.Crash? && ending.steps == |data| + 1) {
        return false;
      }
      if ending == RenameFails {
        temp := None;
        return false;
      }
      main, temp := temp, None;
      return ending == Complete;
    }

    /** Lists the message under each ID once, in an order the map chooses; order holds the IDs. */
    method Retrieve(readFails: bool) returns (list: Option<seq<Msg>>, ghost order: seq<Id>)
      ensures list.Some? <==> !readFails && Load(codec, main).Some?
      ensures list.Some? ==>
                var view := Load(codec, main).value;
                && |list.value| == |view| && Lists(order, view)
                && |order| == |list.value| && forall i :: 0 <= i < |order| ==> list.value[i] == view[order[i]]
    {
      order := [];
      var messages := LoadFromFile(readFails);
      if messages == None {
        return None, order;
      }
      var result := [];
      var left := messages.value.Keys;
      while left != {}
        invariant left <= messages.value.Keys && |result| == |order| && Distinct(order) && |result| + |left| == |messages.value|
        invariant forall i :: 0 <= i < |order| ==> order[i] in messages.value && result[i] == messages.value[order[i]]
        invariant forall id :: id in order <==> id in messages.value && id !in left
        decreases |left|
      {
        var id :| id in left;
        result, order := result + [messages.value[id]], order + [id];
        left := left - {id};
      }
      return Some(result), order;
    }

    /** Store, Remove and Clear. */
    method Perform(call: Call) returns (ok: bool)
      modifies this
      ensures Now() == AfterCall(codec, old(Now()), call)
      ensures ok ==> Committed(codec, old(Now()), call)
      ensures Committed(codec, old(Now()), call) && !call.ending.Crash? ==> ok
    {
      match call.op {
        case Clear =>
          ok := SaveToFile(map[], call.ending);
        case Store(m) =>
          var messages := LoadFromFile(call.readFails);
          if messages == None {
            return false;
          }
          ok := SaveToFile(messages.value[m.id := m], call.ending);
        case Remove(id) =>
          var messages := LoadFromFile(call.readFails);
          if messages == None {
            return false;
          }
          ok := SaveToFile(messages.value - {id}, call.ending);
      }
    }
  }
}

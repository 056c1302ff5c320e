/**
 Transactions of a PStore, crashed anywhere or finished, and runs of them.
 */
module StoreTransaction {
  import opened Common
  import opened StoreDisk

  /** The root objects by name. */
  type Table = map<string, int>

  /** Marshal, taken as two functions. */
  datatype Codec = Codec(dump: Table -> string, load: string -> Table) {
    ghost predicate Valid() {
      forall t: Table {:trigger dump(t)} :: load(dump(t)) == t && dump(t) != ""
    }

    function TableOf(content: string): Table {
      if content == "" then map[] else load(content)
    }
  }

  /** How the block of a transaction ends: by itself, by commit, by abort, or by an exception. */
  datatype Ending = Finish(table: Table) | Commit(table: Table) | Abort | Exception {
    predicate Saves() { Finish? || Commit? }
  }

  type Block = Table -> Ending

  /** What a write transaction reads: behind a recovery the position is at the end of the file. */
  function ReadBack(d: Disk): string {
    if d.next.Some? then "" else Text(d.main)
  }

  /** The content a transaction writes, if it writes any. */
  function ToSave(codec: Codec, block: Block, content: string): Option<string> {
    var ending := block(codec.TableOf(content));
    if !ending.Saves() then None
    else
      var dumped := codec.dump(ending.table);
      if content == "" || dumped != content then Some(dumped) else None
  }

  function SaveOps(content: Option<string>): seq<Op> {
    if content.Some? then Save(content.value) else []
  }

  /** All file operations of a write transaction. */
  function WriteOps(codec: Codec, block: Block, d: Disk): seq<Op> {
    Begin(d) + SaveOps(ToSave(codec, block, ReadBack(d)))
  }

  /** What a read-only transaction reads. */
  function ReadOnly(d: Disk): string {
    if d.main.None? then "" else if d.next.Some? then d.next.value else d.main.value
  }

  lemma ReadOnlyIsLogical(d: Disk)
    requires Sound(d)
    ensures ReadOnly(d) == Logical(d)
  {
  }

  /** Whether the k-th operation of the transaction lies behind its rename. */
  predicate Renamed(codec: Codec, block: Block, d: Disk, k: nat) {
    var content := ToSave(codec, block, ReadBack(d));
    content.Some? && k >= |Begin(d)| + RenameAt(content.value)
  }

  /** A write transaction crashed behind any of its operations: the logical content is exactly the
      old one before the rename, and exactly the new one from the rename on. */
  lemma CrashSafe(codec: Codec, block: Block, d: Disk, k: nat)
    requires Sound(d) && k <= |WriteOps(codec, block, d)|
    ensures var d' := ApplyAll(d, WriteOps(codec, block, d)[..k]);
            && Sound(d')
            && Logical(d')
            == if Renamed(codec, block, d, k) then ToSave(codec, block, ReadBack(d)).value else Logical(d)
  {
    var content := ToSave(codec, block, ReadBack(d));
    var ops, begun := WriteOps(codec, block, d), ApplyAll(d, Begin(d));
    BeginKeeps(d);
    if k <= |Begin(d)| {
      assert ops[..k] == Begin(d)[..k];
    } else {
      var j := k - |Begin(d)|;
      assert ops[..k] == Begin(d) + Save(content.value)[..j];
      assert ApplyAll(d, ops[..k]) == ApplyAll(begun, Save(content.value)[..j]) by {
        ApplyAppend(d, Begin(d), Save(content.value)[..j]);
      }
      SaveFlips(begun, content.value, j);
    }
  }

  /** A finished write transaction leaves its content in the store's file alone. */
  lemma Finished(codec: Codec, block: Block, d: Disk)
    requires Sound(d)
    ensures var content := ToSave(codec, block, ReadBack(d));
            var d' := ApplyAll(d, WriteOps(codec, block, d));
            d'.next == None && d'.main == Some(if content.Some? then content.value else Logical(d))
  {
    var content := ToSave(codec, block, ReadBack(d));
    var begun := ApplyAll(d, Begin(d));
    BeginKeeps(d);
    if content.Some? {
      ApplyAppend(d, Begin(d), Save(content.value));
      SaveFlips(begun, content.value, 0);
    } else {
      assert Begin(d) + [] == Begin(d);
    }
  }

  /** A transaction that ends by abort or by an exception changes no logical content, crashed or not. */
  lemma AbortedChangesNothing(codec: Codec, block: Block, d: Disk, k: nat)
    requires Sound(d) && k <= |WriteOps(codec, block, d)|
    requires var ending := block(codec.TableOf(ReadBack(d))); ending.Abort? || ending.Exception?
    ensures Logical(ApplyAll(d, WriteOps(codec, block, d)[..k])) == Logical(d)
  {
    CrashSafe(codec, block, d, k);
  }

  // ---- runs with crashes

  /** A transaction that stops after that many operations at most. */
  datatype Event = Event(block: Block, stop: nat)

  function Stopped(codec: Codec, e: Event, d: Disk): Disk {
    var ops := WriteOps(codec, e.block, d);
    ApplyAll(d, if e.stop < |ops| then ops[..e.stop] else ops)
  }

  function RunAll(codec: Codec, d: Disk, events: seq<Event>): Disk
    decreases |events|
  {
    if events == [] then d else RunAll(codec, Stopped(codec, events[0], d), events[1..])
  }

  lemma StoppedIs(codec: Codec, e: Event, d: Disk)
    requires Sound(d)
    ensures Sound(Stopped(codec, e, d))
    ensures Logical(Stopped(codec, e, d))
         == if Renamed(codec, e.block, d, e.stop) then ToSave(codec, e.block, ReadBack(d)).value else Logical(d)
  {
    var ops := WriteOps(codec, e.block, d);
    var k := if e.stop < |ops| then e.stop else |ops|;
    assert ops[..|ops|] == ops;
    CrashSafe(codec, e.block, d, k);
  }

  /** The contents that the transactions of a run want to save, each from the disk it finds. */
  function Wanted(codec: Codec, d: Disk, events: seq<Event>): set<string>
    decreases |events|
  {
    if events == [] then {}
    else
      var content := ToSave(codec, events[0].block, ReadBack(d));
      (if content.Some? then {content.value} else {}) + Wanted(codec, Stopped(codec, events[0], d), events[1..])
  }

  /** What the last transaction that got behind its rename wanted to save, `before` if none did. */
  function Committed(codec: Codec, d: Disk, events: seq<Event>, before: string): string
    decreases |events|
  {
    if events == [] then before
    else
      var e := events[0];
      var after := if Renamed(codec, e.block, d, e.stop) then ToSave(codec, e.block, ReadBack(d)).value else before;
      Committed(codec, Stopped(codec, e, d), events[1..], after)
  }

  /** After any number of transactions, each crashed anywhere or finished, the logical content is
      the whole of what the last one behind its rename wanted to save, or the first content. */
  lemma {:induction false} EveryRunIsAtomic(codec: Codec, d: Disk, events: seq<Event>)
    requires Sound(d)
    ensures Sound(RunAll(codec, d, events))
    ensures Logical(RunAll(codec, d, events)) == Committed(codec, d, events, Logical(d))
    ensures Logical(RunAll(codec, d, events)) in {Logical(d)} + Wanted(codec, d, events)
    decreases |events|
  {
    if events != [] {
      StoppedIs(codec, events[0], d);
      EveryRunIsAtomic(codec, Stopped(codec, events[0], d), events[1..]);
    }
  }

  // ---- what a finished transaction makes of the table

  /** The block that leaves the table as it is. */
  function Unchanged(t: Table): Ending {
    Finish(t)
  }

  /** The table a finished transaction leaves behind. */
  function TableAfter(codec: Codec, block: Block, d: Disk): Table {
    codec.TableOf(Logical(ApplyAll(d, WriteOps(codec, block, d))))
  }

  /** The table that is left of a stored one by each way in which a block may end. */
  function TableLeft(ending: Ending, stored: Table): Table {
    match ending
    case Finish(t) => t
    case Commit(t) => t
    case Abort => stored
    case Exception => stored
  }

  /** A finished transaction leaves the table with which its block ended by itself or by commit, and the
      stored table when it ended by abort or by an exception. */
  lemma BlockTable(codec: Codec, block: Block, d: Disk)
    requires codec.Valid() && Sound(d)
    ensures TableAfter(codec, block, d) == TableLeft(block(codec.TableOf(ReadBack(d))), codec.TableOf(Logical(d)))
  {
    var e := block(codec.TableOf(ReadBack(d)));
    if e.Saves() {
      assert codec.load(codec.dump(e.table)) == e.table && codec.dump(e.table) != "";
    }
    Finished(codec, block, d);
  }

  /** What the block makes of the table that was stored. */
  ghost predicate TakesEffect(codec: Codec, block: Block, d: Disk) {
    var stored := codec.TableOf(Logical(d));
    TableAfter(codec, block, d) == TableLeft(block(stored), stored)
  }

  /** A transaction that changes nothing keeps the table exactly if there is nothing to recover from
      a crash, or nothing in it: behind a recovery the block starts with an empty table. */
  lemma UnchangedKeepsTable(codec: Codec, d: Disk)
    requires codec.Valid() && Sound(d)
    ensures TableAfter(codec, Unchanged, d) == codec.TableOf(Logical(d))
       <==> d.next.None? || codec.TableOf(d.next.value) == map[]
  {
    BlockTable(codec, Unchanged, d);
  }

  /** Every block works on the table that was stored, exactly if there is nothing to recover from a
      crash, or nothing in it. */
  lemma BlocksTakeEffect(codec: Codec, d: Disk)
    requires codec.Valid() && Sound(d)
    ensures (forall block: Block :: TakesEffect(codec, block, d))
       <==> d.next.None? || codec.TableOf(d.next.value) == map[]
  {
    if d.next.None? || codec.TableOf(d.next.value) == map[] {
      forall block: Block ensures TakesEffect(codec, block, d) {
        BlockTable(codec, block, d);
      }
    } else {
      UnchangedKeepsTable(codec, d);
      assert !TakesEffect(codec, Unchanged, d);
    }
  }
}

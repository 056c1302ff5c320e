/**
 PStore: the object's methods perform the file operations one after the other; the list of all
 operations performed is what a crash may cut off.
 */
module StoreObject {
  import opened Common
  import opened StoreDisk
  import opened StoreTransaction

  datatype Outcome = Returned | Raised | NestedTransaction

  class PStore {
    const codec: Codec
    var disk: Disk
    var table: Option<Table>
    var transaction: bool
    var rdonly: bool
    var abort: bool

    /** The read and write position in the store's file. */
    var position: nat

    /** Every operation performed on the files so far. */
    ghost var performed: seq<Op>

    constructor (codec: Codec, disk: Disk)
      ensures this.codec == codec && this.disk == disk && !transaction && performed == []
    {
      this.codec := codec;
      this.disk := disk;
      table := None;
      transaction, rdonly, abort := false, false, false;
      position := 0;
      performed := [];
    }

    /** One file operation. */
    method Perform(op: Op)
      modifies this`disk, this`performed
      ensures disk == Apply(old(disk), op) && performed == old(performed) + [op]
    {
      disk := Apply(disk, op);
      performed := performed + [op];
    }

    /** The operations performed since the list was `before`, and their effect. */
    ghost predicate Did(from: Disk, before: seq<Op>, ops: seq<Op>)
      reads this
    {
      disk == ApplyAll(from, ops) && performed == before + ops
    }

    lemma DidOne(from: Disk, before: seq<Op>, ops: seq<Op>, op: Op)
      requires disk == Apply(ApplyAll(from, ops), op) && performed == before + ops + [op]
      ensures Did(from, before, ops + [op])
    {
      assert (ops + [op])[..|ops|] == ops;
      assert before + ops + [op] == before + (ops + [op]);
    }

    lemma DidBoth(from: Disk, before: seq<Op>, a: seq<Op>, b: seq<Op>)
      requires disk == ApplyAll(ApplyAll(from, a), b) && performed == before + a + b
      ensures Did(from, before, a + b)
    {
      ApplyAppend(from, a, b);
      assert before + a + b == before + (a + b);
    }

    /** FileUtils.copy_stream from the ".new" file into the store's file. */
    method CopyStream(content: string)
      modifies this`disk, this`performed, this`position
      ensures Did(old(disk), old(performed), WriteMains(content)) && position == old(position) + |content|
    {
      assert WriteMains(content[..0]) == [] && performed + [] == performed;
      for i := 0 to |content|
        invariant Did(old(disk), old(performed), WriteMains(content[..i])) && position == old(position) + i
      {
        Perform(WriteMain(content[i]));
        position := position + 1;
        assert WriteMains(content[..i + 1]) == WriteMains(content[..i]) + [WriteMain(content[i])];
        DidOne(old(disk), old(performed), WriteMains(content[..i]), WriteMain(content[i]));
      }
      assert content[..|content|] == content;
    }

    /** Writes the content to the ".tmp" file. */
    method WriteTmpFile(content: string)
      modifies this`disk, this`performed
      ensures Did(old(disk), old(performed), WriteTmps(content))
    {
      assert WriteTmps(content[..0]) == [] && performed + [] == performed;
      for i := 0 to |content|
        invariant Did(old(disk), old(performed), WriteTmps(content[..i]))
      {
        Perform(WriteTmp(content[i]));
        assert WriteTmps(content[..i + 1]) == WriteTmps(content[..i]) + [WriteTmp(content[i])];
        DidOne(old(disk), old(performed), WriteTmps(content[..i]), WriteTmp(content[i]));
      }
      assert content[..|content|] == content;
    }

    /** commit_new; the position stays at the end of what was copied. */
    method CommitNewFile()
      requires disk.next.Some?
      modifies this`disk, this`performed, this`position
      ensures Did(old(disk), old(performed), StoreDisk.CommitNew(old(disk.next.value))) &&
        position == |old(disk.next.value)|
    {
      ghost var from, before := disk, performed;
      var content := disk.next.value;
      Perform(TruncateMain);
      position := 0;
      assert ApplyAll(from, [TruncateMain][..0]) == from;
      CopyStream(content);
      DidBoth(from, before, [TruncateMain], WriteMains(content));
      Perform(UnlinkNew);
      DidOne(from, before, [TruncateMain] + WriteMains(content), UnlinkNew);
    }

    /** The opening of a write transaction: what it reads of the store's file. */
    method OpenForWriting() returns (content: string)
      requires Sound(disk)
      modifies this`disk, this`performed, this`position
      ensures Did(old(disk), old(performed), Begin(old(disk))) && content == ReadBack(old(disk))
      ensures disk.main.Some? && disk.next.None?
    {
      ghost var from, before := disk, performed;
      Perform(OpenMain);
      position := 0;
      assert ApplyAll(from, [OpenMain][..0]) == from;
      BeginKeeps(from);
      if disk.next.Some? {
        CommitNewFile();
        DidBoth(from, before, [OpenMain], StoreDisk.CommitNew(from.next.value));
      } else {
        assert [OpenMain] + [] == [OpenMain];
      }
      content := Text(disk.main)[position..];
      assert content == ReadBack(from);
    }

    /** The end of a write transaction that was not aborted. */
    method SaveTable(content: string, t: Table)
      requires disk.main.Some? && disk.next.None?
      modifies this`disk, this`performed, this`position
      ensures var dumped := codec.dump(t);
              Did(old(disk), old(performed), SaveOps(if content == "" || dumped != content then Some(dumped) else None))
    {
      ghost var from, before := disk, performed;
      var dumped := codec.dump(t);
      if content == "" || dumped != content {
        Perform(TruncateTmp);
        assert ApplyAll(from, [TruncateTmp][..0]) == from;
        WriteTmpFile(dumped);
        DidBoth(from, before, [TruncateTmp], WriteTmps(dumped));
        Perform(RenameTmp);
        DidOne(from, before, [TruncateTmp] + WriteTmps(dumped), RenameTmp);
        SaveTmp(from, dumped);
        CommitNewFile();
        DidBoth(from, before, [TruncateTmp] + WriteTmps(dumped) + [RenameTmp], StoreDisk.CommitNew(dumped));
      } else {
        assert before + [] == before;
      }
    }

    /** transaction(false): the operations it performs, in their order, are those of the protocol. */
    method Transaction(block: Block) returns (r: Outcome)
      requires Sound(disk)
      modifies this
      ensures old(transaction) ==> r == NestedTransaction && disk == old(disk) && performed == old(performed)
      ensures !old(transaction) ==>
        Did(old(disk), old(performed), WriteOps(codec, block, old(disk))) && !transaction && table == None
      ensures !old(transaction) ==>
        (r == Raised <==> block(codec.TableOf(ReadBack(old(disk)))).Exception?) && r != NestedTransaction
    {
      if transaction { return NestedTransaction; }
      rdonly, abort, transaction := false, false, true;
      ghost var from, before := disk, performed;
      var content := OpenForWriting();
      table := Some(codec.TableOf(content));
      var ending := block(table.value);
      abort := ending.Abort? || ending.Exception?;
      if !abort {
        table := Some(ending.table);
        SaveTable(content, table.value);
      } else {
        assert performed + [] == performed;
      }
      DidBoth(from, before, Begin(from), SaveOps(ToSave(codec, block, content)));
      table := None;
      transaction := false;
      return if ending.Exception? then Raised else Returned;
    }

    /** transaction(true): the table it shows is that of the logical content. */
    method ReadTransaction() returns (r: Option<Table>)
      requires Sound(disk)
      modifies this`rdonly, this`abort
      ensures if transaction then r == None else r == Some(codec.TableOf(Logical(disk)))
    {
      if transaction { return None; }
      rdonly, abort := true, false;
      ReadOnlyIsLogical(disk);
      var content := if disk.main.None? then "" else if disk.next.Some? then disk.next.value else disk.main.value;
      return Some(codec.TableOf(content));
    }
  }
}

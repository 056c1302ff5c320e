/**
 The files of a PStore and the order in which a write transaction changes them. A crash may
 happen between any two of the elementary operations; writing is one operation per character.
 */
module StoreDisk {
  import opened Common

  /** The store's file, its ".new" file and its ".tmp" file. */
  datatype Disk = Disk(main: Option<string>, next: Option<string>, tmp: Option<string>)

  datatype Op =
    | OpenMain               // created empty if it is not there
    | TruncateMain
    | WriteMain(c: char)
    | UnlinkNew
    | TruncateTmp            // created empty if it is not there
    | WriteTmp(c: char)
    | RenameTmp              // the ".tmp" file becomes the ".new" file

  function Text(file: Option<string>): string {
    if file.Some? then file.value else ""
  }

  /** The logical content: the ".new" file if there is one, otherwise the store's file. */
  function Logical(d: Disk): string {
    if d.next.Some? then d.next.value else Text(d.main)
  }

  function Apply(d: Disk, op: Op): Disk {
    match op
    case OpenMain => d.(main := Some(Text(d.main)))
    case TruncateMain => d.(main := Some(""))
    case WriteMain(c) => d.(main := Some(Text(d.main) + [c]))
    case UnlinkNew => d.(next := None)
    case TruncateTmp => d.(tmp := Some(""))
    case WriteTmp(c) => d.(tmp := Some(Text(d.tmp) + [c]))
    case RenameTmp => d.(next := Some(Text(d.tmp)), tmp := None)
  }

  function ApplyAll(d: Disk, ops: seq<Op>): Disk
    decreases |ops|
  {
    if ops == [] then d else Apply(ApplyAll(d, ops[..|ops| - 1]), ops[|ops| - 1])
  }

  lemma {:induction false} ApplyAppend(d: Disk, a: seq<Op>, b: seq<Op>)
    ensures ApplyAll(d, a + b) == ApplyAll(ApplyAll(d, a), b)
    decreases |b|
  {
    if b == [] {
      assert a + b == a;
    } else {
      ApplyAppend(d, a, b[..|b| - 1]);
      assert (a + b)[..|a + b| - 1] == a + b[..|b| - 1];
    }
  }

  // ---- the protocol

  function WriteMains(s: string): (ops: seq<Op>)
    ensures |ops| == |s|
  {
    seq(|s|, i requires 0 <= i < |s| => WriteMain(s[i]))
  }

  function WriteTmps(s: string): (ops: seq<Op>)
    ensures |ops| == |s|
  {
    seq(|s|, i requires 0 <= i < |s| => WriteTmp(s[i]))
  }

  /** commit_new: the ".new" file is copied over the store's file and removed. */
  function CommitNew(content: string): seq<Op> {
    [TruncateMain] + WriteMains(content) + [UnlinkNew]
  }

  /** The beginning of a write transaction, with the recovery from a crash. */
  function Begin(d: Disk): seq<Op> {
    [OpenMain] + (if d.next.Some? then CommitNew(d.next.value) else [])
  }

  /** The end of a transaction that has changed something. */
  function Save(content: string): seq<Op> {
    [TruncateTmp] + WriteTmps(content) + [RenameTmp] + CommitNew(content)
  }

  // ---- single operations and the logical content

  /** The main file is not touched unless a ".new" file stands in for it, and is there whenever a
      ".new" file is. */
  ghost predicate Sound(d: Disk) {
    d.next.Some? ==> d.main.Some?
  }

  /** Every operation of a list keeps the logical content, wherever the list is cut off. */
  ghost predicate Keeps(d: Disk, ops: seq<Op>) {
    forall k :: 0 <= k <= |ops| ==> Logical(ApplyAll(d, ops[..k])) == Logical(d) && Sound(ApplyAll(d, ops[..k]))
  }

  lemma KeepsAppend(d: Disk, a: seq<Op>, b: seq<Op>)
    requires Keeps(d, a) && Keeps(ApplyAll(d, a), b)
    ensures Keeps(d, a + b)
  {
    assert a[..|a|] == a;
    forall k | 0 <= k <= |a + b|
      ensures Logical(ApplyAll(d, (a + b)[..k])) == Logical(d) && Sound(ApplyAll(d, (a + b)[..k]))
    {
      if k <= |a| {
        assert (a + b)[..k] == a[..k];
      } else {
        assert (a + b)[..k] == a + b[..k - |a|];
        ApplyAppend(d, a, b[..k - |a|]);
        assert Logical(ApplyAll(d, a[..|a|])) == Logical(d);
      }
    }
  }

  lemma KeepsOne(d: Disk, op: Op)
    requires Sound(d) && Logical(Apply(d, op)) == Logical(d) && Sound(Apply(d, op))
    ensures Keeps(d, [op]) && ApplyAll(d, [op]) == Apply(d, op)
  {
    assert [op][..0] == [] && [op][..1] == [op];
    assert ApplyAll(d, [op]) == Apply(ApplyAll(d, []), op);
    forall k | 0 <= k <= 1
      ensures Logical(ApplyAll(d, [op][..k])) == Logical(d) && Sound(ApplyAll(d, [op][..k]))
    {
    }
  }

  lemma {:induction false} WriteMainsWrites(d: Disk, s: string)
    requires d.main.Some?
    ensures ApplyAll(d, WriteMains(s)) == d.(main := Some(d.main.value + s))
    decreases |s|
  {
    if s == "" {
      assert d.main.value + s == d.main.value;
    } else {
      var init := s[..|s| - 1];
      WriteMainsWrites(d, init);
      assert WriteMains(s)[..|s| - 1] == WriteMains(init);
      assert d.main.value + init + [s[|s| - 1]] == d.main.value + s;
    }
  }

  lemma {:induction false} WriteTmpsWrites(d: Disk, s: string)
    requires d.tmp.Some?
    ensures ApplyAll(d, WriteTmps(s)) == d.(tmp := Some(d.tmp.value + s))
    decreases |s|
  {
    if s == "" {
      assert d.tmp.value + s == d.tmp.value;
    } else {
      var init := s[..|s| - 1];
      WriteTmpsWrites(d, init);
      assert WriteTmps(s)[..|s| - 1] == WriteTmps(init);
      assert d.tmp.value + init + [s[|s| - 1]] == d.tmp.value + s;
    }
  }

  lemma WritesKeep(d: Disk, s: string)
    requires Sound(d)
    ensures d.next.Some? ==> Keeps(d, WriteMains(s))
    ensures d.tmp.Some? ==> Keeps(d, WriteTmps(s))
  {
    forall k | 0 <= k <= |s|
      ensures d.next.Some? ==> Logical(ApplyAll(d, WriteMains(s)[..k])) == Logical(d)
      ensures d.next.Some? ==> Sound(ApplyAll(d, WriteMains(s)[..k]))
      ensures d.tmp.Some? ==> Logical(ApplyAll(d, WriteTmps(s)[..k])) == Logical(d)
      ensures d.tmp.Some? ==> Sound(ApplyAll(d, WriteTmps(s)[..k]))
    {
      assert WriteMains(s)[..k] == WriteMains(s[..k]) && WriteTmps(s)[..k] == WriteTmps(s[..k]);
      if d.next.Some? { WriteMainsWrites(d, s[..k]); }
      if d.tmp.Some? { WriteTmpsWrites(d, s[..k]); }
    }
  }

  /** commit_new keeps the logical content wherever it is cut off, and leaves it in the store's
      file alone. */
  lemma CommitNewKeeps(d: Disk, content: string)
    requires Sound(d) && d.next == Some(content)
    ensures Keeps(d, CommitNew(content))
    ensures ApplyAll(d, CommitNew(content)) == d.(main := Some(content), next := None)
  {
    var d1 := d.(main := Some(""));
    var d2 := d.(main := Some(content));
    KeepsOne(d, TruncateMain);
    WritesKeep(d1, content);
    WriteMainsWrites(d1, content);
    assert "" + content == content;
    KeepsOne(d2, UnlinkNew);
    KeepsAppend(d, [TruncateMain], WriteMains(content));
    ApplyAppend(d, [TruncateMain], WriteMains(content));
    KeepsAppend(d, [TruncateMain] + WriteMains(content), [UnlinkNew]);
    ApplyAppend(d, [TruncateMain] + WriteMains(content), [UnlinkNew]);
  }

  /** Opening the store, recovery included, keeps the logical content; finished recovery leaves
      the store's file equal to it. */
  lemma BeginKeeps(d: Disk)
    requires Sound(d)
    ensures Keeps(d, Begin(d))
    ensures ApplyAll(d, Begin(d)) == d.(main := Some(Logical(d)), next := None)
  {
    KeepsOne(d, OpenMain);
    var d1 := Apply(d, OpenMain);
    if d.next.Some? {
      CommitNewKeeps(d1, d.next.value);
      KeepsAppend(d, [OpenMain], CommitNew(d.next.value));
      ApplyAppend(d, [OpenMain], CommitNew(d.next.value));
    } else {
      assert [OpenMain] + [] == [OpenMain];
    }
  }

  /** Where a transaction that saves content renames its file. */
  function RenameAt(content: string): nat { |content| + 2 }

  /** Up to the rename the old content stands, in whatever state the ".tmp" file is. */
  lemma SaveTmp(d: Disk, content: string)
    requires d.main.Some? && d.next.None?
    ensures Keeps(d, [TruncateTmp] + WriteTmps(content))
    ensures ApplyAll(d, [TruncateTmp] + WriteTmps(content)) == d.(tmp := Some(content))
  {
    var d1 := d.(tmp := Some(""));
    KeepsOne(d, TruncateTmp);
    WritesKeep(d1, content);
    WriteTmpsWrites(d1, content);
    assert "" + content == content;
    KeepsAppend(d, [TruncateTmp], WriteTmps(content));
    ApplyAppend(d, [TruncateTmp], WriteTmps(content));
  }

  /** From the rename on the new content stands. */
  lemma SaveNew(d: Disk, content: string, j: nat)
    requires d.main.Some? && d.next.None? && d.tmp == Some(content) && j <= |CommitNew(content)|
    ensures Logical(ApplyAll(d, [RenameTmp] + CommitNew(content)[..j])) == content
    ensures Sound(ApplyAll(d, [RenameTmp] + CommitNew(content)[..j]))
    ensures ApplyAll(d, [RenameTmp] + CommitNew(content)) == Disk(Some(content), None, None)
  {
    var d' := d.(next := Some(content), tmp := None);
    assert [RenameTmp][..0] == [];
    assert ApplyAll(d, [RenameTmp]) == Apply(ApplyAll(d, []), RenameTmp) == d';
    CommitNewKeeps(d', content);
    ApplyAppend(d, [RenameTmp], CommitNew(content)[..j]);
    ApplyAppend(d, [RenameTmp], CommitNew(content));
  }

  /** Saving, cut off after k operations: the old content up to the rename, the new one from it on. */
  lemma SaveFlips(d: Disk, content: string, k: nat)
    requires d.main.Some? && d.next.None? && k <= |Save(content)|
    ensures Logical(ApplyAll(d, Save(content)[..k])) == if k < RenameAt(content) then Logical(d) else content
    ensures Sound(ApplyAll(d, Save(content)[..k]))
    ensures ApplyAll(d, Save(content)) == Disk(Some(content), None, None)
  {
    var first, commit := [TruncateTmp] + WriteTmps(content), CommitNew(content);
    var d2 := d.(tmp := Some(content));
    assert Save(content) == first + ([RenameTmp] + commit);
    SaveTmp(d, content);
    ApplyAppend(d, first, [RenameTmp] + commit);
    if k <= |first| {
      assert Save(content)[..k] == first[..k];
      SaveNew(d2, content, 0);
    } else {
      var j := k - |first| - 1;
      assert Save(content)[..k] == first + ([RenameTmp] + commit[..j]);
      ApplyAppend(d, first, [RenameTmp] + commit[..j]);
      SaveNew(d2, content, j);
    }
  }
}

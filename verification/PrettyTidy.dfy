/**
 What the queue and the arena of groups keep besides the layout invariant: an unbroken group waits in
 the queue without pending hints only while it is open, groups are filed in the order in which they
 were opened, and a printed newline belongs to a broken group.
 */
module PrettyTidy {
  import opened Common
  import opened PrettyCalls
  import opened PrettyState
  import opened PrettyInvariant

  ghost predicate Waits(s: State, g: nat)
    requires g < |s.groups|
  {
    IsQueued(s.groups, s.queue, g) && !s.groups[g].broke && s.groups[g].breakables == []
  }

  ghost predicate Idle(s: State)
    requires Wf(s)
  {
    forall g :: 0 <= g < |s.groups| && Waits(s, g) ==> g in s.stack
  }

  predicate Ascending(row: seq<nat>) {
    forall i, j :: 0 <= i < j < |row| ==> row[i] < row[j]
  }

  ghost predicate RowsAscend(queue: seq<seq<nat>>) {
    forall d :: 0 <= d < |queue| ==> Ascending(queue[d])
  }

  /** Of two buffered hints at one depth the later one is not in an earlier group. */
  ghost predicate HintsAscend(s: State)
    requires Wf(s)
  {
    forall i, j :: 0 <= i < j < |s.buffer| && Level(s, i, j) ==> s.buffer[i].group <= s.buffer[j].group
  }

  ghost predicate Level(s: State, i: nat, j: nat)
    requires Wf(s) && i < |s.buffer| && j < |s.buffer|
  {
    && s.buffer[i].Breakable? && s.buffer[j].Breakable?
    && s.groups[s.buffer[i].group].depth == s.groups[s.buffer[j].group].depth
  }

  /** The groups opened since a group that is still open are inside it, and no group is inside a later one. */
  ghost predicate OpenedInside(s: State)
    requires |s.paths| == |s.groups|
  {
    && (forall k, h :: 0 <= k < |s.stack| && s.stack[k] <= h < |s.paths| ==>
          k < |s.paths[h]| && s.paths[h][k] == s.stack[k])
    && (forall h, k :: 0 <= h < |s.paths| && 0 <= k < |s.paths[h]| ==> s.paths[h][k] <= h)
  }

  ghost predicate Marked(s: State) {
    forall i :: 0 <= i < |s.log| && Newlined(s.log[i]) ==> s.log[i].group < |s.groups| && s.groups[s.log[i].group].broke
  }

  ghost predicate Tidy(s: State) {
    Wf(s) && Idle(s) && RowsAscend(s.queue) && HintsAscend(s) && OpenedInside(s) && Marked(s)
  }

  // ---- printing

  lemma {:induction false} WithoutAscends(row: seq<nat>, g: nat)
    requires Ascending(row)
    ensures Ascending(Without(row, g))
  {
    if row != [] {
      var rest := Without(row[1..], g);
      WithoutAscends(row[1..], g);
      assert forall j :: 0 <= j < |rest| ==> rest[j] in row[1..];
      LargerThanFirst(row);
      if row[0] != g { FirstAscends(row[0], rest); }
    }
  }

  lemma LargerThanFirst(row: seq<nat>)
    requires Ascending(row) && row != []
    ensures forall x :: x in row[1..] ==> row[0] < x
  {
  }

  lemma FirstAscends(x: nat, rest: seq<nat>)
    requires Ascending(rest) && forall j :: 0 <= j < |rest| ==> x < rest[j]
    ensures Ascending([x] + rest)
  {
  }

  lemma OutputIdle(s: State)
    requires Wf(s) && Idle(s) && s.buffer != []
    ensures Wf(Output(s)) && Idle(Output(s))
  {
    var r := Output(s);
    OutputQueue(s);
    forall g | 0 <= g < |r.groups| && Waits(r, g)
      ensures g in r.stack
    {
      assert r.groups[g].broke == s.groups[g].broke;
      assert Hinted(s.buffer[0], g) || Waits(s, g);
    }
  }

  lemma OutputRows(s: State)
    requires Wf(s) && RowsAscend(s.queue) && s.buffer != []
    ensures RowsAscend(Output(s).queue)
  {
    if s.buffer[0].Breakable? {
      var g := s.buffer[0].group;
      WithoutAscends(s.queue[s.groups[g].depth], g);
    }
  }

  /** Printing an item leaves the depths, and which groups are broken. */
  lemma OutputDepths(s: State)
    requires Wf(s) && s.buffer != []
    ensures var r := Output(s);
            Wf(r) && |r.groups| == |s.groups| &&
              forall g :: 0 <= g < |s.groups| ==>
                r.groups[g].depth == s.groups[g].depth && r.groups[g].broke == s.groups[g].broke
  {
    OutputWf(s);
  }

  lemma OutputHints(s: State)
    requires Wf(s) && HintsAscend(s) && s.buffer != []
    ensures Wf(Output(s)) && HintsAscend(Output(s))
  {
    var r := Output(s);
    OutputDepths(s);
    forall i, j | 0 <= i < j < |r.buffer| && Level(r, i, j)
      ensures r.buffer[i].group <= r.buffer[j].group
    {
      assert r.buffer[i] == s.buffer[i + 1] && r.buffer[j] == s.buffer[j + 1];
      assert Level(s, i + 1, j + 1);
    }
  }

  lemma OutputMarked(s: State)
    requires Wf(s) && Marked(s) && s.buffer != []
    ensures Marked(Output(s))
  {
    var r := Output(s);
    OutputDepths(s);
    forall i | 0 <= i < |r.log| && Newlined(r.log[i])
      ensures r.log[i].group < |r.groups| && r.groups[r.log[i].group].broke
    {
      assert i < |s.log| ==> r.log[i] == s.log[i];
    }
  }

  lemma OutputTidy(s: State)
    requires Tidy(s) && s.buffer != []
    ensures Tidy(Output(s))
  {
    OutputIdle(s);
    OutputRows(s);
    OutputHints(s);
    OutputMarked(s);
  }

  lemma {:induction false} OutputGroupTidy(s: State, g: nat)
    requires Tidy(s)
    ensures Tidy(OutputGroup(s, g))
    decreases |s.buffer|
  {
    if Lookup(s.groups, g).breakables != [] && s.buffer != [] {
      OutputTidy(s);
      OutputGroupTidy(Output(s), g);
    }
  }

  lemma {:induction false} OutputTextsTidy(s: State)
    requires Tidy(s)
    ensures Tidy(OutputTexts(s))
    decreases |s.buffer|
  {
    if s.buffer != [] && s.buffer[0].Text? {
      OutputTidy(s);
      OutputTextsTidy(Output(s));
    }
  }

  lemma {:induction false} OutputAllTidy(s: State)
    requires Tidy(s)
    ensures Tidy(OutputAll(s))
    decreases |s.buffer|
  {
    if s.buffer != [] {
      OutputTidy(s);
      OutputAllTidy(Output(s));
    }
  }

  // ---- breaking

  /** Where deq stops: behind the group it takes, no group of the row has a pending hint. */
  ghost predicate TakenLast(groups: seq<Group>, queue: seq<seq<nat>>, t: nat) {
    exists d, i :: 0 <= d < |queue| && 0 <= i < |queue[d]| && queue[d][i] == t && NonePending(groups, queue[d], i)
  }

  ghost predicate NonePending(groups: seq<Group>, row: seq<nat>, i: nat) {
    forall j :: i < j < |row| ==> Lookup(groups, row[j]).breakables == []
  }

  lemma {:induction false} DeqRows(groups: seq<Group>, queue: seq<seq<nat>>, d: nat, r: Dequeued)
    requires RowsAscend(queue) && r == DeqFrom(groups, queue, d)
    ensures RowsAscend(r.queue)
    ensures r.found.Some? ==> TakenLast(groups, queue, r.found.value)
    decreases |queue| - d
  {
    if d < |queue| {
      var row, last := queue[d], LastPending(groups, queue[d]);
      if last.Some? {
        var i := last.value;
        assert NonePending(groups, row, i);
        assert Ascending(row[..i] + row[i + 1..]);
      } else {
        DeqRows(BreakAll(groups, row), queue[d := []], d + 1, r);
        if r.found.Some? { TakenLater(groups, queue, d, r.found.value); }
      }
    }
  }

  lemma TakenLater(groups: seq<Group>, queue: seq<seq<nat>>, d: nat, t: nat)
    requires d < |queue| && TakenLast(BreakAll(groups, queue[d]), queue[d := []], t)
    ensures TakenLast(groups, queue, t)
  {
    var groups', queue' := BreakAll(groups, queue[d]), queue[d := []];
    var e, i :| 0 <= e < |queue'| && 0 <= i < |queue'[e]| && queue'[e][i] == t && NonePending(groups', queue'[e], i);
    assert queue'[e] == queue[e] && NonePending(groups, queue[e], i);
  }

  lemma DeqTidy(s: State)
    requires Tidy(s)
    ensures Tidy(Deq(s))
  {
    var d, r := DeqFrom(s.groups, s.queue, 0), Deq(s);
    DeqMeetsSpec(s.groups, s.queue, 0, d);
    DeqRows(s.groups, s.queue, 0, d);
    assert Wf(r);
    forall g | 0 <= g < |r.groups| && Waits(r, g)
      ensures g in r.stack
    {
      assert Waits(s, g);
    }
    assert forall i, j :: 0 <= i < j < |r.buffer| && Level(r, i, j) ==> Level(s, i, j);
  }

  lemma {:induction false} BreakOutmostTidy(maxwidth: int, s: State)
    requires Tidy(s)
    ensures Tidy(BreakOutmost(maxwidth, s))
    decreases QueueSize(s.queue)
  {
    if maxwidth < s.outputWidth + s.bufferWidth {
      DeqTidy(s);
      if Found(s).Some? {
        var t := Found(s).value;
        OutputGroupTidy(Deq(s), t);
        OutputTextsTidy(OutputGroup(Deq(s), t));
        BreakOutmostTidy(maxwidth, Round(Deq(s), t));
      }
    }
  }

  // ---- the calls

  lemma BufferTextTidy(s: State, obj: Obj, width: int)
    requires Tidy(s) && s.buffer != []
    ensures Tidy(BufferText(s, obj, width))
  {
    WithTextHints(s.buffer, obj, width);
    var r := BufferText(s, obj, width);
    assert Wf(r);
    assert forall g :: 0 <= g < |r.groups| && Waits(r, g) ==> Waits(s, g);
    assert forall i, j :: 0 <= i < j < |r.buffer| && Level(r, i, j) ==> j < |s.buffer| && Level(s, i, j);
  }

  lemma TextTidy(maxwidth: int, s: State, obj: Obj, width: int)
    requires Tidy(s)
    ensures Tidy(TextStep(maxwidth, s, obj, width))
  {
    if s.buffer == [] {
      SameTidy(s, PrintText(s, obj, width));
    } else {
      var t := BufferText(s, obj, width);
      BufferTextTidy(s, obj, width);
      BreakOutmostTidy(maxwidth, t);
      assert TextStep(maxwidth, s, obj, width) == BreakOutmost(maxwidth, t);
    }
  }

  /** The hints of the current depth are in the current group or in earlier ones. */
  lemma HintsBeforeTop(s: State, i: nat)
    requires Tidy(s) && Paths(s) && i < |s.buffer| && s.buffer[i].Breakable?
    requires s.groups[s.buffer[i].group].depth == |s.stack| - 1
    ensures s.buffer[i].group <= Top(s)
  {
    var g := s.buffer[i].group;
    assert s.paths[g][s.groups[g].depth] == g;
  }

  lemma PushHintHints(s: State, sep: Obj, width: int)
    requires Tidy(s) && Paths(s)
    ensures Wf(PushHint(s, sep, width)) && HintsAscend(PushHint(s, sep, width))
  {
    var r := PushHint(s, sep, width);
    assert Wf(r);
    forall i, j | 0 <= i < j < |r.buffer| && Level(r, i, j)
      ensures r.buffer[i].group <= r.buffer[j].group
    {
      if j < |s.buffer| { assert Level(s, i, j); } else { HintsBeforeTop(s, i); }
    }
  }

  lemma PushHintTidy(s: State, sep: Obj, width: int)
    requires Tidy(s) && Paths(s)
    ensures Tidy(PushHint(s, sep, width))
  {
    var r := PushHint(s, sep, width);
    PushHintHints(s, sep, width);
    forall g | 0 <= g < |r.groups| && Waits(r, g)
      ensures g in r.stack
    {
      assert Waits(s, g) || g == Top(s);
    }
  }

  /** Only output that is not a newline, widths and indentation changed. */
  lemma SameTidy(s: State, r: State)
    requires Tidy(s)
    requires r == s.(log := r.log, outputWidth := r.outputWidth, bufferWidth := r.bufferWidth, indent := r.indent)
    requires Marked(r)
    ensures Tidy(r)
  {
    assert forall g :: 0 <= g < |r.groups| && Waits(r, g) ==> Waits(s, g);
    assert forall i, j :: 0 <= i < j < |r.buffer| && Level(r, i, j) ==> Level(s, i, j);
  }

  lemma BreakLineTidy(s: State, sep: Obj, width: int)
    requires Tidy(s) && s.groups[Top(s)].broke
    ensures Tidy(BreakLine(s, sep, width))
  {
    SameTidy(s, BreakLine(s, sep, width));
  }

  lemma FlushTidy(s: State)
    requires Tidy(s)
    ensures Tidy(Flush(s))
    ensures forall g :: 0 <= g < |s.groups| ==> Flush(s).groups[g].broke == s.groups[g].broke
  {
    OutputAllTidy(s);
    OutputAllBreaksNone(s);
    SameTidy(OutputAll(s), Flush(s));
  }

  lemma {:induction false} OutputAllBreaksNone(s: State)
    ensures forall g :: 0 <= g < |s.groups| ==> OutputAll(s).groups[g].broke == s.groups[g].broke
    decreases |s.buffer|
  {
    if s.buffer != [] { OutputAllBreaksNone(Output(s)); }
  }

  lemma BreakableTidy(maxwidth: int, s: State, sep: Obj, width: int)
    requires Tidy(s) && Paths(s)
    ensures Tidy(BreakableStep(maxwidth, s, sep, width))
  {
    if s.groups[Top(s)].broke {
      FlushTidy(s);
      BreakLineTidy(Flush(s), sep, width);
    } else {
      PushHintTidy(s, sep, width);
      BreakOutmostTidy(maxwidth, PushHint(s, sep, width));
    }
  }

  lemma OpenGroupRows(s: State)
    requires Wf(s) && RowsAscend(s.queue)
    ensures RowsAscend(OpenGroup(s).queue)
  {
  }

  lemma OpenGroupHints(s: State)
    requires Wf(s) && HintsAscend(s)
    ensures Wf(OpenGroup(s)) && HintsAscend(OpenGroup(s))
  {
    var r := OpenGroup(s);
    OpenGroupWf(s);
    assert forall i, j :: 0 <= i < j < |r.buffer| && Level(r, i, j) ==> Level(s, i, j);
  }

  lemma OpenGroupInside(s: State)
    requires Wf(s) && OpenedInside(s)
    ensures OpenedInside(OpenGroup(s))
  {
    var r, g := OpenGroup(s), |s.groups|;
    forall k, h | 0 <= k < |r.stack| && r.stack[k] <= h < |r.paths|
      ensures k < |r.paths[h]| && r.paths[h][k] == r.stack[k]
    {
      if h < g { assert s.stack[k] == r.stack[k]; }
    }
  }

  lemma OpenGroupTidy(s: State)
    requires Tidy(s)
    ensures Tidy(OpenGroup(s))
  {
    var r := OpenGroup(s);
    OpenGroupWf(s);
    OpenGroupRows(s);
    OpenGroupHints(s);
    OpenGroupInside(s);
    forall g | 0 <= g < |r.groups| && Waits(r, g)
      ensures g in r.stack
    {
      if g < |s.groups| { assert Waits(s, g); } else { assert r.stack[|s.stack|] == g; }
    }
  }

  lemma CloseGroupTidy(s: State)
    requires Tidy(s)
    ensures Tidy(CloseGroup(s))
  {
    if |s.stack| > 1 {
      var r, g := CloseGroup(s), Top(s);
      CloseGroupQueue(s);
      WithoutAscends(s.queue[s.groups[g].depth], g);
      assert forall x :: x in s.stack && x != g ==> x in r.stack;
      assert forall x :: 0 <= x < |r.groups| && Waits(r, x) ==> Waits(s, x);
      assert forall i, j :: 0 <= i < j < |r.buffer| && Level(r, i, j) ==> Level(s, i, j);
    }
  }

  lemma IndentedTidy(s: State, indent: int)
    requires Tidy(s)
    ensures Tidy(Indented(s, indent))
  {
    SameTidy(s, Indented(s, indent));
  }

  lemma InitialTidy()
    ensures Tidy(INITIAL)
  {
    assert INITIAL.paths[0] == [0];
    assert 0 in INITIAL.stack;
  }
}

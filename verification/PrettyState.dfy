/**
 The state of the pretty printer and what one call does to it, as functions.
 The imperative printer in PrettyPrinter.dfy is proved equal to these functions;
 the layout theorems in PrettyLayout.dfy are proved about them.

 A group is named by its position in the arena `groups`; `paths[g]` is the chain of
 groups enclosing g, from the root to g itself, and never influences the printing.
 */
module PrettyState {
  import opened Common
  import opened PrettyCalls

  datatype Item =
    | Text(objs: seq<Obj>, width: int)
    | Breakable(obj: Obj, width: int, indent: int, group: nat)

  datatype Group = Group(depth: nat, breakables: seq<Item>, broke: bool)

  /** One item sent to the output; a printed hint remembers its group and how it came out. */
  datatype Piece =
    | Words(objs: seq<Obj>, width: int)
    | Hint(group: nat, sep: Obj, width: int, indent: int, broken: bool)

  datatype State = State(
    log: seq<Piece>,
    outputWidth: int,
    bufferWidth: int,
    buffer: seq<Item>,
    indent: int,
    stack: seq<nat>,
    groups: seq<Group>,
    queue: seq<seq<nat>>,
    paths: seq<seq<nat>>)

  const INITIAL := State([], 0, 0, [], 0, [0], [Group(0, [], false)], [[0]], [[0]])

  predicate Hinted(item: Item, g: nat) {
    item.Breakable? && item.group == g
  }

  ghost predicate RowInRange(row: seq<nat>, n: nat) {
    forall i :: 0 <= i < |row| ==> row[i] < n
  }

  ghost predicate InRange(queue: seq<seq<nat>>, n: nat) {
    forall d, i :: 0 <= d < |queue| && 0 <= i < |queue[d]| ==> queue[d][i] < n
  }

  /** Groups are filed under their own depth. */
  ghost predicate Filed(groups: seq<Group>, queue: seq<seq<nat>>) {
    && InRange(queue, |groups|)
    && (forall g :: 0 <= g < |groups| ==> groups[g].depth < |queue|)
    && (forall e, i :: 0 <= e < |queue| && 0 <= i < |queue[e]| ==> groups[queue[e][i]].depth == e)
  }

  /** Every group number that occurs is a group, filed under its own depth. */
  ghost predicate Wf(s: State) {
    && |s.paths| == |s.groups|
    && (forall i :: 0 <= i < |s.buffer| && s.buffer[i].Breakable? ==> s.buffer[i].group < |s.groups|)
    && Filed(s.groups, s.queue)
    && s.stack != []
    && (forall k :: 0 <= k < |s.stack| ==> s.stack[k] < |s.groups| && s.groups[s.stack[k]].depth == k)
  }

  /** Under Wf every lookup is in range; out of range these functions change nothing. */
  function Lookup(groups: seq<Group>, g: nat): Group {
    if g < |groups| then groups[g] else Group(0, [], false)
  }

  function Replace(groups: seq<Group>, g: nat, group: Group): seq<Group> {
    if g < |groups| then groups[g := group] else groups
  }

  function DropFirst(items: seq<Item>): seq<Item> {
    if items == [] then [] else items[1..]
  }

  function Without(row: seq<nat>, g: nat): (r: seq<nat>)
    ensures |r| <= |row|
    ensures forall x :: x in r <==> x in row && x != g
    ensures forall i :: 0 <= i < |r| ==> r[i] in row
  {
    if row == [] then [] else (if row[0] == g then [] else [row[0]]) + Without(row[1..], g)
  }

  /** Number of queued groups; each dequeued group lowers it. */
  function QueueSize(queue: seq<seq<nat>>): nat {
    if queue == [] then 0 else |queue[0]| + QueueSize(queue[1..])
  }

  lemma {:induction false} QueueSizeUpdate(q: seq<seq<nat>>, d: nat, row: seq<nat>)
    requires d < |q|
    ensures QueueSize(q[d := row]) == QueueSize(q) - |q[d]| + |row|
  {
    if d == 0 {
      assert q[d := row][1..] == q[1..];
    } else {
      assert q[d := row][1..] == q[1..][d - 1 := row];
      QueueSizeUpdate(q[1..], d - 1, row);
    }
  }

  /** GroupQueue#delete */
  function Delete(queue: seq<seq<nat>>, depth: nat, g: nat): (r: seq<seq<nat>>)
    ensures |r| == |queue| && QueueSize(r) <= QueueSize(queue)
  {
    if depth < |queue| then
      QueueSizeUpdate(queue, depth, Without(queue[depth], g));
      queue[depth := Without(queue[depth], g)]
    else queue
  }

  /** Printing never touches the nesting: open groups, indentation and group numbers stay. */
  ghost predicate SameNesting(s: State, r: State) {
    && r.stack == s.stack && r.indent == s.indent && r.paths == s.paths
    && |r.groups| == |s.groups| && |r.queue| == |s.queue|
  }

  /** Text#output and Breakable#output: what printing one buffered item does. */
  function Emit(s: State, item: Item): State {
    match item
    case Text(objs, width) =>
      s.(log := s.log + [Words(objs, width)], outputWidth := s.outputWidth + width)
    case Breakable(obj, width, indent, g) =>
      var group := Lookup(s.groups, g);
      var rest := DropFirst(group.breakables);
      var s' := s.(groups := Replace(s.groups, g, group.(breakables := rest)));
      if group.broke then
        s'.(log := s.log + [Hint(g, obj, width, indent, true)], outputWidth := indent)
      else
        s'.(queue := if rest == [] then Delete(s.queue, group.depth, g) else s.queue,
            log := s.log + [Hint(g, obj, width, indent, false)],
            outputWidth := s.outputWidth + width)
  }

  /** Print the first buffered item and take it out of the buffer. */
  function Output(s: State): (r: State)
    requires s.buffer != []
    ensures r.buffer == s.buffer[1..] && SameNesting(s, r) && QueueSize(r.queue) <= QueueSize(s.queue)
  {
    var item := s.buffer[0];
    Emit(s, item).(buffer := s.buffer[1..], bufferWidth := s.bufferWidth - item.width)
  }

  /** Prints items until the group has no breakable pending. */
  function OutputGroup(s: State, g: nat): (r: State)
    ensures SameNesting(s, r) && QueueSize(r.queue) <= QueueSize(s.queue)
    decreases |s.buffer|
  {
    if Lookup(s.groups, g).breakables == [] || s.buffer == [] then s else OutputGroup(Output(s), g)
  }

  /** Print the texts at the front of the buffer. */
  function OutputTexts(s: State): (r: State)
    ensures SameNesting(s, r) && QueueSize(r.queue) <= QueueSize(s.queue)
    decreases |s.buffer|
  {
    if s.buffer == [] || s.buffer[0].Breakable? then s else OutputTexts(Output(s))
  }

  /** PrettyPrint#flush prints every buffered item in order. */
  function OutputAll(s: State): (r: State)
    ensures r.buffer == [] && SameNesting(s, r)
    decreases |s.buffer|
  {
    if s.buffer == [] then s else OutputAll(Output(s))
  }

  function Flush(s: State): (r: State)
    ensures r.buffer == [] && SameNesting(s, r)
  {
    OutputAll(s).(bufferWidth := 0)
  }

  /** What PrettyPrint#flush does: print each item, then forget them. */
  function EmitAll(s: State, items: seq<Item>): State
    decreases |items|
  {
    if items == [] then s else EmitAll(Emit(s, items[0]), items[1..])
  }

  lemma {:induction false} OutputAllEmits(s: State, w: int, t: State)
    requires t == s.(buffer := t.buffer, bufferWidth := w)
    ensures OutputAll(s).(bufferWidth := 0) == EmitAll(t, s.buffer).(buffer := [], bufferWidth := 0)
    decreases |s.buffer|
  {
    if s.buffer != [] {
      OutputAllEmits(Output(s), w, Emit(t, s.buffer[0]));
    }
  }

  /** The last position of the row whose group still has a pending hint. */
  function LastPending(groups: seq<Group>, row: seq<nat>): (r: Option<nat>)
    ensures r.Some? ==> r.value < |row| && Lookup(groups, row[r.value]).breakables != []
    ensures r.None? ==> forall i :: 0 <= i < |row| ==> Lookup(groups, row[i]).breakables == []
    ensures r.Some? ==> forall i :: r.value < i < |row| ==> Lookup(groups, row[i]).breakables == []
  {
    if row == [] then None
    else
      var n := |row| - 1;
      if Lookup(groups, row[n]).breakables != [] then Some(n) else LastPending(groups, row[..n])
  }

  function BreakAll(groups: seq<Group>, row: seq<nat>): (r: seq<Group>)
    ensures |r| == |groups|
    ensures forall g :: 0 <= g < |groups| ==> r[g] == groups[g].(broke := groups[g].broke || g in row)
  {
    seq(|groups|, g requires 0 <= g < |groups| => groups[g].(broke := groups[g].broke || g in row))
  }

  datatype Dequeued = Dequeued(groups: seq<Group>, queue: seq<seq<nat>>, found: Option<nat>)

  /** GroupQueue#deq from row d on: break the outermost group with a pending hint. */
  function DeqFrom(groups: seq<Group>, queue: seq<seq<nat>>, d: nat): (r: Dequeued)
    ensures |r.groups| == |groups| && |r.queue| == |queue|
    ensures r.found.Some? ==> QueueSize(r.queue) < QueueSize(queue)
    decreases |queue| - d
  {
    if d >= |queue| then Dequeued(groups, queue, None)
    else
      var last := LastPending(groups, queue[d]);
      if last.Some? then
        var i := last.value;
        var g := queue[d][i];
        QueueSizeUpdate(queue, d, queue[d][..i] + queue[d][i + 1..]);
        Dequeued(Replace(groups, g, Lookup(groups, g).(broke := true)),
                 queue[d := queue[d][..i] + queue[d][i + 1..]],
                 Some(g))
      else
        QueueSizeUpdate(queue, d, []);
        DeqFrom(BreakAll(groups, queue[d]), queue[d := []], d + 1)
  }

  ghost predicate IsQueued(groups: seq<Group>, queue: seq<seq<nat>>, g: nat)
    requires g < |groups|
  {
    groups[g].depth < |queue| && g in queue[groups[g].depth]
  }

  /** The row deq stops in; all rows when it finds nothing. */
  ghost function StopRow(groups: seq<Group>, queue: seq<seq<nat>>, found: Option<nat>): nat {
    if found.Some? && found.value < |groups| then groups[found.value].depth else |queue|
  }

  /** What DeqFrom does: the rows before the stop row had nothing pending, and exactly
      their groups and the found group become broken and leave the queue. */
  ghost predicate DeqSpec(groups: seq<Group>, queue: seq<seq<nat>>, d: nat, r: Dequeued) {
    var stop := StopRow(groups, queue, r.found);
    && |r.groups| == |groups| && |r.queue| == |queue|
    && (r.found.Some? ==>
          var x := r.found.value;
          && x < |groups| && d <= stop < |queue| && x in queue[stop] && groups[x].breakables != [])
    && (forall g :: 0 <= g < |groups| ==>
          r.groups[g] == groups[g].(broke := groups[g].broke || r.found == Some(g)
                                             || (IsQueued(groups, queue, g) && d <= groups[g].depth < stop)))
    && (forall g :: 0 <= g < |groups| && IsQueued(groups, queue, g) && d <= groups[g].depth < stop ==>
        groups[g].breakables == [])
    && (forall g :: 0 <= g < |groups| && IsQueued(groups, r.queue, g) ==> IsQueued(groups, queue, g))
    && (forall g ::
          0 <= g < |groups| && IsQueued(groups, queue, g) && r.found != Some(g) && !(d <= groups[g].depth < stop) ==>
          IsQueued(groups, r.queue, g))
  }

  lemma DeqStops(groups: seq<Group>, queue: seq<seq<nat>>, d: nat, i: nat)
    requires d < |queue| && Filed(groups, queue) && i < |queue[d]|
    requires Lookup(groups, queue[d][i]).breakables != []
    ensures var g := queue[d][i];
            var r := Dequeued(groups[g := groups[g].(broke := true)],
                              queue[d := queue[d][..i] + queue[d][i + 1..]], Some(g));
            DeqSpec(groups, queue, d, r) && Filed(r.groups, r.queue)
  {
    var row, g := queue[d], queue[d][i];
    var row' := row[..i] + row[i + 1..];
    var queue' := queue[d := row'];
    assert forall k :: 0 <= k < |row'| ==> row'[k] == row[if k < i then k else k + 1];
    forall x | x in row && x != g
      ensures x in row'
    {
      var k :| 0 <= k < |row| && row[k] == x;
      assert row'[if k < i then k else k - 1] == x;
    }
    assert forall x :: x in row' ==> x in row;
    assert forall x :: 0 <= x < |groups| && IsQueued(groups, queue', x) ==> IsQueued(groups, queue, x);
    assert forall x :: 0 <= x < |groups| && IsQueued(groups, queue, x) && x != g ==> IsQueued(groups, queue', x);
  }

  lemma DeqSkips(groups: seq<Group>, queue: seq<seq<nat>>, d: nat, r: Dequeued)
    requires d < |queue| && Filed(groups, queue)
    requires forall i :: 0 <= i < |queue[d]| ==> Lookup(groups, queue[d][i]).breakables == []
    requires DeqSpec(BreakAll(groups, queue[d]), queue[d := []], d + 1, r)
    ensures DeqSpec(groups, queue, d, r)
  {
    var groups', queue' := BreakAll(groups, queue[d]), queue[d := []];
    assert StopRow(groups', queue', r.found) == StopRow(groups, queue, r.found);
    assert forall g :: 0 <= g < |groups| ==>
      (IsQueued(groups', queue', g) <==> IsQueued(groups, queue, g) && groups[g].depth != d);
    assert forall g :: 0 <= g < |groups| ==> (IsQueued(groups', r.queue, g) <==> IsQueued(groups, r.queue, g));
  }

  lemma DeqEnds(groups: seq<Group>, queue: seq<seq<nat>>)
    ensures DeqSpec(groups, queue, |queue|, Dequeued(groups, queue, None))
  {
  }

  lemma {:induction false} DeqMeetsSpec(groups: seq<Group>, queue: seq<seq<nat>>, d: nat, r: Dequeued)
    requires d <= |queue| && Filed(groups, queue)
    requires r == DeqFrom(groups, queue, d)
    ensures DeqSpec(groups, queue, d, r)
    ensures Filed(r.groups, r.queue)
    decreases |queue| - d
  {
    if d == |queue| {
      DeqEnds(groups, queue);
    } else {
      var last := LastPending(groups, queue[d]);
      if last.Some? {
        DeqStops(groups, queue, d, last.value);
      } else {
        var groups', queue' := BreakAll(groups, queue[d]), queue[d := []];
        assert Filed(groups', queue');
        DeqMeetsSpec(groups', queue', d + 1, r);
        DeqSkips(groups, queue, d, r);
      }
    }
  }

  function Deq(s: State): (r: State)
    ensures SameNesting(s, r)
  {
    var r := DeqFrom(s.groups, s.queue, 0);
    s.(groups := r.groups, queue := r.queue)
  }

  function Found(s: State): Option<nat> {
    DeqFrom(s.groups, s.queue, 0).found
  }

  /** One round of break_outmost_groups: the broken group's hints, then the texts behind them. */
  function Round(s: State, g: nat): (r: State)
    ensures QueueSize(r.queue) <= QueueSize(s.queue) && SameNesting(s, r)
  {
    OutputTexts(OutputGroup(s, g))
  }

  /** PrettyPrint#break_outmost_groups */
  function BreakOutmost(maxwidth: int, s: State): (r: State)
    ensures SameNesting(s, r)
    decreases QueueSize(s.queue)
  {
    if maxwidth >= s.outputWidth + s.bufferWidth then s
    else if Found(s).None? then Deq(s)
    else BreakOutmost(maxwidth, Round(Deq(s), Found(s).value))
  }

  function Top(s: State): nat {
    if s.stack == [] then 0 else s.stack[|s.stack| - 1]
  }

  /** The buffer after adding a text: joined to a text that is already last. */
  function WithText(buffer: seq<Item>, obj: Obj, width: int): seq<Item>
    requires buffer != []
  {
    var n := |buffer| - 1;
    if buffer[n].Text? then buffer[n := Text(buffer[n].objs + [obj], buffer[n].width + width)]
    else buffer + [Text([obj], width)]
  }

  function PrintText(s: State, obj: Obj, width: int): State {
    s.(log := s.log + [Words([obj], width)], outputWidth := s.outputWidth + width)
  }

  function BufferText(s: State, obj: Obj, width: int): State
    requires s.buffer != []
  {
    s.(buffer := WithText(s.buffer, obj, width), bufferWidth := s.bufferWidth + width)
  }

  function TextStep(maxwidth: int, s: State, obj: Obj, width: int): (r: State)
    ensures SameNesting(s, r)
  {
    if s.buffer == [] then PrintText(s, obj, width)
    else BreakOutmost(maxwidth, BufferText(s, obj, width))
  }

  /** Breakable.new registers the hint with the current group before it is buffered. */
  function PushHint(s: State, sep: Obj, width: int): (r: State)
    ensures SameNesting(s, r)
  {
    var g := Top(s);
    var group := Lookup(s.groups, g);
    var item := Breakable(sep, width, s.indent, g);
    s.(buffer := s.buffer + [item],
       bufferWidth := s.bufferWidth + width,
       groups := Replace(s.groups, g, group.(breakables := group.breakables + [item])))
  }

  /** The newline printed at once when the current group is already broken. */
  function BreakLine(s: State, sep: Obj, width: int): (r: State)
    ensures SameNesting(s, r)
  {
    s.(log := s.log + [Hint(Top(s), sep, width, s.indent, true)], outputWidth := s.indent, bufferWidth := 0)
  }

  function BreakableStep(maxwidth: int, s: State, sep: Obj, width: int): (r: State)
    ensures SameNesting(s, r)
  {
    if Lookup(s.groups, Top(s)).broke then BreakLine(Flush(s), sep, width)
    else BreakOutmost(maxwidth, PushHint(s, sep, width))
  }

  /** GroupQueue#enq */
  function Enq(queue: seq<seq<nat>>, depth: nat, g: nat): seq<seq<nat>> {
    var q := if depth < |queue| then queue else queue + seq(depth + 1 - |queue|, _ => []);
    q[depth := q[depth] + [g]]
  }

  lemma EnqRows(queue: seq<seq<nat>>, depth: nat, g: nat)
    ensures var r := Enq(queue, depth, g);
            && depth < |r| && |queue| <= |r|
            && (forall d, x :: 0 <= d < |r| ==>
                  (x in r[d] <==> (d < |queue| && x in queue[d]) || (d == depth && x == g)))
  {
  }

  function OpenGroup(s: State): State {
    var g := |s.groups|;
    var depth := Lookup(s.groups, Top(s)).depth + 1;
    s.(groups := s.groups + [Group(depth, [], false)],
       paths := s.paths + [s.stack + [g]],
       stack := s.stack + [g],
       queue := Enq(s.queue, depth, g))
  }

  /** Leaving a group; the root group is never left. */
  function CloseGroup(s: State): State {
    var g := Top(s);
    var group := Lookup(s.groups, g);
    if |s.stack| <= 1 then s
    else
      s.(stack := s.stack[..|s.stack| - 1],
         queue := if group.breakables == [] then Delete(s.queue, group.depth, g) else s.queue)
  }

  function Indented(s: State, indent: int): State {
    s.(indent := indent)
  }

  /** The pretty printer as a printer of blocks. */
  function Pretty(maxwidth: int): Printer<State> {
    Printer(
      (s: State, obj: Obj, width: int) => TextStep(maxwidth, s, obj, width),
      (s: State, sep: Obj, width: int) => BreakableStep(maxwidth, s, sep, width),
      (s: State) => OpenGroup(s),
      (s: State) => CloseGroup(s),
      (s: State, amount: int) => Indented(s, s.indent + amount),
      (s: State, amount: int) => Indented(s, s.indent - amount))
  }

  /** The state after a block run on a new printer, before the flush. */
  function Printed(maxwidth: int, calls: Calls): State {
    Run(Pretty(maxwidth), INITIAL, calls)
  }

  /** PrettyPrint.format: run the block on a new printer, then flush. */
  function Format(maxwidth: int, calls: Calls): State {
    Flush(Printed(maxwidth, calls))
  }
}

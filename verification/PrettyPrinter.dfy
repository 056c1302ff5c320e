/**
 The pretty printer as the object it is: its fields are updated in place, its loops shift the
 buffer and walk the queue. Each method is proved to do what its function in PrettyState does.
 */
module PrettyPrinter {
  import opened Common
  import opened PrettyCalls
  import opened PrettyState
  import opened PrettyInvariant
  import opened PrettyLayout

  class PrettyPrint {
    var output: seq<Token>
    const maxwidth: int
    var outputWidth: int
    var bufferWidth: int
    var buffer: seq<Item>
    var indent: int
    var groupStack: seq<nat>
    var groups: seq<Group>
    var queue: seq<seq<nat>>
    // which hint of which group each printed token came from, and the groups around each group
    ghost var log: seq<Piece>
    ghost var paths: seq<seq<nat>>

    ghost function St(): State
      reads this
    {
      State(log, outputWidth, bufferWidth, buffer, indent, groupStack, groups, queue, paths)
    }

    ghost predicate Valid()
      reads this
    {
      output == Render(log) && Good(maxwidth, St())
    }

    constructor (maxwidth: int)
      ensures Valid() && St() == INITIAL && output == [] && this.maxwidth == maxwidth
    {
      this.maxwidth := maxwidth;
      output, outputWidth, bufferWidth, buffer, indent := [], 0, 0, [], 0;
      groupStack, groups, queue := [0], [Group(0, [], false)], [[0]];
      log, paths := [], [[0]];
      new;
      InitialInv();
    }

    /** Record what was just written. */
    ghost method Record(piece: Piece, before: seq<Token>)
      requires before == Render(log) && output == before + PieceTokens(piece)
      modifies `log
      ensures log == old(log) + [piece] && output == Render(log)
    {
      RenderPush(log, piece);
      log := log + [piece];
    }

    /** Writes the objects of one text. */
    method WriteObjs(objs: seq<Obj>, ghost width: int)
      modifies `output
      ensures output == old(output) + PieceTokens(Words(objs, width))
    {
      ghost var tokens := PieceTokens(Words(objs, width));
      var k := 0;
      while k < |objs|
        invariant 0 <= k <= |objs| && output == old(output) + tokens[..k]
      {
        output := output + [Out(objs[k])];
        k := k + 1;
      }
      assert tokens[..k] == tokens;
    }

    /** Text#output */
    method OutputText(objs: seq<Obj>, width: int)
      requires output == Render(log)
      modifies `output, `outputWidth, `log
      ensures output == Render(log) && St() == Emit(old(St()), Item.Text(objs, width))
    {
      WriteObjs(objs, width);
      Record(Words(objs, width), old(output));
      outputWidth := outputWidth + width;
    }

    /** Breakable#output */
    method OutputBreakable(obj: Obj, width: int, indent: int, g: nat)
      requires output == Render(log) && g < |groups|
      modifies `output, `outputWidth, `log, `groups, `queue
      ensures output == Render(log) && St() == Emit(old(St()), Item.Breakable(obj, width, indent, g))
    {
      ghost var s := St();
      var group := groups[g];
      groups := groups[g := group.(breakables := DropFirst(group.breakables))];
      if group.broke {
        EmitBroken(s, obj, width, indent, g);
        WriteNewline(obj, width, indent, g);
      } else {
        EmitUnbroken(s, obj, width, indent, g);
        if groups[g].breakables == [] {
          queue := Delete(queue, group.depth, g);
        }
        WriteSeparator(obj, width, indent, g);
      }
    }

    /** A breakable printed as a newline and the indentation. */
    method WriteNewline(obj: Obj, width: int, indent: int, g: nat)
      requires output == Render(log)
      modifies `output, `outputWidth, `log
      ensures output == Render(log) && log == old(log) + [Hint(g, obj, width, indent, true)] && outputWidth == indent
    {
      output := output + [Newline] + [Space(indent)];
      assert old(output) + [Newline] + [Space(indent)] == old(output) + [Newline, Space(indent)];
      Record(Hint(g, obj, width, indent, true), old(output));
      outputWidth := indent;
    }

    /** A breakable printed as its separator. */
    method WriteSeparator(obj: Obj, width: int, indent: int, g: nat)
      requires output == Render(log)
      modifies `output, `outputWidth, `log
      ensures output == Render(log) && log == old(log) + [Hint(g, obj, width, indent, false)]
      ensures outputWidth == old(outputWidth) + width
    {
      output := output + [Out(obj)];
      Record(Hint(g, obj, width, indent, false), old(output));
      outputWidth := outputWidth + width;
    }

    method OutputItem(item: Item)
      requires output == Render(log) && (item.Breakable? ==> item.group < |groups|)
      modifies `output, `outputWidth, `log, `groups, `queue
      ensures output == Render(log) && St() == Emit(old(St()), item)
    {
      match item {
        case Text(objs, width) => OutputText(objs, width);
        case Breakable(obj, width, indent, g) => OutputBreakable(obj, width, indent, g);
      }
    }

    /** Prints the first item of the buffer and takes it off the buffer's width. */
    method ShiftOutput()
      requires output == Render(log) && buffer != []
      requires buffer[0].Breakable? ==> buffer[0].group < |groups|
      modifies this
      ensures output == Render(log) && St() == PrettyState.Output(old(St()))
    {
      ghost var s := St();
      var data := buffer[0];
      buffer := buffer[1..];
      OutputItem(data);
      bufferWidth := bufferWidth - data.width;
      EmitIgnoresBuffer(s, s.buffer[1..], data);
      assert St() == Emit(s, data).(buffer := s.buffer[1..], bufferWidth := s.bufferWidth - data.width);
    }

    /** The until loop of break_outmost_groups. */
    method OutputGroupItems(g: nat)
      requires output == Render(log) && Core(St()) && g < |groups|
      modifies this
      ensures output == Render(log) && St() == OutputGroup(old(St()), g) && Core(St())
    {
      ghost var s := St();
      while groups[g].breakables != []
        invariant output == Render(log) && Core(St()) && |groups| == |old(groups)|
        invariant OutputGroup(St(), g) == OutputGroup(s, g)
        decreases |buffer|
      {
        ghost var now := St();
        assert now.groups[g].breakables == Of(now.buffer, g);
        OutputCore(now);
        ShiftOutput();
      }
    }

    /** The loop printing the texts behind the broken group. */
    method OutputTextItems()
      requires output == Render(log)
      modifies this
      ensures output == Render(log) && St() == OutputTexts(old(St()))
    {
      ghost var s := St();
      while buffer != [] && buffer[0].Text?
        invariant output == Render(log) && OutputTexts(St()) == OutputTexts(s)
        decreases |buffer|
      {
        ShiftOutput();
      }
    }

    /** The search of GroupQueue#deq in one row, from its end. */
    method FindPending(gs: seq<nat>) returns (found: Option<nat>)
      requires RowInRange(gs, |groups|)
      ensures found == LastPending(groups, gs)
    {
      var i := |gs|;
      assert gs[..i] == gs;
      while i > 0
        invariant 0 <= i <= |gs| && LastPending(groups, gs) == LastPending(groups, gs[..i])
      {
        i := i - 1;
        assert gs[..i + 1][..i] == gs[..i];
        if groups[gs[i]].breakables != [] {
          return Some(i);
        }
      }
      found := None;
    }

    /** Breaks every group of a row that the search of the queue passes over. */
    method BreakRow(gs: seq<nat>)
      requires RowInRange(gs, |groups|)
      modifies `groups
      ensures groups == BreakAll(old(groups), gs)
    {
      var k := 0;
      while k < |gs|
        invariant 0 <= k <= |gs| && |groups| == |old(groups)|
        invariant groups == BreakAll(old(groups), gs[..k])
      {
        groups := groups[gs[k] := groups[gs[k]].(broke := true)];
        k := k + 1;
      }
      assert gs[..k] == gs;
    }

    /** GroupQueue#deq */
    method Deq() returns (found: Option<nat>)
      requires Filed(groups, queue)
      modifies `groups, `queue
      ensures St() == PrettyState.Deq(old(St())) && found == Found(old(St()))
    {
      var d := 0;
      while d < |queue|
        invariant 0 <= d <= |queue| && Filed(groups, queue) && |groups| == |old(groups)|
        invariant DeqFrom(groups, queue, d) == DeqFrom(old(groups), old(queue), 0)
      {
        var gs := queue[d];
        var i := FindPending(gs);
        if i.Some? {
          var g := gs[i.value];
          queue := queue[d := gs[..i.value] + gs[i.value + 1..]];
          groups := groups[g := groups[g].(broke := true)];
          return Some(g);
        }
        BreakRow(gs);
        queue := queue[d := []];
        d := d + 1;
      }
      found := None;
    }

    /** PrettyPrint#break_outmost_groups */
    method BreakOutmostGroups()
      requires output == Render(log) && Inv(St()) && StartsWithHint(St())
      modifies this
      ensures output == Render(log) && St() == BreakOutmost(maxwidth, old(St()))
    {
      while maxwidth < outputWidth + bufferWidth
        invariant output == Render(log) && Inv(St()) && StartsWithHint(St())
        invariant BreakOutmost(maxwidth, St()) == BreakOutmost(maxwidth, old(St()))
        decreases QueueSize(queue)
      {
        ghost var s := St();
        var found := Deq();
        if found == None {
          return;
        }
        RoundInv(s, found.value);
        DeqMid(s, found.value);
        OutputGroupItems(found.value);
        OutputTextItems();
      }
    }

    /** Adds a word to the text at the end of the buffer, or to a new one. */
    method AddToBuffer(obj: Obj, width: int)
      requires buffer != []
      modifies `buffer, `bufferWidth
      ensures St() == BufferText(old(St()), obj, width)
    {
      var n := |buffer| - 1;
      if !buffer[n].Text? {
        buffer := buffer + [Item.Text([], 0)];
        n := n + 1;
      }
      var text := buffer[n];
      buffer := buffer[n := Item.Text(text.objs + [obj], text.width + width)];
      bufferWidth := bufferWidth + width;
      if !old(buffer)[|old(buffer)| - 1].Text? {
        assert buffer == old(buffer) + [Item.Text([] + [obj], width)];
        assert [] + [obj] == [obj];
      }
    }

    /** A word written at once, when nothing is buffered. */
    method PrintWord(obj: Obj, width: int)
      requires output == Render(log)
      modifies `output, `outputWidth, `log
      ensures output == Render(log) && St() == PrintText(old(St()), obj, width)
    {
      output := output + [Out(obj)];
      assert PieceTokens(Words([obj], width)) == [Out(obj)];
      Record(Words([obj], width), old(output));
      outputWidth := outputWidth + width;
    }

    /** PrettyPrint#text */
    method Text(obj: Obj, width: int)
      requires Valid()
      modifies this
      ensures Valid() && St() == TextStep(maxwidth, old(St()), obj, width)
    {
      ghost var s := St();
      TextInv(maxwidth, s, obj, width);
      if buffer == [] {
        PrintWord(obj, width);
      } else {
        AddToBuffer(obj, width);
        AddTextInv(s, obj, width, St());
        BreakOutmostGroups();
      }
    }

    /** PrettyPrint#flush */
    method Flush()
      requires output == Render(log) && Wf(St())
      modifies this
      ensures output == Render(log) && St() == PrettyState.Flush(old(St()))
    {
      ghost var s := St();
      PrintBuffer();
      OutputAllEmits(s, s.bufferWidth, s);
      buffer := [];
      bufferWidth := 0;
    }

    /** Prints every item of the buffer and leaves the buffer as it is. */
    method PrintBuffer()
      requires output == Render(log) && Wf(St())
      modifies `output, `outputWidth, `log, `groups, `queue
      ensures output == Render(log) && St() == EmitAll(old(St()), old(buffer))
    {
      ghost var s := St();
      var k := 0;
      while k < |buffer|
        invariant 0 <= k <= |buffer| && buffer == s.buffer && |groups| == |s.groups| && output == Render(log)
        invariant EmitAll(St(), buffer[k..]) == EmitAll(s, s.buffer)
      {
        OutputItem(buffer[k]);
        k := k + 1;
      }
    }

    /** The newline printed at once in a broken group. */
    method PrintNewline(sep: Obj, width: int)
      requires output == Render(log)
      modifies this
      ensures output == Render(log) && St() == BreakLine(old(St()), sep, width)
    {
      output := output + [Newline] + [Space(indent)];
      assert old(output) + [Newline] + [Space(indent)] == old(output) + [Newline, Space(indent)];
      Record(Hint(Top(St()), sep, width, indent, true), old(output));
      outputWidth := indent;
      bufferWidth := 0;
    }

    /** A breakable put into the buffer. */
    method BufferBreakable(sep: Obj, width: int, g: nat)
      requires g < |groups| && g == Top(St())
      modifies `buffer, `bufferWidth, `groups
      ensures St() == PushHint(old(St()), sep, width)
    {
      var item := Item.Breakable(sep, width, indent, g);
      groups := groups[g := groups[g].(breakables := groups[g].breakables + [item])];
      buffer := buffer + [item];
      bufferWidth := bufferWidth + width;
    }

    /** PrettyPrint#breakable in a broken group. */
    method FlushLine(sep: Obj, width: int)
      requires output == Render(log) && Wf(St())
      modifies this
      ensures output == Render(log) && St() == BreakLine(PrettyState.Flush(old(St())), sep, width)
    {
      Flush();
      PrintNewline(sep, width);
    }

    /** PrettyPrint#breakable in a group that is not broken. */
    method BufferHint(sep: Obj, width: int, g: nat)
      requires Valid() && g < |groups| && g == Top(St()) && !groups[g].broke
      modifies this
      ensures output == Render(log) && St() == BreakOutmost(maxwidth, PushHint(old(St()), sep, width))
    {
      PushHintInv(St(), sep, width);
      BufferBreakable(sep, width, g);
      BreakOutmostGroups();
    }

    /** PrettyPrint#breakable */
    method Breakable(sep: Obj, width: int)
      requires Valid()
      modifies this
      ensures Valid() && St() == BreakableStep(maxwidth, old(St()), sep, width)
    {
      BreakableInv(maxwidth, St(), sep, width);
      var g := groupStack[|groupStack| - 1];
      if groups[g].broke {
        FlushLine(sep, width);
      } else {
        BufferHint(sep, width, g);
      }
    }

    /** The first half of PrettyPrint#group_sub. */
    method EnterGroup()
      requires Valid()
      modifies this
      ensures Valid() && St() == OpenGroup(old(St()))
    {
      ghost var s := St();
      OpenGroupInv(s);
      var depth := groups[groupStack[|groupStack| - 1]].depth + 1;
      var g := |groups|;
      groups := groups + [Group(depth, [], false)];
      paths := paths + [groupStack + [g]];
      groupStack := groupStack + [g];
      queue := Enq(queue, depth, g);
      assert St() == OpenGroup(s);
    }

    /** The ensure part of PrettyPrint#group_sub. */
    method LeaveGroup()
      requires Valid() && |groupStack| > 1
      modifies this
      ensures Valid() && St() == CloseGroup(old(St()))
    {
      ghost var s := St();
      CloseGroupInv(s);
      var g := groupStack[|groupStack| - 1];
      groupStack := groupStack[..|groupStack| - 1];
      if groups[g].breakables == [] {
        queue := Delete(queue, groups[g].depth, g);
      }
      assert St() == CloseGroup(s);
    }

    /** PrettyPrint#group_sub, with the calls of its block. */
    method GroupSub(body: Calls)
      requires Valid()
      modifies this
      ensures Valid()
      ensures St() == AfterGroup(maxwidth, old(St()), body)
      decreases body, 1
    {
      EnterGroup();
      ghost var s := St();
      assert |groupStack| > 1;
      Perform(body);
      RunNesting(maxwidth, s, body);
      LeaveGroup();
    }

    method SetIndent(n: int)
      requires Valid()
      modifies `indent
      ensures Valid() && St() == Indented(old(St()), n)
    {
      ghost var s := St();
      NestInv(s, n);
      indent := n;
      assert St() == Indented(s, n);
    }

    /** PrettyPrint#nest, with the calls of its block. */
    method Nest(amount: int, body: Calls)
      requires Valid()
      modifies this
      ensures Valid() && St() == AfterNest(maxwidth, old(St()), amount, body)
      decreases body, 1
    {
      ghost var s := St();
      SetIndent(indent + amount);
      ghost var o := St();
      Perform(body);
      ghost var inner := St();
      SetIndent(indent - amount);
      NestStates(maxwidth, s, o, inner, St(), amount, body);
    }

    /** The calls a block makes on the printer. */
    method Perform(calls: Calls)
      requires Valid()
      modifies this
      ensures Valid() && St() == Run(Pretty(maxwidth), old(St()), calls)
      decreases calls, 0
    {
      RunEquations(maxwidth, St(), calls);
      match calls {
        case Done =>
        case AddText(obj, width, rest) =>
          Text(obj, width);
          Perform(rest);
        case AddBreakable(sep, width, rest) =>
          Breakable(sep, width);
          Perform(rest);
        case InGroup(body, rest) =>
          GroupSub(body);
          Perform(rest);
        case InNest(amount, body, rest) =>
          Nest(amount, body);
          Perform(rest);
      }
    }
  }

  ghost function AfterGroup(maxwidth: int, s: State, body: Calls): State {
    CloseGroup(Run(Pretty(maxwidth), OpenGroup(s), body))
  }

  ghost function AfterNest(maxwidth: int, s: State, amount: int, body: Calls): State {
    var inner := Run(Pretty(maxwidth), Indented(s, s.indent + amount), body);
    Indented(inner, inner.indent - amount)
  }

  lemma NestStates(maxwidth: int, s: State, o: State, inner: State, r: State, amount: int, body: Calls)
    requires o == Indented(s, s.indent + amount) && inner == Run(Pretty(maxwidth), o, body)
    requires r == Indented(inner, inner.indent - amount)
    ensures r == AfterNest(maxwidth, s, amount, body)
  {
  }

  lemma RunEquations(maxwidth: int, s: State, calls: Calls)
    ensures Run(Pretty(maxwidth), s, calls) ==
      match calls
      case Done => s
      case AddText(obj, width, rest) => Run(Pretty(maxwidth), TextStep(maxwidth, s, obj, width), rest)
      case AddBreakable(sep, width, rest) => Run(Pretty(maxwidth), BreakableStep(maxwidth, s, sep, width), rest)
      case InGroup(body, rest) => Run(Pretty(maxwidth), AfterGroup(maxwidth, s, body), rest)
      case InNest(amount, body, rest) => Run(Pretty(maxwidth), AfterNest(maxwidth, s, amount, body), rest)
  {
  }

  lemma EmitBroken(s: State, obj: Obj, width: int, indent: int, g: nat)
    requires g < |s.groups| && s.groups[g].broke
    ensures Emit(s, Breakable(obj, width, indent, g)) ==
      s.(groups := s.groups[g := s.groups[g].(breakables := DropFirst(s.groups[g].breakables))],
         log := s.log + [Hint(g, obj, width, indent, true)], outputWidth := indent)
  {
  }

  lemma EmitUnbroken(s: State, obj: Obj, width: int, indent: int, g: nat)
    requires g < |s.groups| && !s.groups[g].broke
    ensures var rest := DropFirst(s.groups[g].breakables);
            Emit(s, Breakable(obj, width, indent, g)) ==
            s.(groups := s.groups[g := s.groups[g].(breakables := rest)],
               queue := if rest == [] then Delete(s.queue, s.groups[g].depth, g) else s.queue,
               log := s.log + [Hint(g, obj, width, indent, false)], outputWidth := s.outputWidth + width)
  {
  }

  lemma EmitIgnoresBuffer(s: State, b: seq<Item>, item: Item)
    ensures Emit(s.(buffer := b), item) == Emit(s, item).(buffer := b)
  {
  }

  lemma RenderPush(log: seq<Piece>, p: Piece)
    ensures Render(log + [p]) == Render(log) + PieceTokens(p)
  {
    assert (log + [p])[..|log|] == log;
  }

  ghost predicate KeepsNesting(s: State, r: State) {
    s.stack != [] ==> r.stack == s.stack && r.indent == s.indent
  }

  lemma GroupNesting(s: State, inner: State)
    requires KeepsNesting(OpenGroup(s), inner)
    ensures KeepsNesting(s, CloseGroup(inner))
  {
  }

  lemma CallNesting(maxwidth: int, s: State, obj: Obj, width: int)
    ensures KeepsNesting(s, Pretty(maxwidth).text(s, obj, width))
    ensures KeepsNesting(s, Pretty(maxwidth).breakable(s, obj, width))
  {
  }

  lemma NestingIsInductive(maxwidth: int, q: Printer<State>, R: (State, Calls, State) -> bool)
    requires q == Pretty(maxwidth) && forall s, c, r :: R(s, c, r) == KeepsNesting(s, r)
    ensures Inductive(q, R)
  {
    forall s, obj, width
      ensures KeepsNesting(s, q.text(s, obj, width)) && KeepsNesting(s, q.breakable(s, obj, width))
    {
      CallNesting(maxwidth, s, obj, width);
    }
    forall s, body, inner, rest, r | R(q.open(s), body, inner) && R(q.close(inner), rest, r)
      ensures R(s, InGroup(body, rest), r)
    {
      GroupNesting(s, inner);
    }
    forall s, amount, body, inner, rest, r | R(q.nest(s, amount), body, inner) && R(q.unnest(inner, amount), rest, r)
      ensures R(s, InNest(amount, body, rest), r)
    {
      NestNesting(s, amount, inner);
    }
  }

  lemma NestNesting(s: State, amount: int, inner: State)
    requires KeepsNesting(Indented(s, s.indent + amount), inner)
    ensures KeepsNesting(s, Indented(inner, inner.indent - amount))
  {
  }

  /** A block leaves the group stack and the indentation as it found them. */
  lemma RunNesting(maxwidth: int, s: State, calls: Calls)
    requires s.stack != []
    ensures Run(Pretty(maxwidth), s, calls).stack == s.stack && Run(Pretty(maxwidth), s, calls).indent == s.indent
  {
    var q := Pretty(maxwidth);
    var R := (x: State, c: Calls, y: State) => KeepsNesting(x, y);
    NestingIsInductive(maxwidth, q, R);
    RunRelates(q, R, s, calls);
  }

  /** PrettyPrint.format */
  method Format(maxwidth: int, calls: Calls) returns (output: seq<Token>)
    ensures output == Render(PrettyState.Format(maxwidth, calls).log)
  {
    var q := new PrettyPrint(maxwidth);
    q.Perform(calls);
    q.Flush();
    output := q.output;
  }
}

/**
 What the pretty printer prints: every block is laid out as the block's words and hints in
 order, each group's hints all as newlines or all as separators, broken groups outermost first.
 */
module PrettyLayout {
  import opened Common
  import opened PrettyCalls
  import opened PrettyState
  import opened PrettyInvariant

  datatype Event = Word(obj: Obj) | Break(group: nat, sep: Obj, indent: int)

  /** A block read without a width: its words and hints in order, each hint with its group and
      indentation, the total width, and for each group the chain of groups around it. */
  datatype Reading = Reading(
    events: seq<Event>,
    width: int,
    indent: int,
    stack: seq<nat>,
    next: nat,
    paths: seq<seq<nat>>)

  function TopOf(stack: seq<nat>): nat {
    if stack == [] then 0 else stack[|stack| - 1]
  }

  function Reader(): Printer<Reading> {
    Printer(
      (s: Reading, obj: Obj, width: int) => s.(events := s.events + [Word(obj)], width := s.width + width),
      (s: Reading, sep: Obj, width: int) =>
        s.(events := s.events + [Break(TopOf(s.stack), sep, s.indent)], width := s.width + width),
      (s: Reading) => s.(stack := s.stack + [s.next], next := s.next + 1, paths := s.paths + [s.stack + [s.next]]),
      (s: Reading) => s.(stack := if |s.stack| <= 1 then s.stack else s.stack[..|s.stack| - 1]),
      (s: Reading, amount: int) => s.(indent := s.indent + amount),
      (s: Reading, amount: int) => s.(indent := s.indent - amount))
  }

  const UNREAD := Reading([], 0, 0, [0], 1, [[0]])

  function Read(calls: Calls): Reading {
    Run(Reader(), UNREAD, calls)
  }

  /** What reaches the output object: an object, the newline object, or the result of genspace. */
  datatype Token = Out(obj: Obj) | Newline | Space(width: int)

  function EachWord(objs: seq<Obj>): (r: seq<Event>)
    ensures |r| == |objs| && forall i :: 0 <= i < |r| ==> r[i] == Word(objs[i])
  {
    seq(|objs|, i requires 0 <= i < |objs| => Word(objs[i]))
  }

  function PieceEvents(p: Piece): seq<Event> {
    match p
    case Words(objs, _) => EachWord(objs)
    case Hint(group, sep, _, indent, _) => [Break(group, sep, indent)]
  }

  function ItemEvents(item: Item): seq<Event> {
    match item
    case Text(objs, _) => EachWord(objs)
    case Breakable(sep, _, indent, group) => [Break(group, sep, indent)]
  }

  function LogEvents(log: seq<Piece>): seq<Event> {
    if log == [] then [] else LogEvents(log[..|log| - 1]) + PieceEvents(log[|log| - 1])
  }

  function BufferEvents(buffer: seq<Item>): seq<Event> {
    if buffer == [] then [] else ItemEvents(buffer[0]) + BufferEvents(buffer[1..])
  }

  /** Everything the printer was given so far, printed or still buffered. */
  function Given(s: State): seq<Event> {
    LogEvents(s.log) + BufferEvents(s.buffer)
  }

  function LogWidth(log: seq<Piece>): int {
    if log == [] then 0 else LogWidth(log[..|log| - 1]) + log[|log| - 1].width
  }

  function BufferedWidth(buffer: seq<Item>): int {
    if buffer == [] then 0 else buffer[0].width + BufferedWidth(buffer[1..])
  }

  /** The width of everything the printer was given so far. */
  function GivenWidth(s: State): int {
    LogWidth(s.log) + BufferedWidth(s.buffer)
  }

  /** What the printer has taken in, as a reading. */
  function View(s: State): Reading {
    Reading(Given(s), GivenWidth(s), s.indent, s.stack, |s.groups|, s.paths)
  }

  /** The layout in which exactly the groups of `broken` are broken over lines. */
  function Layout(events: seq<Event>, broken: set<nat>): seq<Token> {
    if events == [] then []
    else
      (match events[0]
       case Word(obj) => [Out(obj)]
       case Break(group, sep, indent) => if group in broken then [Newline, Space(indent)] else [Out(sep)])
      + Layout(events[1..], broken)
  }

  /** The tokens sent to the output object. */
  function PieceTokens(p: Piece): seq<Token> {
    match p
    case Words(objs, _) => seq(|objs|, i requires 0 <= i < |objs| => Out(objs[i]))
    case Hint(_, sep, _, indent, broken) => if broken then [Newline, Space(indent)] else [Out(sep)]
  }

  function Render(log: seq<Piece>): seq<Token> {
    if log == [] then [] else Render(log[..|log| - 1]) + PieceTokens(log[|log| - 1])
  }

  /** PrettyPrint::SingleLine: texts and separators go straight to the output. */
  function SingleLine(): Printer<seq<Token>> {
    Printer(
      (s: seq<Token>, obj: Obj, width: int) => s + [Out(obj)],
      (s: seq<Token>, sep: Obj, width: int) => s + [Out(sep)],
      (s: seq<Token>) => s,
      (s: seq<Token>) => s,
      (s: seq<Token>, amount: int) => s,
      (s: seq<Token>, amount: int) => s)
  }

  /** PrettyPrint.singleline_format */
  function SingleLineFormat(calls: Calls): seq<Token> {
    Run(SingleLine(), [], calls)
  }

  // ---- nothing is lost, duplicated or reordered

  lemma {:induction false} BufferEventsAppend(b: seq<Item>, c: seq<Item>)
    ensures BufferEvents(b + c) == BufferEvents(b) + BufferEvents(c)
    ensures BufferedWidth(b + c) == BufferedWidth(b) + BufferedWidth(c)
  {
    if b == [] {
      assert b + c == c;
    } else {
      assert (b + c)[1..] == b[1..] + c;
      BufferEventsAppend(b[1..], c);
    }
  }

  lemma LogEventsPush(log: seq<Piece>, p: Piece)
    ensures LogEvents(log + [p]) == LogEvents(log) + PieceEvents(p)
    ensures LogWidth(log + [p]) == LogWidth(log) + p.width
  {
    assert (log + [p])[..|log|] == log;
  }

  /** Moving an item from the buffer to the log keeps the events and the width of both together. */
  lemma MovedGiven(log: seq<Piece>, p: Piece, buffer: seq<Item>)
    requires buffer != [] && PieceEvents(p) == ItemEvents(buffer[0]) && p.width == buffer[0].width
    ensures LogEvents(log + [p]) + BufferEvents(buffer[1..]) == LogEvents(log) + BufferEvents(buffer)
    ensures LogWidth(log + [p]) + BufferedWidth(buffer[1..]) == LogWidth(log) + BufferedWidth(buffer)
  {
    LogEventsPush(log, p);
    Assoc(LogEvents(log), PieceEvents(p), BufferEvents(buffer[1..]));
  }

  /** What becomes of a buffered item in the log. */
  lemma OutputPiece(s: State, p: Piece)
    requires s.buffer != [] && p == Output(s).log[|s.log|]
    ensures Output(s).log == s.log + [p] && p.width == s.buffer[0].width
    ensures PieceEvents(p) == ItemEvents(s.buffer[0])
  {
  }

  lemma OutputGiven(s: State)
    requires s.buffer != []
    ensures Given(Output(s)) == Given(s) && GivenWidth(Output(s)) == GivenWidth(s)
  {
    var p := Output(s).log[|s.log|];
    OutputPiece(s, p);
    MovedGiven(s.log, p, s.buffer);
  }

  lemma {:induction false} OutputGroupGiven(s: State, g: nat)
        ensures Given(OutputGroup(s, g)) == Given(s) && GivenWidth(OutputGroup(s, g)) == GivenWidth(s)
    decreases |s.buffer|
  {
    if Lookup(s.groups, g).breakables != [] && s.buffer != [] {
      OutputGiven(s);
      OutputGroupGiven(Output(s), g);
    }
  }

  lemma {:induction false} OutputTextsGiven(s: State)
    ensures Given(OutputTexts(s)) == Given(s) && GivenWidth(OutputTexts(s)) == GivenWidth(s)
    decreases |s.buffer|
  {
    if s.buffer != [] && s.buffer[0].Text? {
      OutputGiven(s);
      OutputTextsGiven(Output(s));
    }
  }

  lemma {:induction false} OutputAllGiven(s: State)
    ensures Given(OutputAll(s)) == Given(s) && GivenWidth(OutputAll(s)) == GivenWidth(s)
    decreases |s.buffer|
  {
    if s.buffer != [] {
      OutputGiven(s);
      OutputAllGiven(Output(s));
    }
  }

  lemma {:induction false} BreakOutmostGiven(maxwidth: int, s: State)
    ensures Given(BreakOutmost(maxwidth, s)) == Given(s) && GivenWidth(BreakOutmost(maxwidth, s)) == GivenWidth(s)
    decreases QueueSize(s.queue)
  {
    if maxwidth < s.outputWidth + s.bufferWidth {
      if Found(s).Some? {
        OutputGroupGiven(Deq(s), Found(s).value);
        OutputTextsGiven(OutputGroup(Deq(s), Found(s).value));
        BreakOutmostGiven(maxwidth, Round(Deq(s), Found(s).value));
      }
    }
  }

  lemma WithTextEvents(buffer: seq<Item>, obj: Obj, width: int)
    requires buffer != []
    ensures BufferEvents(WithText(buffer, obj, width)) == BufferEvents(buffer) + [Word(obj)]
    ensures BufferedWidth(WithText(buffer, obj, width)) == BufferedWidth(buffer) + width
  {
    var n := |buffer| - 1;
    var b := WithText(buffer, obj, width);
    if buffer[n].Text? {
      assert buffer == buffer[..n] + [buffer[n]] && b == buffer[..n] + [b[n]];
      BufferEventsAppend(buffer[..n], [buffer[n]]);
      BufferEventsAppend(buffer[..n], [b[n]]);
      assert EachWord(b[n].objs) == EachWord(buffer[n].objs) + [Word(obj)];
    } else {
      BufferEventsAppend(buffer, [b[n + 1]]);
      assert EachWord([obj]) == [Word(obj)];
    }
  }

  lemma Assoc<T>(a: seq<T>, b: seq<T>, c: seq<T>)
    ensures (a + b) + c == a + (b + c)
  {
  }

  lemma PrintWordGiven(s: State, obj: Obj, width: int)
    requires s.buffer == []
    ensures Given(PrintText(s, obj, width)) == Given(s) + [Word(obj)]
    ensures GivenWidth(PrintText(s, obj, width)) == GivenWidth(s) + width
  {
    LogEventsPush(s.log, Words([obj], width));
    assert EachWord([obj]) == [Word(obj)];
  }

  lemma BufferWordGiven(s: State, obj: Obj, width: int)
    requires s.buffer != []
    ensures Given(BufferText(s, obj, width)) == Given(s) + [Word(obj)]
    ensures GivenWidth(BufferText(s, obj, width)) == GivenWidth(s) + width
  {
    WithTextEvents(s.buffer, obj, width);
    Assoc(LogEvents(s.log), BufferEvents(s.buffer), [Word(obj)]);
  }

  lemma TextGiven(maxwidth: int, s: State, obj: Obj, width: int)
    ensures Given(TextStep(maxwidth, s, obj, width)) == Given(s) + [Word(obj)]
    ensures GivenWidth(TextStep(maxwidth, s, obj, width)) == GivenWidth(s) + width
  {
    if s.buffer == [] {
      PrintWordGiven(s, obj, width);
    } else {
      var t := BufferText(s, obj, width);
      BufferWordGiven(s, obj, width);
      BreakOutmostGiven(maxwidth, t);
      assert TextStep(maxwidth, s, obj, width) == BreakOutmost(maxwidth, t);
    }
  }

  lemma BreakLineGiven(s: State, sep: Obj, width: int)
    requires s.buffer == []
    ensures Given(BreakLine(s, sep, width)) == Given(s) + [Break(Top(s), sep, s.indent)]
    ensures GivenWidth(BreakLine(s, sep, width)) == GivenWidth(s) + width
  {
    LogEventsPush(s.log, Hint(Top(s), sep, width, s.indent, true));
  }

  lemma PushHintGiven(s: State, sep: Obj, width: int)
    ensures Given(PushHint(s, sep, width)) == Given(s) + [Break(Top(s), sep, s.indent)]
    ensures GivenWidth(PushHint(s, sep, width)) == GivenWidth(s) + width
  {
    BufferEventsAppend(s.buffer, [Breakable(sep, width, s.indent, Top(s))]);
  }

  lemma BreakableGiven(maxwidth: int, s: State, sep: Obj, width: int)
    ensures Given(BreakableStep(maxwidth, s, sep, width)) == Given(s) + [Break(Top(s), sep, s.indent)]
    ensures GivenWidth(BreakableStep(maxwidth, s, sep, width)) == GivenWidth(s) + width
  {
    if Lookup(s.groups, Top(s)).broke {
      OutputAllGiven(s);
      BreakLineGiven(Flush(s), sep, width);
    } else {
      PushHintGiven(s, sep, width);
      BreakOutmostGiven(maxwidth, PushHint(s, sep, width));
    }
  }

  lemma TextView(maxwidth: int, s: State, obj: Obj, width: int)
    ensures View(Pretty(maxwidth).text(s, obj, width)) == Reader().text(View(s), obj, width)
  {
    TextGiven(maxwidth, s, obj, width);
  }

  lemma BreakableView(maxwidth: int, s: State, sep: Obj, width: int)
    ensures View(Pretty(maxwidth).breakable(s, sep, width)) == Reader().breakable(View(s), sep, width)
  {
    BreakableGiven(maxwidth, s, sep, width);
  }

  lemma GroupView(maxwidth: int, s: State)
    ensures View(Pretty(maxwidth).open(s)) == Reader().open(View(s))
    ensures View(Pretty(maxwidth).close(s)) == Reader().close(View(s))
  {
  }

  lemma NestView(maxwidth: int, s: State, amount: int)
    ensures View(Pretty(maxwidth).nest(s, amount)) == Reader().nest(View(s), amount)
    ensures View(Pretty(maxwidth).unnest(s, amount)) == Reader().unnest(View(s), amount)
  {
  }

  /** The pretty printer takes in exactly what the reader reads, whatever it has printed. */
  lemma PrettySimulatesReader(q: Printer<State>, w: Printer<Reading>, h: State -> Reading, maxwidth: int)
    requires q == Pretty(maxwidth) && w == Reader() && forall s :: h(s) == View(s)
    ensures Simulates(q, w, h)
  {
    forall s, obj, width
      ensures h(q.text(s, obj, width)) == w.text(h(s), obj, width)
    {
      TextView(maxwidth, s, obj, width);
    }
    forall s, sep, width
      ensures h(q.breakable(s, sep, width)) == w.breakable(h(s), sep, width)
    {
      BreakableView(maxwidth, s, sep, width);
    }
    forall s
      ensures h(q.open(s)) == w.open(h(s)) && h(q.close(s)) == w.close(h(s))
    {
      GroupView(maxwidth, s);
    }
    forall s, amount
      ensures h(q.nest(s, amount)) == w.nest(h(s), amount) && h(q.unnest(s, amount)) == w.unnest(h(s), amount)
    {
      NestView(maxwidth, s, amount);
    }
  }

  lemma EmptyView(s: State)
    requires s.log == [] && s.buffer == []
    ensures View(s) == Reading([], 0, s.indent, s.stack, |s.groups|, s.paths)
  {
  }

  lemma InitialView()
    ensures View(INITIAL) == UNREAD
  {
    EmptyView(INITIAL);
  }

  lemma PrintedIsRead(maxwidth: int, calls: Calls)
    ensures View(Printed(maxwidth, calls)) == Read(calls)
  {
    var q, w, h := Pretty(maxwidth), Reader(), (s: State) => View(s);
    PrettySimulatesReader(q, w, h, maxwidth);
    RunSimulates(q, w, h, INITIAL, calls);
    InitialView();
  }

  lemma FlushView(s: State)
    ensures LogEvents(Flush(s).log) == Given(s) && LogWidth(Flush(s).log) == GivenWidth(s) && Flush(s).paths == s.paths
  {
    OutputAllGiven(s);
    var r := OutputAll(s);
    assert Given(r) == LogEvents(r.log);
  }

  /** After the flush everything is in the output. */
  lemma FormatIsRead(maxwidth: int, calls: Calls)
    ensures LogEvents(Format(maxwidth, calls).log) == Read(calls).events
    ensures LogWidth(Format(maxwidth, calls).log) == Read(calls).width
    ensures Format(maxwidth, calls).paths == Read(calls).paths
  {
    var s := Printed(maxwidth, calls);
    assert View(s) == Read(calls) by { PrintedIsRead(maxwidth, calls); }
    FlushView(s);
  }
}

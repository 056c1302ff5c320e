/**
 Line widths: what the two width counters mean, and exactly when the pretty printer
 prints the same as the single-line printer.
 */
module PrettyWidth {
  import opened Common
  import opened PrettyCalls
  import opened PrettyState
  import opened PrettyInvariant
  import opened PrettyLayout
  import opened PrettyTheorems

  /** The width of the last line of the output. */
  function LineWidth(log: seq<Piece>): int {
    if log == [] then 0
    else
      var n := |log| - 1;
      match log[n]
      case Words(_, width) => LineWidth(log[..n]) + width
      case Hint(_, _, width, indent, broken) => if broken then indent else LineWidth(log[..n]) + width
  }

  /** The counters are the width of the current line and of the buffer. */
  ghost predicate Measured(s: State) {
    s.outputWidth == LineWidth(s.log) && s.bufferWidth == BufferedWidth(s.buffer)
  }

  lemma LineWidthPush(log: seq<Piece>, p: Piece)
    ensures LineWidth(log + [p]) ==
      if p.Hint? && p.broken then p.indent else LineWidth(log) + p.width
  {
    assert (log + [p])[..|log|] == log;
  }

  lemma OutputMeasured(s: State)
    requires s.buffer != []
    requires Measured(s)
    ensures Measured(Output(s))
  {
    var r := Output(s);
    assert r.log == s.log + [r.log[|s.log|]];
    LineWidthPush(s.log, r.log[|s.log|]);
  }

  lemma {:induction false} OutputGroupMeasured(s: State, g: nat)
    requires Measured(s)
    ensures Measured(OutputGroup(s, g))
    decreases |s.buffer|
  {
    if Lookup(s.groups, g).breakables != [] && s.buffer != [] {
      OutputMeasured(s);
      OutputGroupMeasured(Output(s), g);
    }
  }

  lemma {:induction false} OutputTextsMeasured(s: State)
    requires Measured(s)
    ensures Measured(OutputTexts(s))
    decreases |s.buffer|
  {
    if s.buffer != [] && s.buffer[0].Text? {
      OutputMeasured(s);
      OutputTextsMeasured(Output(s));
    }
  }

  lemma {:induction false} OutputAllMeasured(s: State)
    requires Measured(s)
    ensures Measured(OutputAll(s))
    decreases |s.buffer|
  {
    if s.buffer != [] {
      OutputMeasured(s);
      OutputAllMeasured(Output(s));
    }
  }

  lemma {:induction false} BreakOutmostMeasured(maxwidth: int, s: State)
    requires Measured(s)
    ensures Measured(BreakOutmost(maxwidth, s))
    decreases QueueSize(s.queue)
  {
    if maxwidth < s.outputWidth + s.bufferWidth && Found(s).Some? {
      var g := Found(s).value;
      OutputGroupMeasured(Deq(s), g);
      OutputTextsMeasured(OutputGroup(Deq(s), g));
      BreakOutmostMeasured(maxwidth, Round(Deq(s), g));
    }
  }

  lemma TextMeasured(maxwidth: int, s: State, obj: Obj, width: int)
    requires Measured(s)
    ensures Measured(Pretty(maxwidth).text(s, obj, width))
  {
    if s.buffer == [] {
      LineWidthPush(s.log, Words([obj], width));
    } else {
      var t := BufferText(s, obj, width);
      WithTextEvents(s.buffer, obj, width);
      BreakOutmostMeasured(maxwidth, t);
      assert TextStep(maxwidth, s, obj, width) == BreakOutmost(maxwidth, t);
    }
  }

  lemma BreakableMeasured(maxwidth: int, s: State, sep: Obj, width: int)
    requires Measured(s)
    ensures Measured(Pretty(maxwidth).breakable(s, sep, width))
  {
    if Lookup(s.groups, Top(s)).broke {
      var f := Flush(s);
      OutputAllMeasured(s);
      LineWidthPush(f.log, Hint(Top(f), sep, width, f.indent, true));
    } else {
      BufferEventsAppend(s.buffer, [Breakable(sep, width, s.indent, Top(s))]);
      var p := PushHint(s, sep, width);
      BreakOutmostMeasured(maxwidth, p);
    }
  }

  lemma MeasuredStep(maxwidth: int, q: Printer<State>, P: State -> bool, s: State)
    requires q == Pretty(maxwidth) && P(s) ==> Measured(s)
    requires forall x :: Measured(x) ==> P(x)
    ensures q == Pretty(maxwidth) ==> KeptBy(q, P, s)
  {
    if q == Pretty(maxwidth) && P(s) {
      forall obj, width ensures P(q.text(s, obj, width)) { TextMeasured(maxwidth, s, obj, width); }
      forall sep, width ensures P(q.breakable(s, sep, width)) { BreakableMeasured(maxwidth, s, sep, width); }
      forall n ensures P(q.nest(s, n)) && P(q.unnest(s, n)) { NestingMeasured(maxwidth, s, n); }
    }
  }

  lemma NestingMeasured(maxwidth: int, s: State, n: int)
    requires Measured(s)
    ensures Measured(Pretty(maxwidth).open(s)) && Measured(Pretty(maxwidth).close(s))
    ensures Measured(Pretty(maxwidth).nest(s, n)) && Measured(Pretty(maxwidth).unnest(s, n))
  {
    assert SameOutput(s, OpenGroup(s)) && SameOutput(s, CloseGroup(s));
    assert forall m :: SameOutput(s, Indented(s, m));
  }

  ghost predicate SameOutput(s: State, r: State) {
    r.log == s.log && r.buffer == s.buffer && r.outputWidth == s.outputWidth && r.bufferWidth == s.bufferWidth
  }

  lemma PrintedIsMeasured(maxwidth: int, calls: Calls)
    ensures Measured(Printed(maxwidth, calls))
  {
    var q, P := Pretty(maxwidth), (x: State) => Measured(x);
    forall x: State
      ensures KeptBy(q, P, x)
    {
      MeasuredStep(maxwidth, q, P, x);
    }
    RunPreserves(q, P, INITIAL, calls);
  }

  /** After every run the counters measure the line and the buffer, and unless nothing is
      buffered the line being built still fits. */
  lemma BufferedLineFits(maxwidth: int, calls: Calls)
    ensures var s := Printed(maxwidth, calls);
            && s.outputWidth == LineWidth(s.log) && s.bufferWidth == BufferedWidth(s.buffer)
            && (s.buffer != [] ==> LineWidth(s.log) + BufferedWidth(s.buffer) <= maxwidth)
  {
    PrintedIsMeasured(maxwidth, calls);
    InitialInv();
    RunInv(maxwidth, INITIAL, calls);
  }

  // ---- when a newline is printed

  ghost predicate NoNewline(log: seq<Piece>) {
    forall i :: 0 <= i < |log| ==> !Newlined(log[i])
  }

  /** The block offers a place to break at all. */
  ghost predicate HasHint(calls: Calls) {
    exists i :: 0 <= i < |Read(calls).events| && Read(calls).events[i].Break?
  }

  predicate NonNegative(calls: Calls) {
    match calls
    case Done => true
    case AddText(_, width, rest) => width >= 0 && NonNegative(rest)
    case AddBreakable(_, width, rest) => width >= 0 && NonNegative(rest)
    case InGroup(body, rest) => NonNegative(body) && NonNegative(rest)
    case InNest(_, body, rest) => NonNegative(body) && NonNegative(rest)
  }

  /** The output only grows. */
  ghost predicate Grows(s: State, r: State) {
    |s.log| <= |r.log| && r.log[..|s.log|] == s.log
  }

  lemma OutputGrows(s: State)
    requires s.buffer != []
    ensures Grows(s, Output(s))
  {
    var r := Output(s);
    assert r.log == s.log + [r.log[|s.log|]];
  }

  lemma GrowsTwice(s: State, t: State, r: State)
    requires Grows(s, t) && Grows(t, r)
    ensures Grows(s, r)
  {
    assert r.log[..|s.log|] == r.log[..|t.log|][..|s.log|];
  }

  lemma {:induction false} OutputGroupGrows(s: State, g: nat)
    ensures Grows(s, OutputGroup(s, g))
    decreases |s.buffer|
  {
    if Lookup(s.groups, g).breakables != [] && s.buffer != [] {
      OutputGrows(s);
      OutputGroupGrows(Output(s), g);
      GrowsTwice(s, Output(s), OutputGroup(Output(s), g));
    }
  }

  lemma {:induction false} OutputTextsGrows(s: State)
    ensures Grows(s, OutputTexts(s))
    decreases |s.buffer|
  {
    if s.buffer != [] && s.buffer[0].Text? {
      OutputGrows(s);
      OutputTextsGrows(Output(s));
      GrowsTwice(s, Output(s), OutputTexts(Output(s)));
    }
  }

  lemma {:induction false} OutputAllGrows(s: State)
    ensures Grows(s, OutputAll(s))
    decreases |s.buffer|
  {
    if s.buffer != [] {
      OutputGrows(s);
      OutputAllGrows(Output(s));
      GrowsTwice(s, Output(s), OutputAll(Output(s)));
    }
  }

  lemma {:induction false} BreakOutmostGrows(maxwidth: int, s: State)
    ensures Grows(s, BreakOutmost(maxwidth, s))
    decreases QueueSize(s.queue)
  {
    if maxwidth < s.outputWidth + s.bufferWidth && Found(s).Some? {
      var g := Found(s).value;
      var o := OutputGroup(Deq(s), g);
      OutputGroupGrows(Deq(s), g);
      OutputTextsGrows(o);
      GrowsTwice(Deq(s), o, OutputTexts(o));
      BreakOutmostGrows(maxwidth, Round(Deq(s), g));
      GrowsTwice(s, Round(Deq(s), g), BreakOutmost(maxwidth, Round(Deq(s), g)));
    }
  }

  /** Printing a broken group prints at least one newline. */
  lemma {:induction false} OutputGroupBreaks(s: State, t: nat)
    requires Core(s) && t < |s.groups| && s.groups[t].broke && s.groups[t].breakables != []
    ensures !NoNewline(OutputGroup(s, t).log)
    decreases |s.buffer|
  {
    assert s.groups[t].breakables == Of(s.buffer, t);
    OutputCore(s);
    var r := Output(s);
    if Hinted(s.buffer[0], t) {
      assert Newlined(r.log[|s.log|]);
      OutputGroupGrows(r, t);
      var z := OutputGroup(r, t);
      assert z.log[|s.log|] == z.log[..|r.log|][|s.log|];
    } else {
      assert r.groups[t].breakables == Of(r.buffer, t);
      OutputGroupBreaks(r, t);
    }
  }

  /** With something buffered, breaking the outermost groups prints a newline or does nothing. */
  lemma BreakOutmostBreaks(maxwidth: int, s: State)
    requires Inv(s) && StartsWithHint(s) && s.buffer != []
    ensures NoNewline(BreakOutmost(maxwidth, s).log) ==> BreakOutmost(maxwidth, s) == s
  {
    if maxwidth < s.outputWidth + s.bufferWidth {
      DeqReady(s);
      DeqCore(s);
      PendingHint(s, 0);
      var t := Found(s).value;
      DeqMid(s, t);
      OutputGroupBreaks(Deq(s), t);
      var o := OutputGroup(Deq(s), t);
      var w := Round(Deq(s), t);
      OutputTextsGrows(o);
      BreakOutmostGrows(maxwidth, w);
      GrowsTwice(o, w, BreakOutmost(maxwidth, w));
      NewlineStays(o, BreakOutmost(maxwidth, s));
    }
  }

  lemma NewlineStays(s: State, r: State)
    requires Grows(s, r) && !NoNewline(s.log)
    ensures !NoNewline(r.log)
  {
    var i :| 0 <= i < |s.log| && Newlined(s.log[i]);
    assert r.log[i] == r.log[..|s.log|][i];
  }

  ghost predicate HasHintPiece(log: seq<Piece>) {
    exists i :: 0 <= i < |log| && log[i].Hint?
  }

  /** Once a hint was printed and no newline, something is buffered. */
  ghost predicate Occupied(s: State) {
    HasHintPiece(s.log) && NoNewline(s.log) ==> s.buffer != []
  }

  /** Breaking the outermost groups with something buffered leaves an occupied state. */
  lemma BreakOutmostOccupied(maxwidth: int, s: State)
    requires Inv(s) && StartsWithHint(s) && s.buffer != []
    ensures Occupied(BreakOutmost(maxwidth, s))
  {
    BreakOutmostBreaks(maxwidth, s);
  }

  lemma TextOccupied(maxwidth: int, s: State, obj: Obj, width: int)
    requires Good(maxwidth, s) && Occupied(s)
    ensures Occupied(Pretty(maxwidth).text(s, obj, width))
  {
    if s.buffer == [] {
      var r := TextStep(maxwidth, s, obj, width);
      assert forall i :: 0 <= i < |s.log| ==> r.log[i] == s.log[i];
    } else {
      var t := BufferText(s, obj, width);
      AddTextInv(s, obj, width, t);
      BreakOutmostOccupied(maxwidth, t);
      assert TextStep(maxwidth, s, obj, width) == BreakOutmost(maxwidth, t);
    }
  }

  lemma BreakableOccupied(maxwidth: int, s: State, sep: Obj, width: int)
    requires Good(maxwidth, s)
    ensures Occupied(Pretty(maxwidth).breakable(s, sep, width))
  {
    if Lookup(s.groups, Top(s)).broke {
      var r := BreakLine(Flush(s), sep, width);
      assert Newlined(r.log[|r.log| - 1]);
    } else {
      PushHintInv(s, sep, width);
      BreakOutmostOccupied(maxwidth, PushHint(s, sep, width));
    }
  }

  lemma OccupiedStep(maxwidth: int, q: Printer<State>, P: State -> bool, O: State -> bool, s: State)
    requires q == Pretty(maxwidth)
    requires forall x :: P(x) == Good(maxwidth, x)
    requires forall x :: O(x) == Occupied(x)
    ensures P(s) && O(s) ==> KeptBy(q, O, s)
  {
    if P(s) && O(s) {
      forall obj, width ensures O(q.text(s, obj, width)) { TextOccupied(maxwidth, s, obj, width); }
      forall sep, width ensures O(q.breakable(s, sep, width)) { BreakableOccupied(maxwidth, s, sep, width); }
      forall n ensures O(q.nest(s, n)) && O(q.unnest(s, n)) { NestingOccupied(maxwidth, s, n); }
    }
  }

  lemma NestingOccupied(maxwidth: int, s: State, n: int)
    requires Occupied(s)
    ensures Occupied(Pretty(maxwidth).open(s)) && Occupied(Pretty(maxwidth).close(s))
    ensures Occupied(Pretty(maxwidth).nest(s, n)) && Occupied(Pretty(maxwidth).unnest(s, n))
  {
    assert SameOutput(s, OpenGroup(s)) && SameOutput(s, CloseGroup(s));
    assert forall m :: SameOutput(s, Indented(s, m));
  }

  lemma PrintedIsOccupied(maxwidth: int, calls: Calls)
    ensures Occupied(Printed(maxwidth, calls))
  {
    var q := Pretty(maxwidth);
    var P, O := (x: State) => Good(maxwidth, x), (x: State) => Occupied(x);
    var B := (x: State) => P(x) && O(x);
    forall x: State
      ensures KeptBy(q, P, x)
    {
      GoodStep(maxwidth, x);
      assert P == (x: State) => Good(maxwidth, x);
    }
    forall x: State
      ensures KeptBy(q, B, x)
    {
      OccupiedStep(maxwidth, q, P, O, x);
      assert KeptBy(q, P, x);
    }
    InitialInv();
    RunPreserves(q, B, INITIAL, calls);
  }

  lemma {:induction false} OneLine(log: seq<Piece>)
    requires NoNewline(log)
    ensures LineWidth(log) == LogWidth(log)
  {
    if log != [] {
      var n := |log| - 1;
      assert !Newlined(log[n]);
      assert forall i :: 0 <= i < n ==> log[..n][i] == log[i];
      OneLine(log[..n]);
    }
  }

  // ---- and when none is

  /** Nothing broken so far, and the counters are right. */
  ghost predicate Untouched(s: State) {
    NoNewline(s.log) && Measured(s) && forall g :: 0 <= g < |s.groups| ==> !s.groups[g].broke
  }

  /** While the running total stays within the width, no group breaks. */
  ghost predicate StaysFlat(maxwidth: int, s: State, calls: Calls, r: State) {
    NonNegative(calls) ==>
      GivenWidth(s) <= GivenWidth(r) && (Untouched(s) && GivenWidth(r) <= maxwidth ==> Untouched(r))
  }

  lemma UntouchedWidth(s: State)
    requires Untouched(s)
    ensures s.outputWidth + s.bufferWidth == GivenWidth(s)
  {
    OneLine(s.log);
  }

  lemma TextStaysFlat(maxwidth: int, s: State, obj: Obj, width: int)
    requires Untouched(s) && GivenWidth(s) + width <= maxwidth
    ensures Untouched(TextStep(maxwidth, s, obj, width))
  {
    UntouchedWidth(s);
    TextMeasured(maxwidth, s, obj, width);
  }

  lemma BreakableStaysFlat(maxwidth: int, s: State, sep: Obj, width: int)
    requires Untouched(s) && GivenWidth(s) + width <= maxwidth
    ensures Untouched(BreakableStep(maxwidth, s, sep, width))
  {
    UntouchedWidth(s);
    BreakableMeasured(maxwidth, s, sep, width);
    assert BreakableStep(maxwidth, s, sep, width) == PushHint(s, sep, width);
  }

  lemma TextFlat(maxwidth: int, s: State, obj: Obj, width: int, rest: Calls, r: State)
    requires StaysFlat(maxwidth, Pretty(maxwidth).text(s, obj, width), rest, r)
    ensures StaysFlat(maxwidth, s, AddText(obj, width, rest), r)
  {
    TextGiven(maxwidth, s, obj, width);
    if NonNegative(rest) && Untouched(s) && GivenWidth(r) <= maxwidth {
      TextStaysFlat(maxwidth, s, obj, width);
    }
  }

  lemma BreakableFlat(maxwidth: int, s: State, sep: Obj, width: int, rest: Calls, r: State)
    requires StaysFlat(maxwidth, Pretty(maxwidth).breakable(s, sep, width), rest, r)
    ensures StaysFlat(maxwidth, s, AddBreakable(sep, width, rest), r)
  {
    BreakableGiven(maxwidth, s, sep, width);
    if NonNegative(rest) && Untouched(s) && GivenWidth(r) <= maxwidth {
      BreakableStaysFlat(maxwidth, s, sep, width);
    }
  }

  lemma GroupFlat(maxwidth: int, s: State, body: Calls, inner: State, rest: Calls, r: State)
    requires StaysFlat(maxwidth, Pretty(maxwidth).open(s), body, inner)
    requires StaysFlat(maxwidth, Pretty(maxwidth).close(inner), rest, r)
    ensures StaysFlat(maxwidth, s, InGroup(body, rest), r)
  {
    var o, c := OpenGroup(s), CloseGroup(inner);
    assert GivenWidth(o) == GivenWidth(s) && GivenWidth(c) == GivenWidth(inner);
    assert Untouched(s) ==> Untouched(o);
    assert Untouched(inner) ==> Untouched(c);
  }

  lemma NestFlat(maxwidth: int, s: State, amount: int, body: Calls, inner: State, rest: Calls, r: State)
    requires StaysFlat(maxwidth, Pretty(maxwidth).nest(s, amount), body, inner)
    requires StaysFlat(maxwidth, Pretty(maxwidth).unnest(inner, amount), rest, r)
    ensures StaysFlat(maxwidth, s, InNest(amount, body, rest), r)
  {
    var o, c := Indented(s, s.indent + amount), Indented(inner, inner.indent - amount);
    assert GivenWidth(o) == GivenWidth(s) && GivenWidth(c) == GivenWidth(inner);
    assert Untouched(s) ==> Untouched(o);
    assert Untouched(inner) ==> Untouched(c);
  }

  lemma FlatIsInductive(maxwidth: int, q: Printer<State>, R: (State, Calls, State) -> bool)
    requires q == Pretty(maxwidth) && forall s, c, r :: R(s, c, r) == StaysFlat(maxwidth, s, c, r)
    ensures Inductive(q, R)
  {
    forall s, obj, width, rest, r | R(q.text(s, obj, width), rest, r)
      ensures R(s, AddText(obj, width, rest), r)
    {
      TextFlat(maxwidth, s, obj, width, rest, r);
    }
    forall s, sep, width, rest, r | R(q.breakable(s, sep, width), rest, r)
      ensures R(s, AddBreakable(sep, width, rest), r)
    {
      BreakableFlat(maxwidth, s, sep, width, rest, r);
    }
    forall s, body, inner, rest, r | R(q.open(s), body, inner) && R(q.close(inner), rest, r)
      ensures R(s, InGroup(body, rest), r)
    {
      GroupFlat(maxwidth, s, body, inner, rest, r);
    }
    forall s, amount, body, inner, rest, r | R(q.nest(s, amount), body, inner) && R(q.unnest(inner, amount), rest, r)
      ensures R(s, InNest(amount, body, rest), r)
    {
      NestFlat(maxwidth, s, amount, body, inner, rest, r);
    }
  }

  lemma RunFlat(maxwidth: int, s: State, calls: Calls)
    ensures StaysFlat(maxwidth, s, calls, Run(Pretty(maxwidth), s, calls))
  {
    var q := Pretty(maxwidth);
    var R := (s: State, c: Calls, r: State) => StaysFlat(maxwidth, s, c, r);
    FlatIsInductive(maxwidth, q, R);
    RunRelates(q, R, s, calls);
  }

  lemma RunStaysFlat(maxwidth: int, s: State, calls: Calls)
    requires Untouched(s) && NonNegative(calls) && GivenWidth(Run(Pretty(maxwidth), s, calls)) <= maxwidth
    ensures NoNewline(Run(Pretty(maxwidth), s, calls).log)
  {
    RunFlat(maxwidth, s, calls);
  }

  lemma PrintedWidth(maxwidth: int, calls: Calls, s: State)
    requires s == Printed(maxwidth, calls)
    ensures GivenWidth(s) == Read(calls).width
  {
    PrintedIsRead(maxwidth, calls);
  }

  lemma InitialUntouched()
    ensures Untouched(INITIAL)
  {
  }

  lemma PrintedStaysFlat(maxwidth: int, calls: Calls)
    requires NonNegative(calls) && Read(calls).width <= maxwidth
    ensures NoNewline(Printed(maxwidth, calls).log)
  {
    PrintedWidth(maxwidth, calls, Printed(maxwidth, calls));
    InitialUntouched();
    RunStaysFlat(maxwidth, INITIAL, calls);
  }

  lemma {:induction false} WordsOnly(log: seq<Piece>)
    requires forall i :: 0 <= i < |LogEvents(log)| ==> LogEvents(log)[i].Word?
    ensures NoNewline(log)
  {
    if log != [] {
      var n := |log| - 1;
      var before, last := LogEvents(log[..n]), PieceEvents(log[n]);
      assert LogEvents(log) == before + last;
      assert forall i :: 0 <= i < |before| ==> before[i] == LogEvents(log)[i];
      assert forall i :: 0 <= i < |last| ==> last[i] == LogEvents(log)[|before| + i];
      WordsOnly(log[..n]);
      assert forall i :: 0 <= i < n ==> log[i] == log[..n][i];
      assert log[n].Hint? ==> last[0].Break? && last[0] == LogEvents(log)[|before|];
    }
  }

  /** The final flush adds no newline to a state that has none. */
  lemma {:induction false} FlushAddsNone(s: State)
    requires Core(s) && AllUnbroken(s) && Consistent(s.log, s.paths) && Settled(s)
    ensures NoNewline(s.log) ==> NoNewline(OutputAll(s).log)
    decreases |s.buffer|
  {
    if s.buffer != [] {
      if s.buffer[0].Breakable? {
        assert s.groups[s.buffer[0].group].breakables == Of(s.buffer, s.buffer[0].group);
      }
      FinalOutput(s);
      FlushAddsNone(Output(s));
    }
  }

  lemma NoHintNoNewline(maxwidth: int, calls: Calls)
    requires !HasHint(calls)
    ensures NoNewline(Format(maxwidth, calls).log)
  {
    FormatIsRead(maxwidth, calls);
    WordsOnly(Format(maxwidth, calls).log);
  }

  lemma FlushKeepsNewlines(s: State)
    requires NoNewline(OutputAll(s).log)
    ensures NoNewline(s.log)
  {
    OutputAllGrows(s);
    assert forall i :: 0 <= i < |s.log| ==> s.log[i] == OutputAll(s).log[i];
  }

  lemma FlushedNewlines(maxwidth: int, calls: Calls)
    ensures NoNewline(Format(maxwidth, calls).log) <==> NoNewline(Printed(maxwidth, calls).log)
  {
    var s := Printed(maxwidth, calls);
    if NoNewline(OutputAll(s).log) {
      FlushKeepsNewlines(s);
    } else {
      InitialInv();
      RunInv(maxwidth, INITIAL, calls);
      FlushAddsNone(s);
    }
  }

  lemma {:induction false} LogWithHint(log: seq<Piece>, i: nat)
    requires i < |LogEvents(log)| && LogEvents(log)[i].Break?
    ensures HasHintPiece(log)
  {
    var n := |log| - 1;
    if i < |LogEvents(log[..n])| {
      LogWithHint(log[..n], i);
      var k :| 0 <= k < n && log[..n][k].Hint?;
      assert log[k].Hint?;
    } else {
      assert log[n].Hint?;
    }
  }

  lemma HintIsSomewhere(maxwidth: int, calls: Calls)
    requires HasHint(calls) && Printed(maxwidth, calls).buffer == []
    ensures HasHintPiece(Printed(maxwidth, calls).log)
  {
    var s := Printed(maxwidth, calls);
    assert LogEvents(s.log) == Read(calls).events by {
      PrintedIsRead(maxwidth, calls);
      assert Given(s) == LogEvents(s.log);
    }
    var i :| 0 <= i < |Read(calls).events| && Read(calls).events[i].Break?;
    LogWithHint(s.log, i);
  }

  /** A block with a hint that prints no newline still has its line buffered, so it fits. */
  lemma NoNewlineFits(maxwidth: int, calls: Calls)
    requires HasHint(calls) && NoNewline(Printed(maxwidth, calls).log)
    ensures Read(calls).width <= maxwidth
  {
    var s := Printed(maxwidth, calls);
    assert s.buffer != [] by {
      PrintedIsOccupied(maxwidth, calls);
      if s.buffer == [] { HintIsSomewhere(maxwidth, calls); }
    }
    assert GivenWidth(s) == Read(calls).width by { PrintedIsRead(maxwidth, calls); }
    OneLine(s.log);
    BufferedLineFits(maxwidth, calls);
  }

  /** The output has no newline exactly when the block has no hint or its text fits in the width. */
  lemma NoNewlineExactlyWhenItFits(maxwidth: int, calls: Calls)
    requires NonNegative(calls)
    ensures NoNewline(Format(maxwidth, calls).log) <==> !HasHint(calls) || Read(calls).width <= maxwidth
  {
    FlushedNewlines(maxwidth, calls);
    if !HasHint(calls) {
      NoHintNoNewline(maxwidth, calls);
    } else if Read(calls).width <= maxwidth {
      PrintedStaysFlat(maxwidth, calls);
    } else if NoNewline(Printed(maxwidth, calls).log) {
      NoNewlineFits(maxwidth, calls);
    }
  }

  lemma {:induction false} NewlineIsRendered(log: seq<Piece>)
    ensures Newline in Render(log) <==> !NoNewline(log)
  {
    if log != [] {
      var n := |log| - 1;
      NewlineIsRendered(log[..n]);
      assert Newline in PieceTokens(log[n]) <==> Newlined(log[n]);
      assert forall i :: 0 <= i < n ==> log[i] == log[..n][i];
      assert NoNewline(log) <==> NoNewline(log[..n]) && !Newlined(log[n]);
    }
  }

  lemma SingleLineHasNoNewline(calls: Calls)
    ensures Newline !in SingleLineFormat(calls)
  {
    var q := SingleLine();
    var P := (x: seq<Token>) => Newline !in x;
    assert forall x :: KeptBy(q, P, x);
    RunPreserves(q, P, [], calls);
  }

  /** The two printers print the same exactly when there is no hint or the text fits. */
  lemma SingleLineExactlyWhenItFits(maxwidth: int, calls: Calls)
    requires NonNegative(calls)
    ensures Render(Format(maxwidth, calls).log) == SingleLineFormat(calls) <==>
      !HasHint(calls) || Read(calls).width <= maxwidth
  {
    var log := Format(maxwidth, calls).log;
    NoNewlineExactlyWhenItFits(maxwidth, calls);
    NewlineIsRendered(log);
    SingleLineHasNoNewline(calls);
    if NoNewline(log) {
      assert Unbroken(log) == log;
      ErasingNewlinesGivesSingleLine(maxwidth, calls);
    }
  }
}

/**
 Every newline of the output is needed: its group was broken at a moment of the run at which a line
 had become too wide.
 */
module PrettyBreaks {
  import opened Common
  import opened PrettyCalls
  import opened PrettyState
  import opened PrettyInvariant
  import opened PrettyLayout
  import opened PrettyWidth
  import opened PrettyTidy
  import opened PrettyNeed

  ghost predicate Fine(maxwidth: int, s: State) {
    Good(maxwidth, s) && Tidy(s) && Measured(s)
  }

  predicate Broken(s: State, g: nat) {
    g < |s.groups| && s.groups[g].broke
  }

  // ---- one call

  lemma BufferTextMeasured(s: State, obj: Obj, width: int)
    requires Measured(s) && s.buffer != []
    ensures Measured(BufferText(s, obj, width))
  {
    WithTextEvents(s.buffer, obj, width);
  }

  lemma PushHintMeasured(s: State, sep: Obj, width: int)
    requires Measured(s)
    ensures Measured(PushHint(s, sep, width))
  {
    BufferEventsAppend(s.buffer, [Breakable(sep, width, s.indent, Top(s))]);
  }

  lemma TextNeeded(maxwidth: int, s: State, obj: Obj, width: int, g: nat)
    requires Fine(maxwidth, s) && !Broken(s, g) && Broken(TextStep(maxwidth, s, obj, width), g)
    ensures Needed(maxwidth, TextStep(maxwidth, s, obj, width), g)
  {
    if s.buffer != [] {
      var t := BufferText(s, obj, width);
      AddTextInv(s, obj, width, t);
      BufferTextTidy(s, obj, width);
      BufferTextMeasured(s, obj, width);
      assert TextStep(maxwidth, s, obj, width) == BreakOutmost(maxwidth, t);
      BreakOutmostNeeded(maxwidth, t, g);
    }
  }

  lemma BreakableNeeded(maxwidth: int, s: State, sep: Obj, width: int, g: nat)
    requires Fine(maxwidth, s) && !Broken(s, g) && Broken(BreakableStep(maxwidth, s, sep, width), g)
    ensures Needed(maxwidth, BreakableStep(maxwidth, s, sep, width), g)
  {
    BreakLineBreaksNone(s, sep, width, g);
    if !s.groups[Top(s)].broke {
      var t := PushHint(s, sep, width);
      PushHintInv(s, sep, width);
      PushHintTidy(s, sep, width);
      PushHintMeasured(s, sep, width);
      BreakOutmostNeeded(maxwidth, t, g);
    }
  }

  lemma BreakLineBreaksNone(s: State, sep: Obj, width: int, g: nat)
    ensures Broken(BreakLine(Flush(s), sep, width), g) == Broken(s, g)
  {
    OutputAllBreaksNone(s);
  }

  lemma TextFine(maxwidth: int, s: State, obj: Obj, width: int)
    requires Fine(maxwidth, s)
    ensures Fine(maxwidth, TextStep(maxwidth, s, obj, width))
  {
    TextInv(maxwidth, s, obj, width);
    TextTidy(maxwidth, s, obj, width);
    TextMeasured(maxwidth, s, obj, width);
  }

  lemma BreakableFine(maxwidth: int, s: State, sep: Obj, width: int)
    requires Fine(maxwidth, s)
    ensures Fine(maxwidth, BreakableStep(maxwidth, s, sep, width))
  {
    BreakableInv(maxwidth, s, sep, width);
    BreakableTidy(maxwidth, s, sep, width);
    BreakableMeasured(maxwidth, s, sep, width);
  }

  lemma OpenFine(maxwidth: int, s: State)
    requires Fine(maxwidth, s)
    ensures Fine(maxwidth, OpenGroup(s))
  {
    OpenGroupInv(s);
    OpenGroupTidy(s);
  }

  lemma CloseFine(maxwidth: int, s: State)
    requires Fine(maxwidth, s)
    ensures Fine(maxwidth, CloseGroup(s))
  {
    CloseGroupInv(s);
    CloseGroupTidy(s);
  }

  lemma IndentedFine(maxwidth: int, s: State, indent: int)
    requires Fine(maxwidth, s)
    ensures Fine(maxwidth, Indented(s, indent))
  {
    NestInv(s, indent);
    IndentedTidy(s, indent);
  }

  lemma TextGrows(maxwidth: int, s: State, obj: Obj, width: int)
    ensures Grows(s, TextStep(maxwidth, s, obj, width))
  {
    if s.buffer != [] {
      BreakOutmostGrows(maxwidth, BufferText(s, obj, width));
    }
  }

  lemma BreakableGrows(maxwidth: int, s: State, sep: Obj, width: int)
    ensures Grows(s, BreakableStep(maxwidth, s, sep, width))
  {
    if Lookup(s.groups, Top(s)).broke {
      OutputAllGrows(s);
      GrowsTwice(s, Flush(s), BreakLine(Flush(s), sep, width));
    } else {
      BreakOutmostGrows(maxwidth, PushHint(s, sep, width));
    }
  }

  // ---- a block of calls

  lemma NestingGrows(s: State, n: int)
    ensures Grows(s, OpenGroup(s)) && Grows(s, CloseGroup(s)) && Grows(s, Indented(s, n))
  {
    assert s.log[..|s.log|] == s.log;
  }

  /** What the printer does besides printing. */
  lemma NestingIs(maxwidth: int, s: State, n: int)
    ensures var q := Pretty(maxwidth);
            && q.open(s) == OpenGroup(s) && q.close(s) == CloseGroup(s)
            && q.nest(s, n) == Indented(s, s.indent + n) && q.unnest(s, n) == Indented(s, s.indent - n)
  {
  }

  lemma GrowsOnward(maxwidth: int, R: (State, State) -> bool)
    requires forall s, r :: R(s, r) == Grows(s, r)
    ensures Onward(Pretty(maxwidth), R)
  {
    var q := Pretty(maxwidth);
    forall s, t, r | R(s, t) && R(t, r) ensures R(s, r) { GrowsTwice(s, t, r); }
    forall s, obj, width ensures R(s, q.text(s, obj, width)) { TextGrows(maxwidth, s, obj, width); }
    forall s, sep, width ensures R(s, q.breakable(s, sep, width)) { BreakableGrows(maxwidth, s, sep, width); }
    forall s ensures R(s, q.open(s)) && R(s, q.close(s)) {
      NestingIs(maxwidth, s, 0);
      NestingGrows(s, 0);
    }
    forall s, n ensures R(s, q.nest(s, n)) && R(s, q.unnest(s, n)) {
      NestingIs(maxwidth, s, n);
      NestingGrows(s, s.indent + n);
      NestingGrows(s, s.indent - n);
    }
  }

  lemma PrintingFine(maxwidth: int, s: State, P: State -> bool)
    requires Fine(maxwidth, s) && forall x :: Fine(maxwidth, x) ==> P(x)
    ensures forall obj, width :: P(TextStep(maxwidth, s, obj, width))
    ensures forall sep, width :: P(BreakableStep(maxwidth, s, sep, width))
  {
    forall obj, width ensures P(TextStep(maxwidth, s, obj, width)) { TextFine(maxwidth, s, obj, width); }
    forall sep, width ensures P(BreakableStep(maxwidth, s, sep, width)) { BreakableFine(maxwidth, s, sep, width); }
  }

  lemma NestingFine(maxwidth: int, s: State, P: State -> bool)
    requires Fine(maxwidth, s) && forall x :: Fine(maxwidth, x) ==> P(x)
    ensures P(OpenGroup(s)) && P(CloseGroup(s)) && forall n :: P(Indented(s, n))
  {
    OpenFine(maxwidth, s);
    CloseFine(maxwidth, s);
    forall n ensures P(Indented(s, n)) { IndentedFine(maxwidth, s, n); }
  }

  lemma FineKept(maxwidth: int, q: Printer<State>, P: State -> bool, s: State)
    requires q == Pretty(maxwidth) && (P(s) ==> Fine(maxwidth, s)) && forall x :: Fine(maxwidth, x) ==> P(x)
    ensures KeptBy(q, P, s)
  {
    if P(s) {
      PrintingFine(maxwidth, s, P);
      NestingFine(maxwidth, s, P);
    }
  }

  /** Opening, closing and indenting break no group. */
  lemma NestingBreaksNone(s: State, n: int, g: nat)
    requires !Broken(s, g)
    ensures !Broken(OpenGroup(s), g) && !Broken(CloseGroup(s), g) && !Broken(Indented(s, n), g)
  {
  }

  lemma BrokenByPrinting(maxwidth: int, P: State -> bool, Q: State -> bool, g: nat)
    requires forall s :: Q(s) == Broken(s, g)
    ensures OnlyByPrinting(Pretty(maxwidth), P, Q)
  {
    var q := Pretty(maxwidth);
    forall s | P(s) && !Q(s) ensures !Q(q.open(s)) && !Q(q.close(s)) {
      NestingIs(maxwidth, s, 0);
      NestingBreaksNone(s, 0, g);
    }
    forall s, n | P(s) && !Q(s) ensures !Q(q.nest(s, n)) && !Q(q.unnest(s, n)) {
      NestingIs(maxwidth, s, n);
      NestingBreaksNone(s, s.indent + n, g);
      NestingBreaksNone(s, s.indent - n, g);
    }
  }

  /** A call at which group g was needed, and what it left of the output is what the whole output begins with. */
  ghost predicate Moment(maxwidth: int, x: State, y: State, r: State, g: nat) {
    Fine(maxwidth, y) && !Broken(x, g) && Broken(y, g) && Needed(maxwidth, y, g) && Grows(y, r)
  }

  ghost predicate WasNeeded(maxwidth: int, calls: Calls, r: State, g: nat) {
    exists x, y :: Passes(Pretty(maxwidth), INITIAL, calls, x, y) && Moment(maxwidth, x, y, r, g)
  }

  /** What breaks a group is needed. */
  ghost predicate NeededIfBroken(maxwidth: int, x: State, y: State, g: nat) {
    Fine(maxwidth, y) && (!Broken(x, g) && Broken(y, g) ==> Needed(maxwidth, y, g))
  }

  lemma PassedIsNeeded(maxwidth: int, calls: Calls, x: State, y: State, g: nat)
    requires Passes(Pretty(maxwidth), INITIAL, calls, x, y) && Fine(maxwidth, x)
    ensures NeededIfBroken(maxwidth, x, y, g)
  {
    var q, R := Pretty(maxwidth), (x: State, y: State) => NeededIfBroken(maxwidth, x, y, g);
    forall obj, width ensures R(x, q.text(x, obj, width)) {
      TextFine(maxwidth, x, obj, width);
      if !Broken(x, g) && Broken(q.text(x, obj, width), g) { TextNeeded(maxwidth, x, obj, width, g); }
    }
    forall sep, width ensures R(x, q.breakable(x, sep, width)) {
      BreakableFine(maxwidth, x, sep, width);
      if !Broken(x, g) && Broken(q.breakable(x, sep, width), g) { BreakableNeeded(maxwidth, x, sep, width, g); }
    }
    PassedCall(q, R, INITIAL, calls, x, y);
  }

  lemma BrokenWasNeeded(maxwidth: int, calls: Calls, g: nat)
    requires Broken(Printed(maxwidth, calls), g)
    ensures WasNeeded(maxwidth, calls, Printed(maxwidth, calls), g)
  {
    var q, P, Q := Pretty(maxwidth), (x: State) => Fine(maxwidth, x), (x: State) => Broken(x, g);
    var R := (s: State, r: State) => Grows(s, r);
    forall z: State ensures KeptBy(q, P, z) { FineKept(maxwidth, q, P, z); }
    BrokenByPrinting(maxwidth, P, Q, g);
    InitialFine(maxwidth);
    var x, y := BecameTrue(q, P, Q, INITIAL, calls);
    GrowsOnward(maxwidth, R);
    PassedOnward(q, R, INITIAL, calls, x, y);
    PassedIsNeeded(maxwidth, calls, x, y, g);
    assert Moment(maxwidth, x, y, Printed(maxwidth, calls), g);
  }

  lemma InitialFine(maxwidth: int)
    ensures Fine(maxwidth, INITIAL)
  {
    InitialInv();
    InitialTidy();
  }

  lemma PrintedIsFine(maxwidth: int, calls: Calls)
    ensures Fine(maxwidth, Printed(maxwidth, calls))
  {
    var q, P := Pretty(maxwidth), (x: State) => Fine(maxwidth, x);
    forall z: State ensures KeptBy(q, P, z) { FineKept(maxwidth, q, P, z); }
    InitialFine(maxwidth);
    RunPreserves(q, P, INITIAL, calls);
  }

  lemma NeededInTheEnd(maxwidth: int, calls: Calls, s: State, r: State, g: nat)
    requires WasNeeded(maxwidth, calls, s, g) && Grows(s, r)
    ensures WasNeeded(maxwidth, calls, r, g)
  {
    var x, y :| Passes(Pretty(maxwidth), INITIAL, calls, x, y) && Moment(maxwidth, x, y, s, g);
    GrowsTwice(y, s, r);
    assert Moment(maxwidth, x, y, r, g);
  }

  /** The group of every newline in the output was broken at a call at which a line had become too wide. */
  lemma NewlinesAreNeeded(maxwidth: int, calls: Calls, i: nat)
    requires i < |Format(maxwidth, calls).log| && Newlined(Format(maxwidth, calls).log[i])
    ensures WasNeeded(maxwidth, calls, Format(maxwidth, calls), Format(maxwidth, calls).log[i].group)
  {
    var s, r := Printed(maxwidth, calls), Format(maxwidth, calls);
    var g := r.log[i].group;
    PrintedIsFine(maxwidth, calls);
    FlushTidy(s);
    OutputAllGrows(s);
    BrokenWasNeeded(maxwidth, calls, g);
    NeededInTheEnd(maxwidth, calls, s, r, g);
  }

  /** A group broken along with another encloses it exactly if it was opened before it. */
  lemma EnclosesExactlyIfOpenedBefore(maxwidth: int, s: State, g: nat, h: nat)
    requires Fine(maxwidth, s) && BrokenAlong(s, g, h)
    ensures g in s.paths[h] <==> g < h
  {
    var k :| 0 <= k < |s.stack| && s.stack[k] == g;
    if g < h {
      assert s.paths[h][k] == g;
    } else {
      assert g != h;
    }
  }
}

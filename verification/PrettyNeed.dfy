/**
 No group is broken without need: behind every newline there is a moment at which a line, with the
 group left unbroken, was wider than the maximum.
 */
module PrettyNeed {
  import opened Common
  import opened PrettyCalls
  import opened PrettyState
  import opened PrettyInvariant
  import opened PrettyLayout
  import opened PrettyWidth
  import opened PrettyTidy

  // ---- everything given so far, hints unbroken

  function Flat(p: Piece): Piece {
    if p.Hint? then p.(broken := false) else p
  }

  function FlatItem(item: Item): Piece {
    match item
    case Text(objs, width) => Words(objs, width)
    case Breakable(sep, width, indent, group) => Hint(group, sep, width, indent, false)
  }

  function FlatItems(buffer: seq<Item>): (r: seq<Piece>)
    ensures |r| == |buffer| && forall i :: 0 <= i < |buffer| ==> r[i] == FlatItem(buffer[i])
  {
    seq(|buffer|, i requires 0 <= i < |buffer| => FlatItem(buffer[i]))
  }

  /** Everything the printer was given, printed or not, each hint as a separator. */
  function Pieces(s: State): (r: seq<Piece>)
    ensures |r| == |s.log| + |s.buffer|
    ensures forall i :: 0 <= i < |s.log| ==> r[i] == Flat(s.log[i])
    ensures forall k :: |s.log| <= k < |r| ==> r[k] == FlatItem(s.buffer[k - |s.log|])
  {
    seq(|s.log|, i requires 0 <= i < |s.log| => Flat(s.log[i])) + FlatItems(s.buffer)
  }

  predicate HintOf(p: Piece, g: nat) {
    p.Hint? && p.group == g
  }

  ghost predicate NoHintOf(pieces: seq<Piece>, g: nat) {
    forall i :: 0 <= i < |pieces| ==> !HintOf(pieces[i], g)
  }

  /** Behind piece p there are only hints of h and of deeper groups. */
  ghost predicate DeeperFrom(s: State, h: nat, p: nat)
    requires h < |s.paths|
  {
    forall k :: p <= k < |Pieces(s)| && Pieces(s)[k].Hint? ==>
      var g := Pieces(s)[k].group;
      g == h || (g < |s.paths| && |s.paths[h]| < |s.paths[g]|)
  }

  /** Group h had to be broken: from its first hint p on, which came out as a newline, everything given
      since, together with the line in front of it, is too wide for one line, and there is no other hint
      in it at which to break first: each is of h or of a deeper group. */
  ghost predicate Overfull(maxwidth: int, s: State, h: nat, p: nat) {
    && p < |s.log| && h < |s.paths|
    && Newlined(s.log[p]) && s.log[p].group == h && NoHintOf(s.log[..p], h)
    && LineWidth(s.log[..p]) + LogWidth(Pieces(s)[p..]) > maxwidth
    && DeeperFrom(s, h, p)
  }

  /** Group g is open and has no hint so far. */
  ghost predicate OpenWithoutHint(s: State, g: nat) {
    g in s.stack && g < |s.paths| && NoHintOf(Pieces(s), g)
  }

  /** A group broken together with h, though nothing of it has to be printed yet: it is less deep. */
  ghost predicate BrokenAlong(s: State, g: nat, h: nat) {
    OpenWithoutHint(s, g) && h < |s.paths| && |s.paths[g]| < |s.paths[h]|
  }

  /** The current line is too wide, and there is nothing left at which to break it. */
  ghost predicate Stuck(maxwidth: int, s: State) {
    s.buffer == [] && LineWidth(s.log) > maxwidth
  }

  /** Group g was broken at this moment because of a line that is too wide. */
  ghost predicate Needed(maxwidth: int, s: State, g: nat) {
    || (exists h, p :: Overfull(maxwidth, s, h, p) && (g == h || BrokenAlong(s, g, h)))
    || (Stuck(maxwidth, s) && OpenWithoutHint(s, g))
  }

  // ---- printing keeps the pieces

  lemma OutputPieces(s: State)
    requires s.buffer != []
    ensures Pieces(Output(s)) == Pieces(s)
  {
    var r := Output(s);
    assert r.log == s.log + [r.log[|s.log|]];
    forall i | 0 <= i < |Pieces(s)|
      ensures Pieces(r)[i] == Pieces(s)[i]
    {
      if i > |s.log| { assert r.buffer[i - |s.log| - 1] == s.buffer[i - |s.log|]; }
    }
  }

  lemma {:induction false} OutputGroupPieces(s: State, g: nat)
    ensures Pieces(OutputGroup(s, g)) == Pieces(s)
    decreases |s.buffer|
  {
    if Lookup(s.groups, g).breakables != [] && s.buffer != [] {
      OutputPieces(s);
      OutputGroupPieces(Output(s), g);
    }
  }

  lemma {:induction false} OutputTextsPieces(s: State)
    ensures Pieces(OutputTexts(s)) == Pieces(s)
    decreases |s.buffer|
  {
    if s.buffer != [] && s.buffer[0].Text? {
      OutputPieces(s);
      OutputTextsPieces(Output(s));
    }
  }

  lemma RoundPieces(s: State, t: nat)
    ensures Pieces(Round(Deq(s), t)) == Pieces(s) && Grows(s, Round(Deq(s), t))
  {
    var o := OutputGroup(Deq(s), t);
    OutputGroupPieces(Deq(s), t);
    OutputTextsPieces(o);
    OutputGroupGrows(Deq(s), t);
    OutputTextsGrows(o);
    GrowsTwice(s, o, OutputTexts(o));
    assert Pieces(Deq(s)) == Pieces(s);
  }

  lemma {:induction false} BreakOutmostPieces(maxwidth: int, s: State)
    ensures Pieces(BreakOutmost(maxwidth, s)) == Pieces(s)
    decreases QueueSize(s.queue)
  {
    if maxwidth < s.outputWidth + s.bufferWidth {
      if Found(s).Some? {
        RoundPieces(s, Found(s).value);
        BreakOutmostPieces(maxwidth, Round(Deq(s), Found(s).value));
      } else {
        assert Pieces(Deq(s)) == Pieces(s);
      }
    }
  }

  lemma OverfullKept(maxwidth: int, s: State, r: State, h: nat, p: nat)
    requires Overfull(maxwidth, s, h, p) && Grows(s, r) && Pieces(r) == Pieces(s) && r.paths == s.paths
    ensures Overfull(maxwidth, r, h, p)
  {
    assert r.log[..p] == r.log[..|s.log|][..p] == s.log[..p];
    assert r.log[p] == r.log[..|s.log|][p];
  }

  /** What was needed stays needed while the rest of the call prints. */
  lemma NeededKept(maxwidth: int, s: State, r: State, g: nat)
    requires Needed(maxwidth, s, g)
    requires Grows(s, r) && Pieces(r) == Pieces(s) && SameNesting(s, r)
    ensures Needed(maxwidth, r, g)
  {
    if Stuck(maxwidth, s) && OpenWithoutHint(s, g) {
      assert r.log == s.log;
    } else {
      var h, p :| Overfull(maxwidth, s, h, p) && (g == h || BrokenAlong(s, g, h));
      OverfullKept(maxwidth, s, r, h, p);
    }
  }

  // ---- the moment at which a group is broken

  /** No group but t has pending hints and is broken. */
  ghost predicate OnlyBroken(s: State, t: nat) {
    forall g :: 0 <= g < |s.groups| && s.groups[g].breakables != [] && g != t ==> !s.groups[g].broke
  }

  lemma FirstNewline(s: State, t: nat) returns (p: nat)
    requires Core(s) && Measured(s) && s.buffer != [] && Hinted(s.buffer[0], t) && s.groups[t].broke
    requires s.groups[t].breakables != []
    ensures p == |s.log| < |OutputGroup(s, t).log|
    ensures var r := OutputGroup(s, t);
            && Newlined(r.log[p]) && r.log[p].group == t && r.log[..p] == s.log
            && LineWidth(r.log[..p]) == s.outputWidth
  {
    p := |s.log|;
    var o, r := Output(s), OutputGroup(s, t);
    OutputGroupGrows(o, t);
    assert r.log[..|o.log|] == o.log;
    assert r.log[p] == o.log[p];
    assert r.log[..p] == o.log[..p] == s.log;
  }

  /** Printing an item that is not a newline does not change the width of line and buffer. */
  lemma OutputOther(s: State, t: nat)
    requires Core(s) && Measured(s) && OnlyBroken(s, t) && s.buffer != [] && !Hinted(s.buffer[0], t)
    ensures var r := Output(s);
            && Core(r) && Measured(r) && OnlyBroken(r, t)
            && r.outputWidth + r.bufferWidth == s.outputWidth + s.bufferWidth
            && |r.log| == |s.log| + 1 && r.log[..|s.log|] == s.log && !HintOf(r.log[|s.log|], t)
            && (t < |s.groups| ==> r.groups[t] == s.groups[t])
  {
    OutputCore(s);
    OutputMeasured(s);
    if s.buffer[0].Breakable? { PendingHint(s, 0); }
  }

  lemma {:induction false} FlatWidth(a: seq<Piece>, buffer: seq<Item>)
    ensures LogWidth(a + FlatItems(buffer)) == LogWidth(a) + BufferedWidth(buffer)
    decreases |buffer|
  {
    if buffer == [] {
      assert a + FlatItems(buffer) == a;
    } else {
      var first, rest := FlatItem(buffer[0]), FlatItems(buffer[1..]);
      assert FlatItems(buffer) == [first] + rest;
      assert a + FlatItems(buffer) == a + [first] + rest;
      LogEventsPush(a, first);
      FlatWidth(a + [first], buffer[1..]);
    }
  }

  lemma PiecesWidth(s: State)
    ensures LogWidth(Pieces(s)[|s.log|..]) == BufferedWidth(s.buffer)
  {
    FlatWidth([], s.buffer);
    assert [] + FlatItems(s.buffer) == FlatItems(s.buffer) == Pieces(s)[|s.log|..];
  }

  /** Piece p is the first newline of t behind the log of s, and up to it the line is as wide as it was. */
  ghost predicate FirstOf(s: State, r: State, t: nat, p: nat) {
    && |s.log| <= p < |r.log| && Newlined(r.log[p]) && r.log[p].group == t && p <= |Pieces(s)|
    && LineWidth(r.log[..p]) + LogWidth(Pieces(s)[p..]) == s.outputWidth + s.bufferWidth
    && (forall i :: |s.log| <= i < p ==> !HintOf(r.log[i], t))
  }

  /** Printing group t comes to a first newline of t. */
  lemma {:induction false} OutputGroupFirst(s: State, t: nat) returns (p: nat)
    requires Core(s) && Measured(s) && OnlyBroken(s, t) && t < |s.groups|
    requires s.groups[t].broke && s.groups[t].breakables != []
    ensures FirstOf(s, OutputGroup(s, t), t, p)
    decreases |s.buffer|
  {
    assert s.groups[t].breakables == Of(s.buffer, t);
    if Hinted(s.buffer[0], t) {
      p := FirstNewline(s, t);
      PiecesWidth(s);
    } else {
      OutputOther(s, t);
      p := OutputGroupFirst(Output(s), t);
      LaterFirst(s, t, p);
    }
  }

  lemma LaterFirst(s: State, t: nat, p: nat)
    requires Core(s) && Measured(s) && OnlyBroken(s, t) && s.buffer != [] && !Hinted(s.buffer[0], t) && t < |s.groups|
    requires s.groups[t].breakables != [] && FirstOf(Output(s), OutputGroup(Output(s), t), t, p)
    ensures FirstOf(s, OutputGroup(s, t), t, p)
  {
    var o, r := Output(s), OutputGroup(Output(s), t);
    OutputOther(s, t);
    OutputPieces(s);
    OutputGroupGrows(o, t);
    assert OutputGroup(s, t) == r;
    assert r.log[|s.log|] == r.log[..|o.log|][|s.log|] == o.log[|s.log|];
    SkipPiece(s, o, r, t, p);
  }

  lemma SkipPiece(s: State, o: State, r: State, t: nat, p: nat)
    requires FirstOf(o, r, t, p) && Pieces(o) == Pieces(s) && |o.log| == |s.log| + 1
    requires o.outputWidth + o.bufferWidth == s.outputWidth + s.bufferWidth && !HintOf(r.log[|s.log|], t)
    ensures FirstOf(s, r, t, p)
  {
  }

  lemma NoneBuffered(s: State, g: nat)
    requires Core(s) && g < |s.groups| && s.groups[g].breakables == []
    ensures forall i :: 0 <= i < |s.buffer| ==> !Hinted(s.buffer[i], g)
  {
    assert s.groups[g].breakables == Of(s.buffer, g);
    assert Reach(s.buffer, g) == 0;
  }

  /** An unbroken group that is open or has pending hints has printed no hint. */
  lemma NonePrinted(s: State, g: nat)
    requires Inv(s) && Tidy(s) && g < |s.groups| && !s.groups[g].broke
    requires g in s.stack || s.groups[g].breakables != []
    ensures NoHintOf(s.log, g)
  {
    forall i | 0 <= i < |s.log| && HintOf(s.log[i], g)
      ensures false
    {
      if s.groups[g].breakables != [] && Separated(s.log[i]) { SealedHasNothingPending(s, g, i); }
    }
  }

  lemma WaitingHasNoHint(s: State, g: nat)
    requires Inv(s) && Tidy(s) && g < |s.groups| && Waits(s, g)
    ensures OpenWithoutHint(s, g)
  {
    NonePrinted(s, g);
    NoneBuffered(s, g);
    NoneGiven(s, g);
  }

  lemma NoneGiven(s: State, g: nat)
    requires NoHintOf(s.log, g) && forall i :: 0 <= i < |s.buffer| ==> !Hinted(s.buffer[i], g)
    ensures NoHintOf(Pieces(s), g)
  {
    forall i | 0 <= i < |Pieces(s)|
      ensures !HintOf(Pieces(s)[i], g)
    {
      if i >= |s.log| { assert !Hinted(s.buffer[i - |s.log|], g); }
    }
  }

  /** Behind a pending hint of the group that deq takes, all pending hints are its own or deeper. */
  lemma TakenIsOutmost(s: State, t: nat, b: nat, i: nat)
    requires Inv(s) && Tidy(s) && Found(s) == Some(t)
    requires b <= i < |s.buffer| && Hinted(s.buffer[b], t) && s.buffer[i].Breakable?
    ensures s.buffer[i].group == t || s.groups[t].depth < s.groups[s.buffer[i].group].depth
  {
    var c, d := s.buffer[i].group, DeqFrom(s.groups, s.queue, 0);
    PendingHint(s, i);
    DeqCore(s);
    DeqRows(s.groups, s.queue, 0, d);
    assert IsQueued(s.groups, s.queue, c);
    if c != t && s.groups[c].depth == s.groups[t].depth {
      assert Level(s, b, i);
      TakenBehind(s, t, c);
      assert false;
    }
  }

  /** In the row of the group that deq takes, the others with pending hints were opened before it. */
  lemma TakenBehind(s: State, t: nat, c: nat)
    requires Tidy(s) && TakenLast(s.groups, s.queue, t) && t < |s.groups| && c < |s.groups| && c != t
    requires IsQueued(s.groups, s.queue, c) && s.groups[c].breakables != [] && s.groups[c].depth == s.groups[t].depth
    ensures c < t
  {
    var e, i :| 0 <= e < |s.queue| && 0 <= i < |s.queue[e]| && s.queue[e][i] == t &&
                NonePending(s.groups, s.queue[e], i);
    var j :| 0 <= j < |s.queue[e]| && s.queue[e][j] == c;
  }

  /** The groups that one deq breaks, when a line has become too wide. */
  lemma DeqBreaks(s: State, g: nat)
    requires Inv(s) && Tidy(s) && g < |s.groups| && Deq(s).groups[g].broke && !s.groups[g].broke
    requires Found(s) != Some(g)
    ensures OpenWithoutHint(s, g)
    ensures Found(s).Some? ==> Found(s).value < |s.groups| && s.groups[g].depth < s.groups[Found(s).value].depth
  {
    DeqCore(s);
    assert Waits(s, g);
    WaitingHasNoHint(s, g);
  }

  lemma OthersUnbroken(s: State, t: nat)
    requires Inv(s) && Found(s) == Some(t)
    ensures OnlyBroken(Deq(s), t) && Core(Deq(s)) && t < |s.groups|
    ensures Deq(s).groups[t].broke && Deq(s).groups[t].breakables == s.groups[t].breakables != []
    ensures !s.groups[t].broke
  {
    DeqCore(s);
    DeqReady(s);
  }

  /** The first newline of the taken group is its first hint. */
  lemma FirstIsFirst(s: State, r: State, t: nat, p: nat)
    requires Inv(s) && Tidy(s) && Found(s) == Some(t) && FirstOf(Deq(s), r, t, p) && Grows(Deq(s), r)
    ensures NoHintOf(r.log[..p], t)
  {
    OthersUnbroken(s, t);
    NonePrinted(s, t);
    forall i | 0 <= i < p
      ensures !HintOf(r.log[..p][i], t)
    {
      if i < |s.log| { assert r.log[i] == r.log[..|s.log|][i] == s.log[i]; }
    }
  }

  /** When the line is too wide and something is pending, the group that is taken is overfull. */
  lemma TakenIsOverfull(maxwidth: int, s: State, t: nat) returns (p: nat)
    requires Inv(s) && Tidy(s) && Measured(s) && Found(s) == Some(t)
    requires s.outputWidth + s.bufferWidth > maxwidth
    ensures Overfull(maxwidth, Round(Deq(s), t), t, p)
  {
    var z, r := Deq(s), OutputGroup(Deq(s), t);
    OthersUnbroken(s, t);
    p := OutputGroupFirst(z, t);
    OutputGroupGrows(z, t);
    FirstIsFirst(s, r, t, p);
    OutputGroupPieces(z, t);
    assert Pieces(z) == Pieces(s);
    PieceWasBuffered(s, r, t, p);
    TakenIsOutmostOfAll(s, t, p - |s.log|);
    DeeperPieces(s, r, t, p);
    assert Overfull(maxwidth, r, t, p);
    OutputTextsGrows(r);
    OutputTextsPieces(r);
    OverfullKept(maxwidth, r, Round(z, t), t, p);
  }

  lemma PathsAreDeeper(s: State, t: nat, g: nat)
    requires Paths(s) && t < |s.groups| && g < |s.groups| && s.groups[t].depth < s.groups[g].depth
    ensures |s.paths[t]| < |s.paths[g]|
  {
  }

  /** From item b on the hints in the buffer are of t or of deeper groups. */
  ghost predicate DeeperItems(s: State, t: nat, b: nat)
    requires t < |s.paths|
  {
    forall i :: b <= i < |s.buffer| && s.buffer[i].Breakable? ==>
      var c := s.buffer[i].group; c == t || (c < |s.paths| && |s.paths[t]| < |s.paths[c]|)
  }

  lemma TakenIsOutmostOfAll(s: State, t: nat, b: nat)
    requires Inv(s) && Tidy(s) && Found(s) == Some(t) && t < |s.groups| && b < |s.buffer| && Hinted(s.buffer[b], t)
    ensures DeeperItems(s, t, b)
  {
    forall i | b <= i < |s.buffer| && s.buffer[i].Breakable?
      ensures var c := s.buffer[i].group; c == t || (c < |s.paths| && |s.paths[t]| < |s.paths[c]|)
    {
      TakenIsOutmost(s, t, b, i);
      if s.buffer[i].group != t { PathsAreDeeper(s, t, s.buffer[i].group); }
    }
  }

  lemma DeeperPieces(s: State, w: State, t: nat, p: nat)
    requires t < |s.paths| && |s.log| <= p && DeeperItems(s, t, p - |s.log|)
    requires Pieces(w) == Pieces(s) && w.paths == s.paths
    ensures DeeperFrom(w, t, p)
  {
    var pieces, n := Pieces(s), |s.log|;
    forall k | p <= k < |pieces| && pieces[k].Hint?
      ensures var g := pieces[k].group; g == t || (g < |s.paths| && |s.paths[t]| < |s.paths[g]|)
    {
      assert pieces[k] == FlatItem(s.buffer[k - n]);
    }
  }

  /** The piece that came out as the first newline of t was an item of the buffer. */
  lemma PieceWasBuffered(s: State, w: State, t: nat, p: nat)
    requires |s.log| <= p < |w.log| && HintOf(w.log[p], t) && Pieces(w) == Pieces(s)
    ensures p - |s.log| < |s.buffer| && Hinted(s.buffer[p - |s.log|], t)
  {
    var n := |s.log|;
    assert Pieces(w)[p] == Flat(w.log[p]);
    assert Pieces(s)[p] == FlatItem(s.buffer[p - n]);
  }

  lemma AlongKept(s: State, w: State, g: nat, t: nat)
    requires Paths(s) && OpenWithoutHint(s, g) && t < |s.groups| && s.groups[g].depth < s.groups[t].depth
    requires Pieces(w) == Pieces(s) && SameNesting(s, w)
    ensures BrokenAlong(w, g, t)
  {
    PathsAreDeeper(s, g, t);
  }

  /** One round of breaking: every group it breaks was needed. */
  lemma RoundNeeded(maxwidth: int, s: State, t: nat, g: nat)
    requires Inv(s) && Tidy(s) && Measured(s) && Found(s) == Some(t)
    requires s.outputWidth + s.bufferWidth > maxwidth
    requires g < |s.groups| && Deq(s).groups[g].broke && !s.groups[g].broke
    ensures Needed(maxwidth, Round(Deq(s), t), g)
  {
    var p := TakenIsOverfull(maxwidth, s, t);
    if g != t {
      var w := Round(Deq(s), t);
      DeqBreaks(s, g);
      RoundPieces(s, t);
      AlongKept(s, w, g, t);
    }
  }

  // ---- breaking until the line fits

  /** Printing marks no group as broken. */
  lemma {:induction false} OutputGroupBreaksNone(s: State, t: nat)
    ensures forall g :: 0 <= g < |s.groups| ==> OutputGroup(s, t).groups[g].broke == s.groups[g].broke
    decreases |s.buffer|
  {
    if Lookup(s.groups, t).breakables != [] && s.buffer != [] { OutputGroupBreaksNone(Output(s), t); }
  }

  lemma {:induction false} OutputTextsBreaksNone(s: State)
    ensures forall g :: 0 <= g < |s.groups| ==> OutputTexts(s).groups[g].broke == s.groups[g].broke
    decreases |s.buffer|
  {
    if s.buffer != [] && s.buffer[0].Text? { OutputTextsBreaksNone(Output(s)); }
  }

  lemma RoundBreaksNone(s: State, t: nat)
    ensures forall g :: 0 <= g < |s.groups| ==> Round(s, t).groups[g].broke == s.groups[g].broke
  {
    OutputGroupBreaksNone(s, t);
    OutputTextsBreaksNone(OutputGroup(s, t));
  }

  lemma RoundTidy(s: State, t: nat)
    requires Tidy(s) && Measured(s)
    ensures Tidy(Round(Deq(s), t)) && Measured(Round(Deq(s), t))
  {
    DeqTidy(s);
    OutputGroupTidy(Deq(s), t);
    OutputTextsTidy(OutputGroup(Deq(s), t));
    assert Measured(Deq(s));
    OutputGroupMeasured(Deq(s), t);
    OutputTextsMeasured(OutputGroup(Deq(s), t));
  }

  /** The line is too wide, and nothing is left to break. */
  lemma NothingNeeded(maxwidth: int, s: State, g: nat)
    requires Inv(s) && StartsWithHint(s) && Tidy(s) && Measured(s) && Found(s) == None
    requires s.outputWidth + s.bufferWidth > maxwidth
    requires g < |s.groups| && Deq(s).groups[g].broke && !s.groups[g].broke
    ensures Needed(maxwidth, Deq(s), g)
  {
    NothingFound(s);
    DeqBreaks(s, g);
    StuckBehindDeq(maxwidth, s, g);
  }

  lemma StuckBehindDeq(maxwidth: int, s: State, g: nat)
    requires OpenWithoutHint(s, g) && s.buffer == [] && Measured(s) && s.outputWidth + s.bufferWidth > maxwidth
    ensures Needed(maxwidth, Deq(s), g)
  {
    var r := Deq(s);
    assert r.log == s.log && r.buffer == s.buffer && r.stack == s.stack && r.paths == s.paths;
    assert Pieces(r) == Pieces(s);
    assert Stuck(maxwidth, r) && OpenWithoutHint(r, g);
  }

  lemma {:induction false} BreakOutmostNeeded(maxwidth: int, s: State, g: nat)
    requires Inv(s) && StartsWithHint(s) && Tidy(s) && Measured(s)
    requires g < |s.groups| && !s.groups[g].broke && BreakOutmost(maxwidth, s).groups[g].broke
    ensures Needed(maxwidth, BreakOutmost(maxwidth, s), g)
    decreases QueueSize(s.queue)
  {
    if Found(s) == None {
      NothingNeeded(maxwidth, s, g);
    } else {
      var t := Found(s).value;
      var w := Round(Deq(s), t);
      RoundInv(s, t);
      RoundTidy(s, t);
      RoundBreaksNone(Deq(s), t);
      if Deq(s).groups[g].broke {
        RoundNeeded(maxwidth, s, t, g);
        BreakOutmostGrows(maxwidth, w);
        BreakOutmostPieces(maxwidth, w);
        NeededKept(maxwidth, w, BreakOutmost(maxwidth, w), g);
      } else {
        BreakOutmostNeeded(maxwidth, w, g);
      }
    }
  }
}

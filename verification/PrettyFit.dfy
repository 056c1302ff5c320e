/**
 A group whose text fits on the rest of the line is not broken, whatever was printed or broken
 before it.
 */
module PrettyFit {
  import opened Common
  import opened PrettyCalls
  import opened PrettyState
  import opened PrettyInvariant
  import opened PrettyWidth

  /** The width of a block on one line. */
  function BlockWidth(calls: Calls): int {
    match calls
    case Done => 0
    case AddText(_, width, rest) => width + BlockWidth(rest)
    case AddBreakable(_, width, rest) => width + BlockWidth(rest)
    case InGroup(body, rest) => BlockWidth(body) + BlockWidth(rest)
    case InNest(_, body, rest) => BlockWidth(body) + BlockWidth(rest)
  }

  lemma {:induction false} BlockWidthIsNat(calls: Calls)
    requires NonNegative(calls)
    ensures BlockWidth(calls) >= 0
  {
    match calls
    case Done =>
    case AddText(_, _, rest) => BlockWidthIsNat(rest);
    case AddBreakable(_, _, rest) => BlockWidthIsNat(rest);
    case InGroup(body, rest) => BlockWidthIsNat(body); BlockWidthIsNat(rest);
    case InNest(_, body, rest) => BlockWidthIsNat(body); BlockWidthIsNat(rest);
  }

  /** From s to r nothing but texts was printed, no group was broken, the new ones included, and the
      line has become wider by `width`. */
  ghost predicate StayedFlat(s: State, r: State, width: int) {
    && |s.log| <= |r.log| && (forall i :: 0 <= i < |r.log| && r.log[i].Hint? ==> i < |s.log| && r.log[i] == s.log[i])
    && |s.groups| <= |r.groups|
    && (forall g :: 0 <= g < |r.groups| ==> r.groups[g].broke == (g < |s.groups| && s.groups[g].broke))
    && r.stack == s.stack
    && r.outputWidth + r.bufferWidth == s.outputWidth + s.bufferWidth + width
  }

  /** The current group is unbroken, and `width` more columns are left on the line. */
  ghost predicate HasRoom(maxwidth: int, s: State, width: int) {
    && s.stack != [] && Top(s) < |s.groups| && !s.groups[Top(s)].broke
    && s.outputWidth + s.bufferWidth + width <= maxwidth
  }

  lemma TextFits(maxwidth: int, s: State, obj: Obj, width: int)
    requires HasRoom(maxwidth, s, width)
    ensures StayedFlat(s, TextStep(maxwidth, s, obj, width), width)
  {
    if s.buffer != [] {
      assert TextStep(maxwidth, s, obj, width) == BufferText(s, obj, width);
    }
  }

  lemma BreakableFits(maxwidth: int, s: State, sep: Obj, width: int)
    requires HasRoom(maxwidth, s, width)
    ensures StayedFlat(s, BreakableStep(maxwidth, s, sep, width), width)
  {
    assert BreakableStep(maxwidth, s, sep, width) == PushHint(s, sep, width);
  }

  /** What happens between opening and closing a group happens to the groups around it too. */
  lemma GroupFits(s: State, inner: State, width: int)
    requires s.stack != [] && StayedFlat(OpenGroup(s), inner, width)
    ensures StayedFlat(s, CloseGroup(inner), width)
  {
    assert inner.stack[..|inner.stack| - 1] == s.stack;
  }

  lemma OpenHasRoom(maxwidth: int, s: State, width: int)
    requires s.outputWidth + s.bufferWidth + width <= maxwidth
    ensures HasRoom(maxwidth, OpenGroup(s), width)
  {
  }

  /** A block that fits on the rest of the line stays flat in an unbroken group. */
  ghost predicate FitsFlat(maxwidth: int, s: State, calls: Calls, r: State) {
    NonNegative(calls) && HasRoom(maxwidth, s, BlockWidth(calls)) ==> StayedFlat(s, r, BlockWidth(calls))
  }

  /** A part of a block that stayed flat, and the rest of the block behind it. */
  lemma ThenFits(maxwidth: int, s: State, t: State, w: int, rest: Calls, r: State)
    requires StayedFlat(s, t, w) && HasRoom(maxwidth, s, w + BlockWidth(rest)) && NonNegative(rest)
    requires FitsFlat(maxwidth, t, rest, r)
    ensures StayedFlat(s, r, w + BlockWidth(rest))
  {
  }

  lemma TextThen(maxwidth: int, s: State, obj: Obj, width: int, rest: Calls, r: State)
    requires FitsFlat(maxwidth, TextStep(maxwidth, s, obj, width), rest, r)
    ensures FitsFlat(maxwidth, s, AddText(obj, width, rest), r)
  {
    var calls := AddText(obj, width, rest);
    if NonNegative(calls) && HasRoom(maxwidth, s, BlockWidth(calls)) {
      BlockWidthIsNat(rest);
      TextFits(maxwidth, s, obj, width);
      ThenFits(maxwidth, s, TextStep(maxwidth, s, obj, width), width, rest, r);
    }
  }

  lemma BreakableThen(maxwidth: int, s: State, sep: Obj, width: int, rest: Calls, r: State)
    requires FitsFlat(maxwidth, BreakableStep(maxwidth, s, sep, width), rest, r)
    ensures FitsFlat(maxwidth, s, AddBreakable(sep, width, rest), r)
  {
    var calls := AddBreakable(sep, width, rest);
    if NonNegative(calls) && HasRoom(maxwidth, s, BlockWidth(calls)) {
      BlockWidthIsNat(rest);
      BreakableFits(maxwidth, s, sep, width);
      ThenFits(maxwidth, s, BreakableStep(maxwidth, s, sep, width), width, rest, r);
    }
  }

  lemma GroupThen(maxwidth: int, s: State, body: Calls, inner: State, rest: Calls, r: State)
    requires FitsFlat(maxwidth, OpenGroup(s), body, inner) && FitsFlat(maxwidth, CloseGroup(inner), rest, r)
    ensures FitsFlat(maxwidth, s, InGroup(body, rest), r)
  {
    var calls := InGroup(body, rest);
    if NonNegative(calls) && HasRoom(maxwidth, s, BlockWidth(calls)) {
      BlockWidthIsNat(rest);
      OpenHasRoom(maxwidth, s, BlockWidth(body));
      GroupFits(s, inner, BlockWidth(body));
      ThenFits(maxwidth, s, CloseGroup(inner), BlockWidth(body), rest, r);
    }
  }

  /** Indentation does not matter. */
  lemma NestFlat(s: State, o: State, inner: State, t: State, width: int)
    requires o == s.(indent := o.indent) && t == inner.(indent := t.indent) && StayedFlat(o, inner, width)
    ensures StayedFlat(s, t, width)
  {
  }

  lemma NestThen(maxwidth: int, s: State, amount: int, body: Calls, o: State, inner: State, t: State, rest: Calls,
                 r: State)
    requires o == s.(indent := o.indent) && t == inner.(indent := t.indent)
    requires FitsFlat(maxwidth, o, body, inner) && FitsFlat(maxwidth, t, rest, r)
    ensures FitsFlat(maxwidth, s, InNest(amount, body, rest), r)
  {
    var calls := InNest(amount, body, rest);
    if NonNegative(calls) && HasRoom(maxwidth, s, BlockWidth(calls)) {
      BlockWidthIsNat(rest);
      NestFlat(s, o, inner, t, BlockWidth(body));
      ThenFits(maxwidth, s, t, BlockWidth(body), rest, r);
    }
  }

  lemma FitsIsInductive(maxwidth: int, q: Printer<State>, R: (State, Calls, State) -> bool)
    requires q == Pretty(maxwidth) && forall s, c, r :: R(s, c, r) == FitsFlat(maxwidth, s, c, r)
    ensures Inductive(q, R)
  {
    forall s ensures R(s, Done, s) { assert FitsFlat(maxwidth, s, Done, s); }
    forall s, obj, width, rest, r | R(q.text(s, obj, width), rest, r)
      ensures R(s, AddText(obj, width, rest), r)
    {
      TextThen(maxwidth, s, obj, width, rest, r);
    }
    forall s, sep, width, rest, r | R(q.breakable(s, sep, width), rest, r)
      ensures R(s, AddBreakable(sep, width, rest), r)
    {
      BreakableThen(maxwidth, s, sep, width, rest, r);
    }
    forall s, body, inner, rest, r | R(q.open(s), body, inner) && R(q.close(inner), rest, r)
      ensures R(s, InGroup(body, rest), r)
    {
      GroupThen(maxwidth, s, body, inner, rest, r);
    }
    forall s, amount, body, inner, rest, r | R(q.nest(s, amount), body, inner) && R(q.unnest(inner, amount), rest, r)
      ensures R(s, InNest(amount, body, rest), r)
    {
      var o, t := Indented(s, s.indent + amount), Indented(inner, inner.indent - amount);
      assert q.nest(s, amount) == o && q.unnest(inner, amount) == t;
      NestThen(maxwidth, s, amount, body, o, inner, t, rest, r);
    }
  }

  lemma BlockFits(maxwidth: int, s: State, calls: Calls)
    ensures FitsFlat(maxwidth, s, calls, Run(Pretty(maxwidth), s, calls))
  {
    var q := Pretty(maxwidth);
    var R := (s: State, c: Calls, r: State) => FitsFlat(maxwidth, s, c, r);
    FitsIsInductive(maxwidth, q, R);
    RunRelates(q, R, s, calls);
  }

  /** In any state that a run reaches: if the text of a group fits on the rest of the line, running
      the group prints no newline and leaves it unbroken with every group in it, even when all the
      groups around it are broken. */
  lemma FittingGroupStaysFlat(maxwidth: int, s: State, body: Calls)
    requires Good(maxwidth, s) && NonNegative(body)
    requires s.outputWidth + s.bufferWidth + BlockWidth(body) <= maxwidth
    ensures StayedFlat(s, CloseGroup(Run(Pretty(maxwidth), OpenGroup(s), body)), BlockWidth(body))
  {
    OpenHasRoom(maxwidth, s, BlockWidth(body));
    BlockFits(maxwidth, OpenGroup(s), body);
    GroupFits(s, Run(Pretty(maxwidth), OpenGroup(s), body), BlockWidth(body));
  }
}

/**
 A block of calls on a printer. The printer is whatever object the block was given: the
 pretty printer and the single-line printer answer the same calls.
 */
module PrettyCalls {

  type Obj = string

  /** The calls a block makes; a group or nest holds the calls of its own block. */
  datatype Calls =
    | Done
    | AddText(obj: Obj, width: int, rest: Calls)
    | AddBreakable(sep: Obj, width: int, rest: Calls)
    | InGroup(body: Calls, rest: Calls)
    | InNest(amount: int, body: Calls, rest: Calls)

  /** What one call does to the state of a printer. */
  datatype Printer<!S> = Printer(
    text: (S, Obj, int) -> S,
    breakable: (S, Obj, int) -> S,
    open: S -> S,
    close: S -> S,
    nest: (S, int) -> S,
    unnest: (S, int) -> S)

  /** Run a block on a printer; leaving a nest undoes its indentation. */
  function Run<S>(q: Printer<S>, s: S, calls: Calls): S {
    match calls
    case Done => s
    case AddText(obj, width, rest) => Run(q, q.text(s, obj, width), rest)
    case AddBreakable(sep, width, rest) => Run(q, q.breakable(s, sep, width), rest)
    case InGroup(body, rest) => Run(q, q.close(Run(q, q.open(s), body)), rest)
    case InNest(amount, body, rest) => Run(q, q.unnest(Run(q, q.nest(s, amount), body), amount), rest)
  }

  /** R relates the states before and after every block, call by call. */
  ghost predicate Inductive<S(!new)>(q: Printer<S>, R: (S, Calls, S) -> bool) {
    && (forall s :: R(s, Done, s))
    && (forall s, obj, width, rest, r :: R(q.text(s, obj, width), rest, r) ==> R(s, AddText(obj, width, rest), r))
    && (forall s, sep, width, rest, r :: R(q.breakable(s, sep, width), rest, r) ==>
        R(s, AddBreakable(sep, width, rest), r))
    && (forall s, body, inner, rest, r :: R(q.open(s), body, inner) && R(q.close(inner), rest, r) ==>
        R(s, InGroup(body, rest), r))
    && (forall s, amount, body, inner, rest, r ::
          R(q.nest(s, amount), body, inner) && R(q.unnest(inner, amount), rest, r) ==>
            R(s, InNest(amount, body, rest), r))
  }

  /** Induction over blocks. */
  lemma {:induction false} RunRelates<S(!new)>(q: Printer<S>, R: (S, Calls, S) -> bool, s: S, calls: Calls)
    requires Inductive(q, R)
    ensures R(s, calls, Run(q, s, calls))
    decreases calls
  {
    match calls
    case Done =>
    case AddText(obj, width, rest) => RunRelates(q, R, q.text(s, obj, width), rest);
    case AddBreakable(sep, width, rest) => RunRelates(q, R, q.breakable(s, sep, width), rest);
    case InGroup(body, rest) =>
      RunRelates(q, R, q.open(s), body);
      RunRelates(q, R, q.close(Run(q, q.open(s), body)), rest);
    case InNest(amount, body, rest) =>
      RunRelates(q, R, q.nest(s, amount), body);
      RunRelates(q, R, q.unnest(Run(q, q.nest(s, amount), body), amount), rest);
  }

  /** P, if it holds of s, is kept by every single call on s. */
  ghost predicate KeptBy<S>(q: Printer<S>, P: S -> bool, s: S) {
    P(s) ==>
      && (forall obj, width :: P(q.text(s, obj, width)))
      && (forall sep, width :: P(q.breakable(s, sep, width)))
      && P(q.open(s)) && P(q.close(s))
      && (forall amount :: P(q.nest(s, amount)))
      && (forall amount :: P(q.unnest(s, amount)))
  }

  /** What every call keeps, every block keeps. */
  lemma RunPreserves<S(!new)>(q: Printer<S>, P: S -> bool, s: S, calls: Calls)
    requires (forall x :: KeptBy(q, P, x)) && P(s)
    ensures P(Run(q, s, calls))
  {
    var R := (x: S, c: Calls, y: S) => P(x) ==> P(y);
    forall s, obj, width, rest, r | R(q.text(s, obj, width), rest, r)
      ensures R(s, AddText(obj, width, rest), r)
    {
      assert KeptBy(q, P, s);
    }
    forall s, sep, width, rest, r | R(q.breakable(s, sep, width), rest, r)
      ensures R(s, AddBreakable(sep, width, rest), r)
    {
      assert KeptBy(q, P, s);
    }
    forall s, body, inner, rest, r | R(q.open(s), body, inner) && R(q.close(inner), rest, r)
      ensures R(s, InGroup(body, rest), r)
    {
      assert KeptBy(q, P, s) && KeptBy(q, P, inner);
    }
    forall s, amount, body, inner, rest, r | R(q.nest(s, amount), body, inner) && R(q.unnest(inner, amount), rest, r)
      ensures R(s, InNest(amount, body, rest), r)
    {
      assert KeptBy(q, P, s) && KeptBy(q, P, inner);
    }
    RunRelates(q, R, s, calls);
  }

  /** h carries every call on q over to the same call on w. */
  ghost predicate Simulates<S(!new), T>(q: Printer<S>, w: Printer<T>, h: S -> T) {
    && (forall s, obj, width :: h(q.text(s, obj, width)) == w.text(h(s), obj, width))
    && (forall s, sep, width :: h(q.breakable(s, sep, width)) == w.breakable(h(s), sep, width))
    && (forall s :: h(q.open(s)) == w.open(h(s)))
    && (forall s :: h(q.close(s)) == w.close(h(s)))
    && (forall s, amount :: h(q.nest(s, amount)) == w.nest(h(s), amount))
    && (forall s, amount :: h(q.unnest(s, amount)) == w.unnest(h(s), amount))
  }

  lemma {:induction false} RunSimulates<S(!new), T>(q: Printer<S>, w: Printer<T>, h: S -> T, s: S, calls: Calls)
    requires Simulates(q, w, h)
    ensures h(Run(q, s, calls)) == Run(w, h(s), calls)
    decreases calls
  {
    match calls
    case Done =>
    case AddText(obj, width, rest) => RunSimulates(q, w, h, q.text(s, obj, width), rest);
    case AddBreakable(sep, width, rest) => RunSimulates(q, w, h, q.breakable(s, sep, width), rest);
    case InGroup(body, rest) =>
      RunSimulates(q, w, h, q.open(s), body);
      RunSimulates(q, w, h, q.close(Run(q, q.open(s), body)), rest);
    case InNest(amount, body, rest) =>
      RunSimulates(q, w, h, q.nest(s, amount), body);
      RunSimulates(q, w, h, q.unnest(Run(q, q.nest(s, amount), body), amount), rest);
  }

  /** One of the texts or breakables of the block is called in state x and leaves state y. */
  ghost predicate Passes<S>(q: Printer<S>, s: S, calls: Calls, x: S, y: S)
    decreases calls
  {
    match calls
    case Done => false
    case AddText(obj, width, rest) =>
      (x == s && y == q.text(s, obj, width)) || Passes(q, q.text(s, obj, width), rest, x, y)
    case AddBreakable(sep, width, rest) =>
      (x == s && y == q.breakable(s, sep, width)) || Passes(q, q.breakable(s, sep, width), rest, x, y)
    case InGroup(body, rest) =>
      Passes(q, q.open(s), body, x, y) || Passes(q, q.close(Run(q, q.open(s), body)), rest, x, y)
    case InNest(amount, body, rest) =>
      || Passes(q, q.nest(s, amount), body, x, y)
      || Passes(q, q.unnest(Run(q, q.nest(s, amount), body), amount), rest, x, y)
  }

  /** A relation between a state and the states after it. */
  ghost predicate Onward<S(!new)>(q: Printer<S>, R: (S, S) -> bool) {
    && (forall s :: R(s, s)) && (forall s, t, r :: R(s, t) && R(t, r) ==> R(s, r))
    && (forall s, obj, width :: R(s, q.text(s, obj, width)))
    && (forall s, sep, width :: R(s, q.breakable(s, sep, width)))
    && (forall s :: R(s, q.open(s))) && (forall s :: R(s, q.close(s)))
    && (forall s, amount :: R(s, q.nest(s, amount))) && (forall s, amount :: R(s, q.unnest(s, amount)))
  }

  lemma {:induction false} RunOnward<S(!new)>(q: Printer<S>, R: (S, S) -> bool, s: S, calls: Calls)
    requires Onward(q, R)
    ensures R(s, Run(q, s, calls))
    decreases calls
  {
    match calls
    case Done =>
    case AddText(obj, width, rest) => RunOnward(q, R, q.text(s, obj, width), rest);
    case AddBreakable(sep, width, rest) => RunOnward(q, R, q.breakable(s, sep, width), rest);
    case InGroup(body, rest) =>
      var inner := Run(q, q.open(s), body);
      RunOnward(q, R, q.open(s), body);
      RunOnward(q, R, q.close(inner), rest);
      assert R(s, q.open(s)) && R(s, inner) && R(inner, q.close(inner)) && R(s, q.close(inner));
    case InNest(amount, body, rest) =>
      var inner := Run(q, q.nest(s, amount), body);
      RunOnward(q, R, q.nest(s, amount), body);
      RunOnward(q, R, q.unnest(inner, amount), rest);
      assert R(s, q.nest(s, amount)) && R(s, inner) && R(inner, q.unnest(inner, amount));
      assert R(s, q.unnest(inner, amount));
  }

  /** What a call leaves is followed by the end of the block. */
  lemma {:induction false} PassedOnward<S(!new)>(q: Printer<S>, R: (S, S) -> bool, s: S, calls: Calls, x: S, y: S)
    requires Onward(q, R) && Passes(q, s, calls, x, y)
    ensures R(y, Run(q, s, calls))
    decreases calls
  {
    match calls
    case AddText(obj, width, rest) =>
      var t := q.text(s, obj, width);
      RunOnward(q, R, t, rest);
      if !(x == s && y == t) { PassedOnward(q, R, t, rest, x, y); }
    case AddBreakable(sep, width, rest) =>
      var t := q.breakable(s, sep, width);
      RunOnward(q, R, t, rest);
      if !(x == s && y == t) { PassedOnward(q, R, t, rest, x, y); }
    case InGroup(body, rest) =>
      var inner := Run(q, q.open(s), body);
      RunOnward(q, R, q.close(inner), rest);
      if Passes(q, q.open(s), body, x, y) {
        PassedOnward(q, R, q.open(s), body, x, y);
        assert R(inner, q.close(inner)) && R(y, q.close(inner));
      } else {
        PassedOnward(q, R, q.close(inner), rest, x, y);
      }
    case InNest(amount, body, rest) =>
      var inner := Run(q, q.nest(s, amount), body);
      RunOnward(q, R, q.unnest(inner, amount), rest);
      if Passes(q, q.nest(s, amount), body, x, y) {
        PassedOnward(q, R, q.nest(s, amount), body, x, y);
        assert R(inner, q.unnest(inner, amount)) && R(y, q.unnest(inner, amount));
      } else {
        PassedOnward(q, R, q.unnest(inner, amount), rest, x, y);
      }
  }

  /** Opening, closing and indenting do not make Q true. */
  ghost predicate OnlyByPrinting<S(!new)>(q: Printer<S>, P: S -> bool, Q: S -> bool) {
    forall s :: P(s) && !Q(s) ==>
      && !Q(q.open(s)) && !Q(q.close(s))
      && (forall amount :: !Q(q.nest(s, amount))) && (forall amount :: !Q(q.unnest(s, amount)))
  }

  /** What a block has made true became true at one of its texts or breakables. */
  lemma {:induction false} BecameTrue<S(!new)>(q: Printer<S>, P: S -> bool, Q: S -> bool, s: S, calls: Calls)
    returns (x: S, y: S)
    requires (forall z :: KeptBy(q, P, z)) && OnlyByPrinting(q, P, Q)
    requires P(s) && !Q(s) && Q(Run(q, s, calls))
    ensures Passes(q, s, calls, x, y) && P(x) && !Q(x) && Q(y)
    decreases calls
  {
    assert KeptBy(q, P, s);
    match calls
    case AddText(obj, width, rest) =>
      x, y := s, q.text(s, obj, width);
      if !Q(y) { x, y := BecameTrue(q, P, Q, y, rest); }
    case AddBreakable(sep, width, rest) =>
      x, y := s, q.breakable(s, sep, width);
      if !Q(y) { x, y := BecameTrue(q, P, Q, y, rest); }
    case InGroup(body, rest) =>
      var inner := Run(q, q.open(s), body);
      if Q(inner) {
        x, y := BecameTrue(q, P, Q, q.open(s), body);
      } else {
        RunPreserves(q, P, q.open(s), body);
        assert KeptBy(q, P, inner);
        x, y := BecameTrue(q, P, Q, q.close(inner), rest);
      }
    case InNest(amount, body, rest) =>
      var inner := Run(q, q.nest(s, amount), body);
      if Q(inner) {
        x, y := BecameTrue(q, P, Q, q.nest(s, amount), body);
      } else {
        RunPreserves(q, P, q.nest(s, amount), body);
        assert KeptBy(q, P, inner);
        x, y := BecameTrue(q, P, Q, q.unnest(inner, amount), rest);
      }
  }

  /** What holds of every text and breakable called in a state with P holds of those of a block. */
  lemma {:induction false} PassedCall<S(!new)>(q: Printer<S>, R: (S, S) -> bool, s: S, calls: Calls, x: S, y: S)
    requires Passes(q, s, calls, x, y)
    requires forall obj, width :: R(x, q.text(x, obj, width))
    requires forall sep, width :: R(x, q.breakable(x, sep, width))
    ensures R(x, y)
    decreases calls
  {
    match calls
    case AddText(obj, width, rest) =>
      if !(x == s && y == q.text(s, obj, width)) { PassedCall(q, R, q.text(s, obj, width), rest, x, y); }
    case AddBreakable(sep, width, rest) =>
      if !(x == s && y == q.breakable(s, sep, width)) { PassedCall(q, R, q.breakable(s, sep, width), rest, x, y); }
    case InGroup(body, rest) =>
      if Passes(q, q.open(s), body, x, y) {
        PassedCall(q, R, q.open(s), body, x, y);
      } else {
        PassedCall(q, R, q.close(Run(q, q.open(s), body)), rest, x, y);
      }
    case InNest(amount, body, rest) =>
      if Passes(q, q.nest(s, amount), body, x, y) {
        PassedCall(q, R, q.nest(s, amount), body, x, y);
      } else {
        PassedCall(q, R, q.unnest(Run(q, q.nest(s, amount), body), amount), rest, x, y);
      }
  }
}

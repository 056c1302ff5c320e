/**
 A run in which a group is broken along with an earlier one that it does not enclose.
 */
module PrettySiblings {
  import opened Common
  import opened PrettyCalls
  import opened PrettyState
  import opened PrettyLayout
  import opened PrettyWidth

  /** A group in a group, and behind them, with nothing to break between, a group that would fit. */
  const SIBLINGS: Calls := InGroup(InGroup(INNER, Done), InGroup(SECOND, Done))

  const INNER: Calls := AddText("aaaa", 4, AddBreakable(" ", 1, AddText("bb", 2, Done)))

  const SECOND: Calls := AddText("cccc", 4, AddBreakable(" ", 1, AddText("d", 1, Done)))

  const FIRST: Item := Breakable(" ", 1, 0, 2)
  const FIRST_TEXT: Piece := Words(["aaaa"], 4)
  const CHAINS: seq<seq<nat>> := [[0], [0, 1], [0, 1, 2]]

  function Unbroken(depth: nat): Group { Group(depth, [], false) }

  /** Behind the first group, whose hint is pending. */
  const WAITING: State :=
    State([FIRST_TEXT], 4, 3, [FIRST, Text(["bb"], 2)], 0, [0],
          [Unbroken(0), Unbroken(1), Group(2, [FIRST], false)], [[0], [], [2]], CHAINS)

  lemma EnqNew(queue: seq<seq<nat>>, g: nat)
    ensures Enq(queue, |queue|, g) == queue + [[g]]
  {
    var none: seq<seq<nat>> := seq(1, _ => []);
    assert none == [[]] && (queue + none)[|queue|] + [g] == [g];
    assert (queue + none)[|queue| := [g]] == queue + [[g]];
  }

  const OPENED: State :=
    State([], 0, 0, [], 0, [0, 1, 2], [Unbroken(0), Unbroken(1), Unbroken(2)], [[0], [1], [2]], CHAINS)

  /** The state behind the first text and hint, and the one behind the second text. */
  const PENDING: State :=
    OPENED.(log := [FIRST_TEXT], outputWidth := 4, buffer := [FIRST], bufferWidth := 1,
            groups := [Unbroken(0), Unbroken(1), Group(2, [FIRST], false)])

  const FILLED: State := PENDING.(buffer := [FIRST, Text(["bb"], 2)], bufferWidth := 3)

  lemma FirstOpened()
    ensures OpenGroup(OpenGroup(INITIAL)) == OPENED
  {
    EnqNew([[0]], 1);
    EnqNew([[0], [1]], 2);
    var one := State([], 0, 0, [], 0, [0, 1], [Unbroken(0), Unbroken(1)], [[0], [1]], [[0], [0, 1]]);
    assert OpenGroup(INITIAL) == one;
  }

  lemma FirstFilled()
    ensures Run(Pretty(10), OPENED, INNER) == FILLED
  {
    var q := Pretty(10);
    var t := OPENED.(log := [FIRST_TEXT], outputWidth := 4);
    assert TextStep(10, OPENED, "aaaa", 4) == t;
    assert BreakableStep(10, t, " ", 1) == PENDING;
    assert TextStep(10, PENDING, "bb", 2) == FILLED;
    assert Run(q, FILLED, Done) == FILLED;
    assert Run(q, PENDING, AddText("bb", 2, Done)) == FILLED;
  }

  lemma FirstClosed()
    ensures CloseGroup(CloseGroup(FILLED)) == WAITING
  {
    assert CloseGroup(FILLED) == FILLED.(stack := [0, 1]);
    assert Without([1], 1) == [];
  }

  const SECOND_TEXT: Piece := Words(["bb", "cccc"], 6)

  /** In the second group, before and behind its first text, which makes the line too wide. */
  const REOPENED: State :=
    State([FIRST_TEXT], 4, 3, [FIRST, Text(["bb"], 2)], 0, [0, 3],
          [Unbroken(0), Unbroken(1), Group(2, [FIRST], false), Unbroken(1)], [[0], [3], [2]], CHAINS + [[0, 3]])

  const WIDE: State := REOPENED.(buffer := [FIRST, Text(["bb", "cccc"], 6)], bufferWidth := 7)

  /** Deq breaks the root group and the second group, which have no hints, and takes the first group. */
  const TAKEN: State :=
    WIDE.(groups := [Group(0, [], true), Unbroken(1), Group(2, [FIRST], true), Group(1, [], true)],
          queue := [[], [], []])

  const PRINTED: State :=
    TAKEN.(log := [FIRST_TEXT, Hint(2, " ", 1, 0, true), SECOND_TEXT], outputWidth := 6, bufferWidth := 0, buffer := [],
           groups := [Group(0, [], true), Unbroken(1), Group(2, [], true), Group(1, [], true)])

  lemma SecondOpened()
    ensures OpenGroup(WAITING) == REOPENED
  {
    var q: seq<seq<nat>> := [[0], [], [2]];
    assert q[1] + [3] == [3];
    assert Enq(q, 1, 3) == q[1 := [3]] == [[0], [3], [2]];
    assert [0] + [3] == [0, 3] && Top(WAITING) == 0;
    assert OpenGroup(WAITING).groups == REOPENED.groups && OpenGroup(WAITING).paths == REOPENED.paths;
  }

  lemma SecondTaken()
    ensures Found(WIDE) == Some(2) && Deq(WIDE) == TAKEN
  {
    var groups := WIDE.groups;
    var groups1, queue1 := BreakAll(groups, [0]), [[0], [3], [2]][0 := []];
    var groups2, queue2 := BreakAll(groups1, [3]), [[], [3], [2]][1 := []];
    assert groups1 == groups[0 := Group(0, [], true)] && queue1 == [[], [3], [2]];
    assert groups2 == groups1[3 := Group(1, [], true)] && queue2 == [[], [], [2]];
    assert [2][..0] + [2][1..] == [] && queue2[2 := []] == [[], [], []];
    assert DeqFrom(groups2, queue2, 2) == Dequeued(TAKEN.groups, [[], [], []], Some(2));
    assert DeqFrom(groups1, queue1, 1) == Dequeued(TAKEN.groups, [[], [], []], Some(2));
  }

  lemma SecondPrinted()
    ensures Round(TAKEN, 2) == PRINTED
  {
    var w := Output(TAKEN);
    assert w.buffer == [Text(["bb", "cccc"], 6)] && w.groups == PRINTED.groups;
    assert OutputGroup(TAKEN, 2) == w;
    assert Output(w) == PRINTED && OutputTexts(w) == Output(w);
  }

  lemma SecondText()
    ensures TextStep(10, REOPENED, "cccc", 4) == PRINTED
  {
    assert ["bb"] + ["cccc"] == ["bb", "cccc"];
    assert BufferText(REOPENED, "cccc", 4) == WIDE;
    SecondTaken();
    SecondPrinted();
    assert BreakOutmost(10, PRINTED) == PRINTED;
    assert BreakOutmost(10, WIDE) == PRINTED;
  }

  const LAST_LOG: seq<Piece> :=
    [FIRST_TEXT, Hint(2, " ", 1, 0, true), SECOND_TEXT, Hint(3, " ", 1, 0, true), Words(["d"], 1)]

  const LAST: State := PRINTED.(log := LAST_LOG, outputWidth := 1)

  lemma SecondFilled()
    ensures Run(Pretty(10), REOPENED, SECOND) == LAST
  {
    var q, b := Pretty(10), BreakLine(PRINTED, " ", 1);
    SecondText();
    assert Flush(PRINTED) == PRINTED;
    assert BreakableStep(10, PRINTED, " ", 1) == b;
    assert PRINTED.log + [Hint(3, " ", 1, 0, true)] + [Words(["d"], 1)] == LAST_LOG;
    assert TextStep(10, b, "d", 1) == LAST;
    assert Run(q, LAST, Done) == LAST;
    assert Run(q, b, AddText("d", 1, Done)) == LAST;
  }

  lemma FirstRun()
    ensures Run(Pretty(10), OpenGroup(INITIAL), InGroup(INNER, Done)) == CloseGroup(FILLED)
  {
    FirstOpened();
    FirstFilled();
  }

  lemma SiblingsRun()
    ensures Printed(10, SIBLINGS) == CloseGroup(LAST)
  {
    var q := Pretty(10);
    FirstRun();
    FirstClosed();
    SecondOpened();
    SecondFilled();
    assert Run(q, CloseGroup(LAST), Done) == CloseGroup(LAST);
    assert Run(q, WAITING, InGroup(SECOND, Done)) == CloseGroup(LAST);
  }

  /** In 10 columns the second group of SIBLINGS is broken, though with its hint unbroken its line would
      have 8 columns, and it does not enclose the group that was broken because of it. */
  lemma SiblingBreaks()
    ensures Format(10, SIBLINGS).log == LAST_LOG && Format(10, SIBLINGS).paths == CHAINS + [[0, 3]]
    ensures LineWidth(LAST_LOG[..3]) + LogWidth(LAST_LOG[3..]) == 8 && 3 !in CHAINS[2]
  {
    SiblingsRun();
    var c := CloseGroup(LAST);
    assert c.buffer == [] && Flush(c).log == c.log && Flush(c).paths == c.paths;
    LineOfThree(LAST_LOG);
  }

  lemma LineOfThree(log: seq<Piece>)
    requires log == LAST_LOG
    ensures LineWidth(log[..3]) == 6 && LogWidth(log[3..]) == 2
  {
    LineWidthPush(log[..2], log[2]);
    LineWidthPush(log[..1], log[1]);
    assert log[..3] == log[..2] + [log[2]] && log[..2] == log[..1] + [log[1]];
    LogEventsPush(log[3..4], log[4]);
    LogEventsPush([], log[3]);
    assert log[3..] == log[3..4] + [log[4]] && log[3..4] == [] + [log[3]];
  }
}

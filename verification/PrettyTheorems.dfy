/**
 The guarantees of the pretty printer over whole runs: layout, agreement with the
 single-line printer, and when a newline is printed at all.
 */
module PrettyTheorems {
  import opened Common
  import opened PrettyCalls
  import opened PrettyState
  import opened PrettyInvariant
  import opened PrettyLayout

  ghost predicate OutermostFirst(paths: seq<seq<nat>>, broken: set<nat>) {
    forall g :: g in broken ==> g < |paths| && forall k :: 0 <= k < |paths[g]| ==> paths[g][k] in broken
  }

  /** The groups around some hint that was printed as a newline. */
  ghost function BrokenBy(log: seq<Piece>, paths: seq<seq<nat>>): set<nat>
    requires LogInRange(log, |paths|)
  {
    set i, k | 0 <= i < |log| && Newlined(log[i]) && 0 <= k < |paths[log[i].group]| :: paths[log[i].group][k]
  }

  /** The chain of a group is the chain of any group on it, cut off there. */
  ghost predicate Chained(paths: seq<seq<nat>>) {
    forall g, k :: 0 <= g < |paths| && 0 <= k < |paths[g]| ==>
      paths[g][k] < |paths| && paths[paths[g][k]] == paths[g][..k + 1]
  }

  /** Read from a new reader, the chains fit together. */
  ghost predicate ReadChained(s: Reading) {
    && |s.paths| == s.next && s.stack != [] && Chained(s.paths)
    && (forall g :: 0 <= g < |s.paths| ==> s.paths[g] != [] && s.paths[g][|s.paths[g]| - 1] == g)
    && (forall k :: 0 <= k < |s.stack| ==> s.stack[k] < |s.paths| && s.paths[s.stack[k]] == s.stack[..k + 1])
  }

  lemma PushChain(paths: seq<seq<nat>>, path: seq<nat>)
    requires Chained(paths) && path != [] && path[|path| - 1] == |paths|
    requires forall k :: 0 <= k < |path| - 1 ==> path[k] < |paths| && paths[path[k]] == path[..|path| - 1][..k + 1]
    ensures Chained(paths + [path])
  {
    var r := paths + [path];
    forall g, k | 0 <= g < |r| && 0 <= k < |r[g]|
      ensures r[g][k] < |r| && r[r[g][k]] == r[g][..k + 1]
    {
      if g == |paths| {
        if k == |path| - 1 {
          assert path[..k + 1] == path;
        } else {
          assert path[..|path| - 1][..k + 1] == path[..k + 1];
        }
      }
    }
  }

  lemma OpenChained(s: Reading)
    requires ReadChained(s)
    ensures ReadChained(Reader().open(s))
  {
    var r := Reader().open(s);
    forall k | 0 <= k < |r.stack|
      ensures r.stack[k] < |r.paths| && r.paths[r.stack[k]] == r.stack[..k + 1]
    {
      if k < |s.stack| { assert r.stack[..k + 1] == s.stack[..k + 1]; } else { assert r.stack[..k + 1] == r.stack; }
    }
    PushChain(s.paths, r.stack);
  }

  lemma CloseChained(s: Reading)
    requires ReadChained(s)
    ensures ReadChained(Reader().close(s))
  {
    var r := Reader().close(s);
    forall k | 0 <= k < |r.stack|
      ensures r.stack[k] < |r.paths| && r.paths[r.stack[k]] == r.stack[..k + 1]
    {
      assert r.stack[..k + 1] == s.stack[..k + 1];
    }
  }

  lemma ChainedStep(P: Reading -> bool, x: Reading)
    requires forall y :: P(y) == ReadChained(y)
    ensures KeptBy(Reader(), P, x)
  {
    if P(x) {
      OpenChained(x);
      CloseChained(x);
      assert forall events, width, indent :: ReadChained(x.(events := events, width := width, indent := indent));
    }
  }

  lemma UnreadChained()
    ensures ReadChained(UNREAD)
  {
    assert UNREAD.paths[0] == [0];
  }

  lemma ReadIsChained(calls: Calls)
    ensures ReadChained(Read(calls))
  {
    var P := (x: Reading) => ReadChained(x);
    forall x: Reading
      ensures KeptBy(Reader(), P, x)
    {
      ChainedStep(P, x);
    }
    UnreadChained();
    RunPreserves(Reader(), P, UNREAD, calls);
  }

  lemma BrokenByIsClosed(log: seq<Piece>, paths: seq<seq<nat>>)
    requires LogInRange(log, |paths|) && Chained(paths)
    ensures OutermostFirst(paths, BrokenBy(log, paths))
  {
    forall g | g in BrokenBy(log, paths)
      ensures g < |paths| && forall k :: 0 <= k < |paths[g]| ==> paths[g][k] in BrokenBy(log, paths)
    {
      var i, m :| 0 <= i < |log| && Newlined(log[i]) && 0 <= m < |paths[log[i].group]| && paths[log[i].group][m] == g;
      forall k | 0 <= k < |paths[g]|
        ensures paths[g][k] in BrokenBy(log, paths)
      {
        assert paths[g][k] == paths[log[i].group][k];
      }
    }
  }

  /** The groups that print a newline are exactly those the layout breaks. */
  ghost predicate Agrees(log: seq<Piece>, broken: set<nat>) {
    forall i :: 0 <= i < |log| && log[i].Hint? ==> (log[i].broken <==> log[i].group in broken)
  }

  lemma BrokenByAgrees(log: seq<Piece>, paths: seq<seq<nat>>)
    requires LogInRange(log, |paths|) && Consistent(log, paths)
    requires forall g :: 0 <= g < |paths| ==> g in paths[g]
    ensures Agrees(log, BrokenBy(log, paths))
  {
    forall i | 0 <= i < |log| && log[i].Hint?
      ensures log[i].broken <==> log[i].group in BrokenBy(log, paths)
    {
      if Newlined(log[i]) {
        var k :| 0 <= k < |paths[log[i].group]| && paths[log[i].group][k] == log[i].group;
      }
    }
  }

  lemma {:induction false} LayoutAppend(a: seq<Event>, b: seq<Event>, broken: set<nat>)
    ensures Layout(a + b, broken) == Layout(a, broken) + Layout(b, broken)
  {
    if a == [] {
      assert a + b == b;
    } else {
      assert (a + b)[1..] == a[1..] + b;
      LayoutAppend(a[1..], b, broken);
    }
  }

  lemma WordsTokens(objs: seq<Obj>, width: int)
    requires objs != []
    ensures PieceTokens(Words(objs, width)) == [Out(objs[0])] + PieceTokens(Words(objs[1..], width))
  {
  }

  lemma {:induction false} LayoutWords(objs: seq<Obj>, width: int, broken: set<nat>)
    ensures Layout(EachWord(objs), broken) == PieceTokens(Words(objs, width))
  {
    if objs != [] {
      var events := EachWord(objs);
      assert events[0] == Word(objs[0]) && events[1..] == EachWord(objs[1..]);
      LayoutWords(objs[1..], width, broken);
      WordsTokens(objs, width);
    } else {
      assert EachWord(objs) == [] && PieceTokens(Words(objs, width)) == [];
    }
  }

  /** A log whose hints follow a set of broken groups renders as that layout. */
  lemma {:induction false} RenderIsLayout(log: seq<Piece>, broken: set<nat>)
    requires Agrees(log, broken)
    ensures Render(log) == Layout(LogEvents(log), broken)
  {
    if log != [] {
      var n := |log| - 1;
      RenderIsLayout(log[..n], broken);
      LayoutAppend(LogEvents(log[..n]), PieceEvents(log[n]), broken);
      if log[n].Words? {
        LayoutWords(log[n].objs, log[n].width, broken);
      }
    }
  }

  /** What the printer's invariant leaves in the finished output. */
  lemma FormatIsConsistent(maxwidth: int, calls: Calls)
    ensures LogInRange(Format(maxwidth, calls).log, |Format(maxwidth, calls).paths|)
    ensures Consistent(Format(maxwidth, calls).log, Format(maxwidth, calls).paths)
  {
    InitialInv();
    RunInv(maxwidth, INITIAL, calls);
    FinalFlush(Printed(maxwidth, calls));
  }

  /** The layout theorem: whatever the width, the output is the block's text in which each group
      is broken as a whole or not at all, and a broken group lies in broken groups only. */
  lemma FormatIsALayout(maxwidth: int, calls: Calls)
    ensures exists broken: set<nat> ::
      && OutermostFirst(Read(calls).paths, broken)
      && Render(Format(maxwidth, calls).log) == Layout(Read(calls).events, broken)
  {
    FormatIsConsistent(maxwidth, calls);
    FormatIsRead(maxwidth, calls);
    ReadIsChained(calls);
    var log, paths := Format(maxwidth, calls).log, Read(calls).paths;
    BrokenByIsClosed(log, paths);
    BrokenByAgrees(log, paths);
    RenderIsLayout(log, BrokenBy(log, paths));
  }

  // ---- the single-line printer

  lemma LayoutPush(events: seq<Event>, e: Event, out: Obj)
    requires e == Word(out) || (e.Break? && e.sep == out)
    ensures Layout(events + [e], {}) == Layout(events, {}) + [Out(out)]
  {
    LayoutAppend(events, [e], {});
    assert Layout([e], {}) == [Out(out)];
  }

  lemma ReaderSimulatesSingleLine(w: Printer<Reading>, q: Printer<seq<Token>>, h: Reading -> seq<Token>)
    requires w == Reader() && q == SingleLine() && forall s :: h(s) == Layout(s.events, {})
    ensures Simulates(w, q, h)
  {
    forall s, obj, width
      ensures h(w.text(s, obj, width)) == q.text(h(s), obj, width)
    {
      LayoutPush(s.events, Word(obj), obj);
    }
    forall s, sep, width
      ensures h(w.breakable(s, sep, width)) == q.breakable(h(s), sep, width)
    {
      LayoutPush(s.events, Break(TopOf(s.stack), sep, s.indent), sep);
    }
  }

  lemma SingleLineIsALayout(calls: Calls)
    ensures SingleLineFormat(calls) == Layout(Read(calls).events, {})
  {
    var h := (s: Reading) => Layout(s.events, {});
    ReaderSimulatesSingleLine(Reader(), SingleLine(), h);
    RunSimulates(Reader(), SingleLine(), h, UNREAD, calls);
  }

  /** The output with every newline and indentation taken back to its separator. */
  function Unbroken(log: seq<Piece>): (r: seq<Piece>)
    ensures |r| == |log|
    ensures forall i :: 0 <= i < |log| ==> r[i] == (if log[i].Hint? then log[i].(broken := false) else log[i])
  {
    seq(|log|, i requires 0 <= i < |log| => if log[i].Hint? then log[i].(broken := false) else log[i])
  }

  lemma {:induction false} UnbrokenEvents(log: seq<Piece>)
    ensures LogEvents(Unbroken(log)) == LogEvents(log)
  {
    if log != [] {
      var n := |log| - 1;
      assert Unbroken(log)[..n] == Unbroken(log[..n]);
      UnbrokenEvents(log[..n]);
    }
  }

  /** Replacing each newline with its separator turns the output into the single-line output. */
  lemma ErasingNewlinesGivesSingleLine(maxwidth: int, calls: Calls)
    ensures Render(Unbroken(Format(maxwidth, calls).log)) == SingleLineFormat(calls)
  {
    var log := Format(maxwidth, calls).log;
    assert LogEvents(log) == Read(calls).events by { FormatIsRead(maxwidth, calls); }
    UnbrokenEvents(log);
    RenderIsLayout(Unbroken(log), {});
    SingleLineIsALayout(calls);
  }
}

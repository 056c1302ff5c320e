/**
 The clean path is the shortest of all the paths to its place, the empty one apart.
 */
module PathLength {
  import opened Common
  import opened PathNames
  import opened PathPlace

  /** The characters of the components, each with one separator. */
  function Cost(names: seq<string>): nat {
    if names == [] then 0 else Cost(names[..|names| - 1]) + |names[|names| - 1]| + 1
  }

  /** A path is no shorter than its components and its prefix; the last separator may be missing. */
  lemma {:induction false} PathIsLonger(path: string)
    ensures Cost(Names(path)) + |Prefix(path)| <= |path| + if Ends(path) then 0 else 1
    decreases |path|
  {
    ChopSpec(path);
    if Chop(path).Some? {
      var (pre, base) := Chop(path).value;
      PathIsLonger(pre);
      assert (Names(pre) + [base])[..|Names(pre)|] == Names(pre);
      if Ends(path) { assert |path| > |pre| + |base|; }
    }
  }

  lemma {:induction false} JoinLength(names: seq<string>)
    ensures |Join(names)| == if names == [] then 0 else Cost(names) - 1
  {
    if |names| > 1 {
      JoinLength(names[..|names| - 1]);
    } else if |names| == 1 {
      assert names[..0] == [];
    }
  }

  lemma CostLast(names: seq<string>, name: string)
    ensures Cost(names + [name]) == Cost(names) + |name| + 1
  {
    assert (names + [name])[..|names|] == names;
  }

  lemma {:induction false} CostAppend(a: seq<string>, b: seq<string>)
    ensures Cost(a + b) == Cost(a) + Cost(b)
    decreases |b|
  {
    if b == [] {
      assert a + b == a;
    } else {
      var front, last := b[..|b| - 1], b[|b| - 1];
      CostAppend(a, front);
      CostLast(a + front, last);
      assert a + b == a + front + [last];
    }
  }

  /** One component further costs at most that component. */
  lemma GoCost(p: Place, name: string)
    ensures Cost(Shown(Go(p, name))) <= Cost(Shown(p)) + |name| + 1
  {
    var q := Go(p, name);
    CostAppend(Ups(p.ups), p.names);
    CostAppend(Ups(q.ups), q.names);
    if name == ".." && p.names == [] && !p.root {
      assert Ups(q.ups) == Ups(p.ups) + [".."];
      CostLast(Ups(p.ups), "..");
    } else if name != "." && name != ".." {
      CostLast(p.names, name);
    }
  }

  lemma {:induction false} WalkCost(p: Place, names: seq<string>)
    requires Cost(Shown(p)) == 0
    ensures Cost(Shown(Walk(p, names))) <= Cost(names)
    decreases |names|
  {
    if names != [] {
      var front, last := names[..|names| - 1], names[|names| - 1];
      WalkCost(p, front);
      GoCost(Walk(p, front), last);
    }
  }

  /** Every path but the empty one is at least as long as the clean path to its place. */
  lemma CleanIsShort(path: string)
    requires path != ""
    ensures |Show(Denoted(path))| <= |path|
  {
    var p := Denoted(path);
    PathIsLonger(path);
    DenotedCanonical(path);
    assert Shown(HERE) == [] && Shown(ROOT) == [];
    WalkCost(if Absolute(path) then ROOT else HERE, Names(path));
    JoinLength(Shown(p));
    JoinEmpty(Shown(p));
  }

  lemma JoinEmpty(names: seq<string>)
    ensures names == [] ==> Join(names) == ""
    ensures names != [] ==> Cost(names) > 0
  {
  }

  /** Of all the paths to a place, the empty one apart, the clean path is a shortest. */
  lemma CleanIsShortest(path: string, other: string)
    requires other != "" && Denoted(other) == Denoted(path)
    ensures |Show(Denoted(path))| <= |other|
  {
    CleanIsShort(other);
  }
}

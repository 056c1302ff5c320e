/**
 cleanpath_aggressive, plus and relative_path_from: their loops, proved against the places paths
 denote.
 */
module PathMethods {
  import opened Common
  import opened PathNames
  import opened PathPlace
  import opened PathLength

  /** How far the loop of cleanpath_aggressive has come: `done` has been cleaned to `names`. */
  ghost predicate Cleaned(path: string, pre: string, done: seq<string>, names: seq<string>) {
    Names(path) == Names(pre) + done && Prefix(path) == Prefix(pre) && names == CleanNames(done)
  }

  lemma CleanedFirst(path: string)
    ensures Cleaned(path, path, [], [])
  {
    assert Names(path) + [] == Names(path);
  }

  lemma CleanedNext(path: string, pre: string, done: seq<string>, names: seq<string>, front: string, base: string)
    requires Cleaned(path, pre, done, names) && Chop(pre) == Some((front, base))
    ensures |front| < |pre| && Cleaned(path, front, [base] + done, CleanStep(base, names))
  {
    ChopSpec(pre);
    assert ([base] + done)[1..] == done;
    AppendFirst(Names(front), base, done);
  }

  lemma CleanedLast(path: string, pre: string, done: seq<string>, names: seq<string>)
    requires Cleaned(path, pre, done, names) && Chop(pre).None?
    ensures names == CleanNames(Names(path)) && (pre != "" <==> Absolute(path))
    ensures (if pre != "" then DropUps(names) else names) == Shown(Denoted(path))
  {
    ChopSpec(pre);
    ChopNone(pre);
    assert [] + done == done;
    NamesSpec(path);
    if pre != "" { CleanRoot(Names(path)); } else { CleanNamesIsWalk(Names(path)); }
  }

  lemma AppendFirst(a: seq<string>, x: string, b: seq<string>)
    ensures a + [x] + b == a + ([x] + b)
  {
  }

  /** Takes the parents off the front. */
  method DropLeadingUps(names: seq<string>) returns (r: seq<string>)
    ensures r == DropUps(names)
  {
    r := names;
    while r != [] && r[0] == ".."
      invariant DropUps(r) == DropUps(names)
      decreases |r|
    {
      r := r[1..];
    }
  }

  /** cleanpath_aggressive: the clean path to the place the path denotes, than which no other path to
      that place is shorter, but the empty one for the place it starts from. */
  method Clean(path: string) returns (r: string)
    ensures r == Show(Denoted(path))
    ensures forall other: string :: other != "" && Denoted(other) == Denoted(path) ==> |r| <= |other|
  {
    var names, pre := [], path;
    ghost var done: seq<string> := [];
    CleanedFirst(path);
    var c := Chop(pre);
    while c.Some?
      invariant c == Chop(pre) && Cleaned(path, pre, done, names)
      decreases |pre|
    {
      var (front, base) := c.value;
      CleanedNext(path, pre, done, names, front, base);
      if base == "." {
      } else if base == ".." {
        names := [".."] + names;
      } else if names != [] && names[0] == ".." {
        names := names[1..];
      } else {
        names := [base] + names;
      }
      done := [base] + done;
      pre := front;
      c := Chop(pre);
    }
    CleanedLast(path, pre, done, names);
    if pre != "" {
      names := DropLeadingUps(names);
    }
    DenotedCanonical(path);
    forall other: string | other != "" && Denoted(other) == Denoted(path) ensures |Show(Denoted(path))| <= |other| {
      CleanIsShortest(path, other);
    }
    return WithPrefix(pre, Join(names));
  }

  // ---- plus

  lemma {:induction false} WalkFirst(p: Place, x: string, rest: seq<string>)
    ensures Walk(p, [x] + rest) == Walk(Go(p, x), rest)
  {
    WalkAppend(p, [x], rest);
    assert [x][..0] == [];
    assert Walk(p, [x]) == Go(Walk(p, []), x);
  }

  function StartOf(path: string): Place {
    if Absolute(path) then ROOT else HERE
  }

  /** Where a relative path's components begin, and what follows from there. */
  ghost predicate Suffixes(path: string, index: seq<nat>, names: seq<string>) {
    && |index| == |names|
    && forall i :: 0 <= i < |index| ==>
         index[i] <= |path| && Names(path[index[i]..]) == names[i..] && Prefix(path[index[i]..]) == ""
  }

  /** One more component at the front of the list. */
  lemma SuffixNext(path: string, prefix: string, pre: string, base: string, tail: string, suffix: string,
                   names: seq<string>)
    requires Parts(prefix, pre, base, tail) && path == prefix + suffix
    requires Names(suffix) == names && Prefix(suffix) == "" && (suffix == "" || Ends(prefix))
    ensures path[|pre|..] == base + tail + suffix && Names(path[|pre|..]) == [base] + names &&
      Prefix(path[|pre|..]) == ""
  {
    assert path[|pre|..] == base + tail + suffix;
    ChopNone("");
    assert base + tail == "" + base + tail;
    NamesParts(base + tail, "", base, tail);
    if suffix == "" {
      ChopNone("");
      assert base + tail + suffix == base + tail;
      assert [base] + names == [base];
    } else {
      assert Ends(base + tail) by { assert prefix[|prefix| - 1] == (base + tail)[|base + tail| - 1]; }
      NamesConcat(base + tail, suffix);
    }
  }

  lemma SuffixesPush(path: string, index: seq<nat>, names: seq<string>, k: nat, base: string)
    requires Suffixes(path, index, names) && k <= |path| && Names(path[k..]) == [base] + names &&
      Prefix(path[k..]) == ""
    ensures Suffixes(path, [k] + index, [base] + names)
  {
    var names' := [base] + names;
    assert forall i :: 0 < i < |names'| ==> names'[i..] == names[i - 1..];
    assert names'[0..] == names';
  }

  /** How far the first loop of plus has taken the path apart. */
  ghost predicate TakenApart(path2: string, prefix2: string, index: seq<nat>, names: seq<string>) {
    && prefix2 <= path2
    && Prefix(prefix2) == Prefix(path2) && Names(path2) == Names(prefix2) + names
    && Names(path2[|prefix2|..]) == names && Prefix(path2[|prefix2|..]) == ""
    && (|prefix2| == |path2| || Ends(prefix2))
    && Suffixes(path2, index, names)
  }

  lemma TakenFirst(path2: string)
    ensures TakenApart(path2, path2, [], [])
  {
    ChopNone("");
    assert path2[|path2|..] == "" && Names(path2) + [] == Names(path2);
  }

  lemma TakenNext(path2: string, prefix2: string, index: seq<nat>, names: seq<string>, pre: string, base: string)
    requires TakenApart(path2, prefix2, index, names) && Chop(prefix2) == Some((pre, base))
    ensures |pre| < |prefix2| && TakenApart(path2, pre, [|pre|] + index, [base] + names)
  {
    var suffix := path2[|prefix2|..];
    ChopSpec(prefix2);
    assert path2 == prefix2 + suffix;
    SuffixNext(path2, prefix2, pre, base, prefix2[|pre| + |base|..], suffix, names);
    SuffixesPush(path2, index, names, |pre|, base);
    AppendFirst(Names(pre), base, names);
  }

  lemma TakenLast(path2: string, prefix2: string, index: seq<nat>, names: seq<string>)
    requires TakenApart(path2, prefix2, index, names) && Chop(prefix2).None?
    ensures prefix2 == Prefix(path2) && Suffixes(path2, index, names) && names == Names(path2)
  {
    ChopSpec(prefix2);
    ChopNone(prefix2);
    assert [] + names == names;
  }

  /** The first loop of plus. */
  method Indexes(path2: string) returns (prefix2: string, index: seq<nat>, names: seq<string>)
    ensures prefix2 == Prefix(path2) && Suffixes(path2, index, names) && names == Names(path2)
  {
    prefix2, index, names := path2, [], [];
    TakenFirst(path2);
    var r2 := Chop(prefix2);
    while r2.Some?
      invariant r2 == Chop(prefix2) && TakenApart(path2, prefix2, index, names)
      decreases |prefix2|
    {
      var (pre, base) := r2.value;
      TakenNext(path2, prefix2, index, names, pre, base);
      index := [|pre|] + index;
      names := [base] + names;
      prefix2 := pre;
      r2 := Chop(prefix2);
    }
    TakenLast(path2, prefix2, index, names);
  }

  lemma SuffixesTail(path: string, index: seq<nat>, names: seq<string>)
    requires Suffixes(path, index, names) && names != []
    ensures Suffixes(path, index[1..], names[1..])
  {
    assert forall i :: 0 <= i < |names| - 1 ==> names[1..][i..] == names[i + 1..];
  }

  /** Where the rest of the second path leads from the rest of the first. */
  ghost predicate Leads(start: Place, prefix1: string, names: seq<string>, place: Place) {
    Walk(Walk(start, Names(prefix1)), names) == place
  }

  lemma DropDot(start: Place, prefix1: string, names: seq<string>, place: Place)
    requires Leads(start, prefix1, names, place) && names != [] && names[0] == "."
    ensures Leads(start, prefix1, names[1..], place)
  {
    assert names == [names[0]] + names[1..];
    WalkFirst(Walk(start, Names(prefix1)), names[0], names[1..]);
  }

  lemma WalkLast(start: Place, front: seq<string>, base: string)
    ensures Walk(start, front + [base]) == Go(Walk(start, front), base)
  {
    assert (front + [base])[..|front|] == front;
  }

  /** A "." of the first path. */
  lemma CancelDot(start: Place, prefix1: string, pre: string, names: seq<string>, place: Place)
    requires Leads(start, prefix1, names, place) && Names(prefix1) == Names(pre) + ["."]
    ensures Leads(start, pre, names, place)
  {
    WalkLast(start, Names(pre), ".");
  }

  /** A component of the first path that a ".." of the second takes back. */
  lemma CancelUp(start: Place, prefix1: string, pre: string, base: string, names: seq<string>, place: Place)
    requires Leads(start, prefix1, names, place) && Names(prefix1) == Names(pre) + [base]
    requires base != "." && base != ".." && names != [] && names[0] == ".."
    ensures Leads(start, pre, names[1..], place)
  {
    WalkLast(start, Names(pre), base);
    UpAgain(Walk(start, Names(pre)), base);
    assert names == [".."] + names[1..];
    WalkFirst(Go(Walk(start, Names(pre)), base), "..", names[1..]);
  }

  lemma UpAgain(p: Place, base: string)
    requires base != "." && base != ".."
    ensures Go(Go(p, base), "..") == p
  {
    assert (p.names + [base])[..|p.names|] == p.names;
  }

  ghost predicate IsRear<T>(all: seq<T>, rear: seq<T>) {
    |rear| <= |all| && rear == all[|all| - |rear|..]
  }

  lemma RearTail<T>(all: seq<T>, rear: seq<T>)
    requires IsRear(all, rear) && rear != []
    ensures IsRear(all, rear[1..])
  {
  }

  lemma RearOfRear<T>(all: seq<T>, rear: seq<T>, last: seq<T>)
    requires IsRear(all, rear) && IsRear(rear, last)
    ensures IsRear(all, last)
  {
  }

  /** A dot that is dropped: one that leads nowhere, or a parent of the root. */
  lemma DropFirst(start: Place, prefix1: string, names: seq<string>, place: Place, dots: string)
    requires Leads(start, prefix1, names, place) && names != [] && names[0] == dots
    requires dots == "." || (dots == ".." && Walk(start, Names(prefix1)) == ROOT)
    ensures Leads(start, prefix1, names[1..], place)
  {
    if dots == "." {
      DropDot(start, prefix1, names, place);
    } else {
      assert names == [names[0]] + names[1..];
      WalkFirst(ROOT, names[0], names[1..]);
    }
  }

  /** The dots in front of the second path are dropped. */
  method SkipDots(ghost path2: string, ghost start: Place, ghost prefix1: string, ghost place: Place,
                  index: seq<nat>, names: seq<string>, dots: string) returns (index': seq<nat>, names': seq<string>)
    requires Suffixes(path2, index, names) && Leads(start, prefix1, names, place)
    requires dots == "." || (dots == ".." && Walk(start, Names(prefix1)) == ROOT)
    ensures Suffixes(path2, index', names') && Leads(start, prefix1, names', place)
    ensures IsRear(names, names') && (names' != [] ==> names'[0] != dots)
  {
    index', names' := index, names;
    while names' != [] && names'[0] == dots
      invariant Suffixes(path2, index', names') && Leads(start, prefix1, names', place) && IsRear(names, names')
      decreases |names'|
    {
      SuffixesTail(path2, index', names');
      DropFirst(start, prefix1, names', place, dots);
      RearTail(names, names');
      index', names' := index'[1..], names'[1..];
    }
  }

  /** No dot is left at the joint, and nothing that a ".." behind it takes back; only behind the root,
      where ".." is dropped, a dot may follow. */
  predicate Settled(front: seq<string>, rear: seq<string>, absolute: bool) {
    && (front != [] ==> front[|front| - 1] != ".")
    && (rear != [] && rear[0] == "." ==> front == [] && absolute)
    && (rear != [] && rear[0] == ".." ==> if front == [] then !absolute else front[|front| - 1] == "..")
  }

  /** The path r is made of the front of path1 and the rear of path2, written as they are there. */
  ghost predicate MadeOf(path1: string, path2: string, front: string, rear: string, r: string) {
    && front <= path1 && Names(front) <= Names(path1) && (Names(front) != [] ==> !Ends(front))
    && IsRear(path2, rear) && IsRear(Names(path2), Names(rear))
    && Settled(Names(front), Names(rear), Absolute(path1))
    && r == if Names(front) == [] && Names(rear) == [] then if Absolute(path1) then "/" else "."
            else if Names(rear) == [] then front
            else if Names(front) == [] then Prefix(path1) + rear
            else front + "/" + rear
  }

  /** What is left of the first path while components are taken back. */
  ghost predicate IsFront(path1: string, prefix1: string) {
    prefix1 <= path1 && Names(prefix1) <= Names(path1) && Prefix(prefix1) == Prefix(path1)
  }

  lemma FrontText(path1: string, pre: string, base: string, tail: string)
    requires pre + base + tail <= path1
    ensures pre <= path1 && pre + base <= path1
  {
    assert path1[..|pre + base + tail|] == pre + base + tail;
    assert path1[..|pre|] == pre && path1[..|pre + base|] == pre + base;
  }

  lemma FrontChopped(path1: string, prefix1: string, pre: string, base: string)
    requires IsFront(path1, prefix1) && Chop(prefix1) == Some((pre, base))
    ensures IsFront(path1, pre) && IsFront(path1, pre + base) && !Ends(pre + base)
    ensures Names(pre + base) == Names(prefix1) == Names(pre) + [base] && |pre| < |prefix1|
  {
    ChopSpec(prefix1);
    NamesPush(pre, base);
    FrontText(path1, pre, base, prefix1[|pre| + |base|..]);
    LastNoSlash(pre, base);
  }

  lemma LastNoSlash(pre: string, base: string)
    requires Component(base)
    ensures !Ends(pre + base)
  {
    assert base[|base| - 1] in base;
  }

  /** The first loop round of plus is over: what is left of both paths. */
  ghost predicate Cut(path1: string, path2: string, prefix1: string, index: seq<nat>, names: seq<string>,
                      place: Place) {
    && IsFront(path1, prefix1) && Suffixes(path2, index, names) && IsRear(Names(path2), names)
    && Leads(StartOf(path1), prefix1, names, place)
  }

  /** What is left when nothing is to be taken back any more, but for parents at the root. */
  ghost predicate Joint(prefix1: string, names: seq<string>) {
    && (names != [] ==> names[0] != ".")
    && (Names(prefix1) != [] ==>
          && !Ends(prefix1) && Names(prefix1)[|Names(prefix1)| - 1] != "."
          && (names != [] && names[0] == ".." ==> Names(prefix1)[|Names(prefix1)| - 1] == ".."))
  }

  lemma NothingLeft(prefix1: string)
    requires Chop(prefix1).None?
    ensures Names(prefix1) == [] && Prefix(prefix1) == prefix1
  {
    ChopSpec(prefix1);
    ChopNone(prefix1);
  }

  lemma CutUp(path1: string, path2: string, prefix1: string, pre: string, base: string, index: seq<nat>,
              names: seq<string>, place: Place)
    requires Cut(path1, path2, prefix1, index, names, place) && IsFront(path1, pre)
    requires Names(prefix1) == Names(pre) + [base] && base != "." && base != ".." && names != [] && names[0] == ".."
    ensures Cut(path1, path2, pre, index[1..], names[1..], place)
  {
    CancelUp(StartOf(path1), prefix1, pre, base, names, place);
    SuffixesTail(path2, index, names);
    RearTail(Names(path2), names);
  }

  method SkipHere(ghost path1: string, ghost path2: string, ghost prefix1: string, index: seq<nat>, names: seq<string>,
                  ghost place: Place) returns (index': seq<nat>, names': seq<string>)
    requires Cut(path1, path2, prefix1, index, names, place)
    ensures Cut(path1, path2, prefix1, index', names', place) && (names' != [] ==> names'[0] != ".")
  {
    index', names' := SkipDots(path2, StartOf(path1), prefix1, place, index, names, ".");
    RearOfRear(Names(path2), names, names');
  }

  /** plus: an absolute second path is the result; otherwise the result leads where walking the
      second path from the first one leads, and is the front of the one and the rear of the other,
      without the components that take each other back. */
  method Plus(path1: string, path2: string) returns (r: string)
    ensures if Absolute(path2) then r == path2 else Denoted(r) == Walk(Denoted(path1), Names(path2))
    ensures !Absolute(path2) ==> exists front, rear :: MadeOf(path1, path2, front, rear, r)
  {
    var prefix2, index, names := Indexes(path2);
    if prefix2 != "" { return path2; }
    var prefix1 := path1;
    ghost var place := Walk(Denoted(path1), Names(path2));
    while true
      invariant Cut(path1, path2, prefix1, index, names, place)
      decreases |prefix1|
    {
      index, names := SkipHere(path1, path2, prefix1, index, names, place);
      var r1 := Chop(prefix1);
      if r1.None? {
        NothingLeft(prefix1);
        break;
      }
      var (pre, base) := r1.value;
      FrontChopped(path1, prefix1, pre, base);
      if base == "." {
        CancelDot(StartOf(path1), prefix1, pre, names, place);
        prefix1 := pre;
      } else if base == ".." || names == [] || names[0] != ".." {
        prefix1 := pre + base;
        break;
      } else {
        CutUp(path1, path2, prefix1, pre, base, index, names, place);
        prefix1 := pre;
        index, names := index[1..], names[1..];
      }
    }
    ghost var front, rear;
    r, front, rear := Finish(path1, path2, prefix1, index, names, place);
  }

  /** Parents behind the root are dropped. */
  method DropAtRoot(ghost path1: string, path2: string, prefix1: string, index: seq<nat>, names: seq<string>,
                    ghost place: Place) returns (index': seq<nat>, names': seq<string>)
    requires Cut(path1, path2, prefix1, index, names, place) && Joint(prefix1, names)
    ensures Cut(path1, path2, prefix1, index', names', place)
    ensures Settled(Names(prefix1), names', Absolute(path1)) && (Names(prefix1) != [] ==> !Ends(prefix1))
  {
    index', names' := index, names;
    if Chop(prefix1).None? {
      ChopSpec(prefix1);
      ChopNone(prefix1);
      if prefix1 != "" {
        index', names' := SkipDots(path2, StartOf(path1), prefix1, place, index, names, "..");
        RearOfRear(Names(path2), names, names');
      }
    }
  }

  /** What plus makes of the parts that are left. */
  method Finish(ghost path1: string, path2: string, prefix1: string, index: seq<nat>, names: seq<string>,
                ghost place: Place) returns (r: string, ghost front: string, ghost rear: string)
    requires Cut(path1, path2, prefix1, index, names, place) && Joint(prefix1, names)
    ensures Denoted(r) == place && MadeOf(path1, path2, front, rear, r)
  {
    var index', names' := DropAtRoot(path1, path2, prefix1, index, names, place);
    front, rear := prefix1, if names' == [] then "" else path2[index'[0]..];
    ChopNone("");
    assert names' != [] ==> names'[0..] == names';
    assert IsRear(path2, rear) && Names(rear) == names' && Prefix(rear) == "";
    var r1 := Chop(prefix1);
    ChopSpec(prefix1);
    if r1.None? { ChopNone(prefix1); }
    WalkAppend(StartOf(path1), Names(prefix1), names');
    if names' != [] {
      var suffix2 := path2[index'[0]..];
      if r1.Some? {
        JoinTwoNames(prefix1, suffix2);
        r := JoinTwo(prefix1, suffix2);
      } else {
        NamesConcat(prefix1, suffix2);
        r := prefix1 + suffix2;
      }
    } else if r1.Some? {
      r := prefix1;
    } else {
      DotDenotes();
      r := DirnameOfPrefix(prefix1);
    }
  }

  lemma DotDenotes()
    ensures Denoted(".") == HERE && Denoted("/") == ROOT
  {
    assert Ups(0) == [] && Shown(HERE) == [] && Shown(ROOT) == [];
    ShowDenotes(HERE);
    ShowDenotes(ROOT);
  }
}

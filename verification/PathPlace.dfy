/**
 What a path means: walking its components from the left, and the clean form of where they lead.
 */
module PathPlace {
  import opened Common
  import opened PathNames

  /** A place relative to a starting directory, or below the root: so many levels up, then down. */
  datatype Place = Place(root: bool, ups: nat, names: seq<string>)

  predicate Plain(s: string) {
    Component(s) && s != "." && s != ".."
  }

  ghost predicate Canonical(p: Place) {
    (forall i :: 0 <= i < |p.names| ==> Plain(p.names[i])) && (p.root ==> p.ups == 0)
  }

  /** One component further; the root is its own parent. */
  function Go(p: Place, name: string): Place {
    if name == "." then p
    else if name == ".." then
      if p.names != [] then p.(names := p.names[..|p.names| - 1])
      else if p.root then p
      else p.(ups := p.ups + 1)
    else p.(names := p.names + [name])
  }

  function Walk(p: Place, names: seq<string>): Place
    decreases |names|
  {
    if names == [] then p else Go(Walk(p, names[..|names| - 1]), names[|names| - 1])
  }

  const HERE := Place(false, 0, [])
  const ROOT := Place(true, 0, [])

  /** The place a path denotes. */
  function Denoted(path: string): Place {
    Walk(if Absolute(path) then ROOT else HERE, Names(path))
  }

  /** The directory a path leads to from a directory of a tree without symbolic links. */
  function Resolve(cwd: seq<string>, path: string): seq<string> {
    Walk(if Absolute(path) then ROOT else Place(true, 0, cwd), Names(path)).names
  }

  /** Going on to a relative place. */
  function Then(p: Place, q: Place): Place {
    if q.root then q
    else if q.ups <= |p.names| then p.(names := p.names[..|p.names| - q.ups] + q.names)
    else if p.root then p.(names := q.names)
    else p.(ups := p.ups + (q.ups - |p.names|), names := q.names)
  }

  lemma GoCanonical(p: Place, name: string)
    requires Canonical(p) && Component(name)
    ensures Canonical(Go(p, name)) && Go(p, name).root == p.root
  {
  }

  lemma {:induction false} WalkCanonical(p: Place, names: seq<string>)
    requires Canonical(p) && forall i :: 0 <= i < |names| ==> Component(names[i])
    ensures Canonical(Walk(p, names)) && Walk(p, names).root == p.root
    decreases |names|
  {
    if names != [] {
      WalkCanonical(p, names[..|names| - 1]);
      GoCanonical(Walk(p, names[..|names| - 1]), names[|names| - 1]);
    }
  }

  lemma DenotedCanonical(path: string)
    ensures Canonical(Denoted(path)) && Denoted(path).root == Absolute(path)
  {
    NamesSpec(path);
    WalkCanonical(if Absolute(path) then ROOT else HERE, Names(path));
  }

  lemma {:induction false} WalkAppend(p: Place, a: seq<string>, b: seq<string>)
    ensures Walk(p, a + b) == Walk(Walk(p, a), b)
    decreases |b|
  {
    if b == [] {
      assert a + b == a;
    } else {
      WalkAppend(p, a, b[..|b| - 1]);
      assert (a + b)[..|a + b| - 1] == a + b[..|b| - 1];
    }
  }

  lemma GoThen(p: Place, q: Place, name: string)
    requires !q.root
    ensures Then(p, Go(q, name)) == Go(Then(p, q), name)
  {
    if q.ups <= |p.names| {
      var kept := p.names[..|p.names| - q.ups];
      if name == ".." {
        if q.names != [] {
          assert (kept + q.names)[..|kept| + |q.names| - 1] == kept + q.names[..|q.names| - 1];
        } else {
          assert kept + [] == kept;
          if kept != [] { assert kept[..|kept| - 1] == p.names[..|p.names| - (q.ups + 1)] + []; }
        }
      } else if name != "." {
        assert kept + (q.names + [name]) == kept + q.names + [name];
      }
    }
  }

  /** Walking from anywhere is going to that place and on to where the components lead. */
  lemma {:induction false} WalkThen(p: Place, names: seq<string>)
    ensures !Walk(HERE, names).root && Walk(p, names) == Then(p, Walk(HERE, names))
    decreases |names|
  {
    if names == [] {
      assert p.names[..|p.names|] + [] == p.names;
    } else {
      WalkThen(p, names[..|names| - 1]);
      GoThen(p, Walk(HERE, names[..|names| - 1]), names[|names| - 1]);
    }
  }

  /** Paths that denote the same place lead to the same directory from everywhere. */
  lemma SamePlaceResolves(cwd: seq<string>, path: string, path': string)
    requires Denoted(path) == Denoted(path')
    ensures Resolve(cwd, path) == Resolve(cwd, path')
  {
    DenotedCanonical(path);
    DenotedCanonical(path');
    WalkThen(Place(true, 0, cwd), Names(path));
    WalkThen(Place(true, 0, cwd), Names(path'));
  }

  // ---- the clean form

  function Ups(n: nat): (r: seq<string>)
    ensures |r| == n && forall i :: 0 <= i < n ==> r[i] == ".."
  {
    seq(n, _ => "..")
  }

  /** The components of the clean form. */
  function Shown(p: Place): seq<string> {
    Ups(p.ups) + p.names
  }

  /** prepend_prefix behind a prefix of separators, or none. */
  function WithPrefix(prefix: string, relpath: string): string {
    if relpath == "" then DirnameOfPrefix(prefix)
    else if prefix != "" then "/" + relpath
    else relpath
  }

  /** The clean path to a place. */
  function Show(p: Place): string {
    WithPrefix(if p.root then "/" else "", Join(Shown(p)))
  }

  lemma {:induction false} WalkUps(n: nat)
    ensures Walk(HERE, Ups(n)) == Place(false, n, [])
    decreases n
  {
    if n > 0 {
      WalkUps(n - 1);
      assert Ups(n)[..n - 1] == Ups(n - 1);
    }
  }

  lemma {:induction false} WalkPlain(p: Place, names: seq<string>)
    requires forall i :: 0 <= i < |names| ==> Plain(names[i])
    ensures Walk(p, names) == p.(names := p.names + names)
    decreases |names|
  {
    if names == [] {
      assert p.names + [] == p.names;
    } else {
      var init := names[..|names| - 1];
      WalkPlain(p, init);
      assert p.names + init + [names[|names| - 1]] == p.names + names by {
        assert init + [names[|names| - 1]] == names;
      }
    }
  }

  lemma WalkShown(p: Place)
    requires Canonical(p)
    ensures Walk(if p.root then ROOT else HERE, Shown(p)) == p
  {
    var start := if p.root then ROOT else HERE;
    WalkAppend(start, Ups(p.ups), p.names);
    if p.root {
      assert Ups(0) == [] && Walk(ROOT, []) == ROOT;
    } else {
      WalkUps(p.ups);
    }
    WalkPlain(Walk(start, Ups(p.ups)), p.names);
    assert [] + p.names == p.names;
  }

  /** The components and the prefix of a clean path. */
  lemma ShowNames(p: Place)
    requires Canonical(p)
    ensures Absolute(Show(p)) == p.root
    ensures Names(Show(p)) == if Shown(p) == [] && !p.root then ["."] else Shown(p)
  {
    var rel := Join(Shown(p));
    JoinNames(Shown(p));
    if Shown(p) == [] {
      if p.root {
        ChopNone("/");
      } else {
        NamesPush("", ".");
        ChopNone("");
        assert "" + "." == ".";
      }
    } else if p.root {
      ChopNone("/");
      NamesConcat("/", rel);
      assert [] + Shown(p) == Shown(p);
    }
  }

  /** A clean path denotes the place it was made for: places and clean paths correspond one to one. */
  lemma ShowDenotes(p: Place)
    requires Canonical(p)
    ensures Denoted(Show(p)) == p
  {
    ShowNames(p);
    WalkShown(p);
    if Shown(p) == [] && !p.root {
      assert ["."][..0] == [];
      assert Walk(HERE, ["."]) == Go(Walk(HERE, []), ".");
    }
  }

  // ---- cleaning from the right

  /** The loop of cleanpath_aggressive takes components from the right. */
  function CleanStep(base: string, names: seq<string>): seq<string> {
    if base == "." then names
    else if base == ".." then [".."] + names
    else if names != [] && names[0] == ".." then names[1..]
    else [base] + names
  }

  function CleanNames(names: seq<string>): seq<string> {
    if names == [] then [] else CleanStep(names[0], CleanNames(names[1..]))
  }

  function DropUps(names: seq<string>): seq<string> {
    if names != [] && names[0] == ".." then DropUps(names[1..]) else names
  }

  lemma ShownFirst(p: Place)
    requires Canonical(p)
    ensures Shown(p) != [] && Shown(p)[0] == ".." <==> p.ups > 0
  {
  }

  /** A component in front of a relative place. */
  function Before(base: string, q: Place): Place {
    if base == "." then q
    else if base == ".." then q.(ups := q.ups + 1)
    else if q.ups > 0 then q.(ups := q.ups - 1)
    else q.(names := [base] + q.names)
  }

  lemma BeforeIsThen(base: string, q: Place)
    requires Component(base) && !q.root
    ensures Before(base, q) == Then(Go(HERE, base), q)
  {
    assert [] + q.names == q.names;
    assert [base][..1] == [base] && [base][..0] == [];
  }

  lemma CleanStepIs(base: string, q: Place)
    requires Component(base) && Canonical(q) && !q.root
    ensures CleanStep(base, Shown(q)) == Shown(Before(base, q))
  {
    ShownFirst(q);
    if base == ".." {
      OneMoreUp(q.ups, q.names);
    } else if base != "." && q.ups > 0 {
      OneMoreUp(q.ups - 1, q.names);
    } else if base != "." {
      assert Ups(0) + q.names == q.names && Ups(0) + ([base] + q.names) == [base] + q.names;
    }
  }

  lemma OneMoreUp(n: nat, names: seq<string>)
    ensures [".."] + (Ups(n) + names) == Ups(n + 1) + names
    ensures (Ups(n + 1) + names)[1..] == Ups(n) + names
  {
    assert [".."] + Ups(n) == Ups(n + 1);
  }

  /** Cancelling from the right gives the same as walking from the left. */
  lemma {:induction false} CleanNamesIsWalk(names: seq<string>)
    requires forall i :: 0 <= i < |names| ==> Component(names[i])
    ensures CleanNames(names) == Shown(Walk(HERE, names))
    decreases |names|
  {
    if names == [] {
      assert Shown(HERE) == [];
    } else {
      var first, rest := names[..1], names[1..];
      CleanNamesIsWalk(rest);
      WalkCanonical(HERE, rest);
      CleanStepIs(names[0], Walk(HERE, rest));
      BeforeIsThen(names[0], Walk(HERE, rest));
      assert first + rest == names;
      WalkAppend(HERE, first, rest);
      assert first[..0] == [];
      assert Walk(HERE, first) == Go(Walk(HERE, []), names[0]);
      WalkThen(Walk(HERE, first), rest);
    }
  }

  lemma {:induction false} DropUpsShown(p: Place)
    requires Canonical(p)
    ensures DropUps(Shown(p)) == p.names
    decreases p.ups
  {
    ShownFirst(p);
    if p.ups > 0 {
      DropUpsShown(p.(ups := p.ups - 1));
      assert Shown(p)[1..] == Shown(p.(ups := p.ups - 1));
    } else {
      assert Shown(p) == p.names;
    }
  }

  /** Below the root the leading ".." go. */
  lemma CleanRoot(names: seq<string>)
    requires forall i :: 0 <= i < |names| ==> Component(names[i])
    ensures DropUps(CleanNames(names)) == Shown(Walk(ROOT, names))
  {
    CleanNamesIsWalk(names);
    WalkCanonical(HERE, names);
    WalkCanonical(ROOT, names);
    DropUpsShown(Walk(HERE, names));
    WalkThen(ROOT, names);
    var p := Walk(ROOT, names);
    assert [] + Walk(HERE, names).names == Walk(HERE, names).names;
    assert Shown(p) == Ups(0) + p.names == p.names;
  }
}

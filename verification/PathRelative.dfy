/**
 relative_path_from, and what cleaning, joining and relativising do to the places of paths.
 */
module PathRelative {
  import opened Common
  import opened PathNames
  import opened PathPlace
  import opened PathLength
  import opened PathMethods

  datatype Error = ArgumentError

  type Outcome = Common.Outcome<string, Error>

  lemma ShownNoDot(p: Place)
    requires Canonical(p)
    ensures forall i :: 0 <= i < |Shown(p)| ==> Shown(p)[i] != "."
  {
  }

  /** The components of a clean path that its splitting loop keeps. */
  function NotDots(names: seq<string>): seq<string> {
    if names == [] then []
    else (if names[0] == "." then [] else [names[0]]) + NotDots(names[1..])
  }

  lemma {:induction false} NotDotsSame(names: seq<string>)
    requires forall i :: 0 <= i < |names| ==> names[i] != "."
    ensures NotDots(names) == names
  {
    if names != [] {
      NotDotsSame(names[1..]);
      assert [names[0]] + names[1..] == names;
    }
  }

  lemma NotDotsShown(p: Place)
    requires Canonical(p)
    ensures NotDots(Names(Show(p))) == Shown(p)
  {
    ShowNames(p);
    if Shown(p) == [] && !p.root {
      assert ["."][1..] == [];
    } else {
      ShownNoDot(p);
      NotDotsSame(Shown(p));
    }
  }

  /** The loops of relative_path_from that split a clean path. */
  method SplitClean(path: string) returns (prefix: string, names: seq<string>)
    ensures prefix == Prefix(path) && names == NotDots(Names(path))
  {
    prefix, names := path, [];
    ghost var done: seq<string> := [];
    var c := Chop(prefix);
    assert Names(path) + [] == Names(path);
    while c.Some?
      invariant c == Chop(prefix) && Prefix(prefix) == Prefix(path) && Names(path) == Names(prefix) + done
      invariant names == NotDots(done)
      decreases |prefix|
    {
      ChopSpec(prefix);
      var (pre, base) := c.value;
      AppendFirst(Names(pre), base, done);
      assert ([base] + done)[1..] == done;
      if base != "." { names := [base] + names; }
      done := [base] + done;
      prefix := pre;
      c := Chop(prefix);
    }
    ChopSpec(prefix);
    ChopNone(prefix);
    assert [] + done == done;
  }

  /** What two component lists have in common at the front. */
  function CommonFront(a: seq<string>, b: seq<string>): (n: nat)
    ensures n <= |a| && n <= |b|
  {
    if a == [] || b == [] || a[0] != b[0] then 0 else CommonFront(a[1..], b[1..]) + 1
  }

  lemma {:induction false} CommonSpec(a: seq<string>, b: seq<string>)
    ensures var n := CommonFront(a, b);
            (forall i :: 0 <= i < n ==> a[i] == b[i]) && (n < |a| && n < |b| ==> a[n] != b[n])
    decreases |a|
  {
    if a != [] && b != [] && a[0] == b[0] {
      CommonSpec(a[1..], b[1..]);
      var n := CommonFront(a, b);
      forall i | 0 <= i < n
        ensures a[i] == b[i]
      {
        if i > 0 { assert a[1..][i - 1] == b[1..][i - 1]; }
      }
    }
  }

  lemma ShownAt(p: Place, i: nat)
    requires Canonical(p) && i < |Shown(p)|
    ensures Shown(p)[i] == if i < p.ups then ".." else p.names[i - p.ups]
    ensures Shown(p)[i] == ".." <==> i < p.ups
  {
  }

  /** How long the common part is when the base does not go further up than the destination. */
  lemma CommonLength(b: Place, d: Place)
    requires Canonical(b) && Canonical(d)
    ensures var n := CommonFront(Shown(d), Shown(b));
            if b.ups < d.ups then n == b.ups else if b.ups > d.ups then n <= d.ups else n >= b.ups
  {
    var n, bs, ds := CommonFront(Shown(d), Shown(b)), Shown(b), Shown(d);
    CommonSpec(ds, bs);
    if n < |ds| { ShownAt(d, n); }
    if n < |bs| { ShownAt(b, n); }
    if b.ups < n { ShownAt(b, b.ups); ShownAt(d, b.ups); }
    if d.ups < n { ShownAt(b, d.ups); ShownAt(d, d.ups); }
  }

  /** A ".." remains of the base exactly if the base goes further up than the destination. */
  lemma UpRemains(b: Place, d: Place)
    requires Canonical(b) && Canonical(d)
    ensures ".." in Shown(b)[CommonFront(Shown(d), Shown(b))..] <==> b.ups > d.ups
  {
    var n, bs := CommonFront(Shown(d), Shown(b)), Shown(b);
    CommonLength(b, d);
    if b.ups > d.ups {
      ShownAt(b, n);
      assert bs[n..][0] == "..";
    } else {
      forall i | n <= i < |bs|
        ensures bs[i] != ".."
      {
        ShownAt(b, i);
      }
    }
  }

  lemma {:induction false} UpFrom(b: Place, n: nat)
    requires n <= |b.names|
    ensures Walk(b, Ups(n)) == b.(names := b.names[..|b.names| - n])
    decreases n
  {
    if n == 0 {
      assert Ups(0) == [];
    } else {
      UpFrom(b, n - 1);
      assert Ups(n)[..n - 1] == Ups(n - 1);
    }
  }

  lemma {:induction false} UpFurther(b: Place, n: nat)
    requires b.names == [] && !b.root
    ensures Walk(b, Ups(n)) == b.(ups := b.ups + n)
    decreases n
  {
    if n == 0 {
      assert Ups(0) == [];
    } else {
      UpFurther(b, n - 1);
      assert Ups(n)[..n - 1] == Ups(n - 1);
    }
  }

  /** Back to the common part, and down to the destination. */
  lemma LeadsDown(b: Place, d: Place, m: nat)
    requires Canonical(b) && Canonical(d) && b.root == d.root && b.ups == d.ups
    requires m <= |b.names| && m <= |d.names| && b.names[..m] == d.names[..m]
    ensures Walk(b, Ups(|b.names| - m) + d.names[m..]) == d
  {
    var down := d.names[m..];
    UpFrom(b, |b.names| - m);
    WalkAppend(b, Ups(|b.names| - m), down);
    WalkPlain(b.(names := b.names[..m]), down);
    assert d.names[..m] + down == d.names;
  }

  lemma WalkThree(p: Place, a: seq<string>, b: seq<string>, c: seq<string>)
    ensures Walk(p, a + (b + c)) == Walk(Walk(Walk(p, a), b), c)
  {
    WalkAppend(p, a, b + c);
    WalkAppend(Walk(p, a), b, c);
  }

  /** Up beyond the beginning of the base, and down to the destination. */
  lemma LeadsUp(b: Place, d: Place)
    requires Canonical(b) && Canonical(d) && b.root == d.root && b.ups < d.ups
    ensures Walk(b, Ups(|b.names|) + (Ups(d.ups - b.ups) + d.names)) == d
  {
    var top, extra := Place(false, b.ups, []), d.ups - b.ups;
    WalkThree(b, Ups(|b.names|), Ups(extra), d.names);
    assert Walk(b, Ups(|b.names|)) == top by { UpFrom(b, |b.names|); }
    assert Walk(top, Ups(extra)) == Place(false, d.ups, []) by { UpFurther(top, extra); }
    assert Walk(Place(false, d.ups, []), d.names) == d by {
      WalkPlain(Place(false, d.ups, []), d.names);
      assert [] + d.names == d.names;
    }
  }

  /** The relative path's components lead from the base to the destination. */
  lemma RelativeLeads(b: Place, d: Place, n: nat)
    requires Canonical(b) && Canonical(d) && b.root == d.root && b.ups <= d.ups && n == CommonFront(Shown(d), Shown(b))
    ensures Walk(b, Ups(|Shown(b)| - n) + Shown(d)[n..]) == d
  {
    CommonLength(b, d);
    if b.ups < d.ups {
      assert Shown(d)[n..] == Ups(d.ups - b.ups) + d.names;
      LeadsUp(b, d);
    } else {
      var m := n - b.ups;
      CommonSpec(Shown(d), Shown(b));
      forall i | 0 <= i < m
        ensures b.names[i] == d.names[i]
      {
        assert Shown(d)[b.ups + i] == Shown(b)[b.ups + i];
        ShownAt(b, b.ups + i);
        ShownAt(d, b.ups + i);
      }
      assert Shown(d)[n..] == d.names[m..];
      LeadsDown(b, d, m);
    }
  }

  /** The relative place: as many levels up as the base has below the common part, then down. */
  ghost function Way(b: Place, d: Place, n: nat): Place
    requires n <= |Shown(d)| && n <= |Shown(b)|
  {
    if b.ups < d.ups then Place(false, |b.names| + d.ups - b.ups, d.names)
    else Place(false, |Shown(b)| - n, Shown(d)[n..])
  }

  /** The components that relative_path_from joins are those of a clean path. */
  lemma RelativeShown(b: Place, d: Place, n: nat)
    requires Canonical(b) && Canonical(d) && b.root == d.root && b.ups <= d.ups && n == CommonFront(Shown(d), Shown(b))
    ensures Canonical(Way(b, d, n)) && Shown(Way(b, d, n)) == Ups(|Shown(b)| - n) + Shown(d)[n..]
  {
    CommonLength(b, d);
    if b.ups < d.ups {
      assert Shown(d)[n..] == Ups(d.ups - b.ups) + d.names;
    } else {
      forall i | n <= i < |Shown(d)| ensures Plain(Shown(d)[i]) { ShownAt(d, i); }
    }
  }

  lemma {:induction false} UpsCost(n: nat)
    ensures Cost(Ups(n)) == 3 * n
  {
    if n > 0 {
      UpsCost(n - 1);
      assert Ups(n)[..n - 1] == Ups(n - 1);
    }
  }

  lemma ShownCost(p: Place)
    ensures Cost(Shown(p)) == 3 * p.ups + Cost(p.names)
  {
    UpsCost(p.ups);
    CostAppend(Ups(p.ups), p.names);
  }

  /** A way that ends as many levels up as it began keeps a front of the names. */
  lemma KeepsFront(b: Place, d: Place, p: Place) returns (k: nat)
    requires Canonical(b) && Canonical(d) && !p.root && Then(b, p) == d && b.ups == d.ups
    ensures k <= |b.names| && k <= |d.names| && b.names[..k] == d.names[..k]
    ensures p.names == d.names[k..] && p.ups >= |b.names| - k
  {
    k := if p.ups <= |b.names| then |b.names| - p.ups else 0;
    assert d.names == b.names[..k] + p.names;
  }

  lemma RearCosts(names: seq<string>, k: nat, m: nat)
    requires k <= m <= |names|
    ensures Cost(names[m..]) <= Cost(names[k..])
  {
    assert names[k..] == names[k..m] + names[m..];
    CostAppend(names[k..m], names[m..]);
  }

  /** Of two ways from one place to another the one that goes back to the common part is no longer. */
  lemma WayCosts(b: Place, d: Place, n: nat, p: Place)
    requires Canonical(b) && Canonical(d) && b.root == d.root && b.ups <= d.ups && n == CommonFront(Shown(d), Shown(b))
    requires !p.root && Then(b, p) == d
    ensures Cost(Shown(Way(b, d, n))) <= Cost(Shown(p))
  {
    CommonLength(b, d);
    ShownCost(Way(b, d, n));
    ShownCost(p);
    if b.ups == d.ups {
      var m := n - b.ups;
      var k := KeepsFront(b, d, p);
      CommonPart(b, d, n, k);
      RearCosts(d.names, k, m);
      assert Shown(d)[n..] == d.names[m..];
    }
  }

  /** A common front of the names is part of what is found. */
  lemma CommonPart(b: Place, d: Place, n: nat, k: nat)
    requires Canonical(b) && Canonical(d) && b.ups == d.ups && n == CommonFront(Shown(d), Shown(b))
    requires k <= |b.names| && k <= |d.names| && d.names[..k] == b.names[..k]
    ensures b.ups + k <= n
  {
    CommonSpec(Shown(d), Shown(b));
    assert forall i :: 0 <= i < k ==> d.names[i] == d.names[..k][i] == b.names[..k][i] == b.names[i];
    if n < b.ups + k {
      ShownAt(b, n);
      ShownAt(d, n);
    }
  }

  lemma CheaperIsShorter(p: Place, q: Place)
    requires !p.root && !q.root && Cost(Shown(p)) <= Cost(Shown(q))
    ensures |Show(p)| <= |Show(q)|
  {
    JoinLength(Shown(p));
    JoinLength(Shown(q));
    JoinEmpty(Shown(p));
    JoinEmpty(Shown(q));
  }

  /** No relative path from the base to the destination is shorter, the empty one apart. */
  lemma RelativeIsShortest(b: Place, d: Place, n: nat, q: string)
    requires Canonical(b) && Canonical(d) && b.root == d.root && b.ups <= d.ups && n == CommonFront(Shown(d), Shown(b))
    requires q != "" && !Absolute(q) && Walk(b, Names(q)) == d
    ensures |Show(Way(b, d, n))| <= |q|
  {
    var p := Denoted(q);
    WalkThen(b, Names(q));
    WayCosts(b, d, n, p);
    CheaperIsShorter(Way(b, d, n), p);
    CleanIsShort(q);
  }

  /** A clean path, and of all the relative paths from one place to the other a shortest, the empty one apart. */
  ghost predicate Shortest(b: Place, d: Place, path: string) {
    && path == Show(Denoted(path))
    && forall q: string :: q != "" && !Absolute(q) && Walk(b, Names(q)) == d ==> |path| <= |q|
  }

  lemma WayIsShortest(b: Place, d: Place, n: nat, path: string)
    requires Canonical(b) && Canonical(d) && b.root == d.root && b.ups <= d.ups && n == CommonFront(Shown(d), Shown(b))
    requires var names := Ups(|Shown(b)| - n) + Shown(d)[n..]; path == if names == [] then "." else Join(names)
    ensures Shortest(b, d, path)
  {
    RelativeShown(b, d, n);
    JoinEmpty(Shown(Way(b, d, n)));
    JoinLength(Shown(Way(b, d, n)));
    assert path == Show(Way(b, d, n));
    ShowDenotes(Way(b, d, n));
    forall q: string | q != "" && !Absolute(q) && Walk(b, Names(q)) == d ensures |path| <= |q| {
      RelativeIsShortest(b, d, n, q);
    }
  }

  lemma RelativeComponents(up: nat, d: Place, n: nat)
    requires Canonical(d) && n <= |Shown(d)|
    ensures var names := Ups(up) + Shown(d)[n..]; forall i :: 0 <= i < |names| ==> Component(names[i])
  {
  }

  lemma PrefixOfShow(p: Place)
    requires Canonical(p)
    ensures Prefix(Show(p)) == if p.root then "/" else ""
  {
    var rel := Join(Shown(p));
    JoinNames(Shown(p));
    ChopNone("");
    ChopNone("/");
    if Shown(p) == [] {
      NamesPush("", ".");
      assert "" + "." == ".";
    } else if p.root {
      NamesConcat("/", rel);
    }
  }

  /** The loop that drops what the two lists have in common. */
  method DropCommon(destNames: seq<string>, baseNames: seq<string>) returns (n: nat)
    ensures n == CommonFront(destNames, baseNames)
  {
    n := 0;
    assert destNames[0..] == destNames && baseNames[0..] == baseNames;
    while n < |destNames| && n < |baseNames| && destNames[n] == baseNames[n]
      invariant n <= |destNames| && n <= |baseNames|
      invariant CommonFront(destNames, baseNames) == n + CommonFront(destNames[n..], baseNames[n..])
    {
      assert destNames[n..][1..] == destNames[n + 1..] && baseNames[n..][1..] == baseNames[n + 1..];
      n := n + 1;
    }
  }

  /** relative_path_from: it fails exactly if one path is absolute and the other is not, or if the
      base goes further up than the destination; otherwise the result is the clean path that leads
      from base to dest, and there is no shorter one but the empty one. */
  method RelativePathFrom(dest: string, base: string) returns (r: Outcome)
    ensures r.Raise? <==> Absolute(dest) != Absolute(base) || Denoted(base).ups > Denoted(dest).ups
    ensures r.Return? ==> !Absolute(r.value) && Walk(Denoted(base), Names(r.value)) == Denoted(dest)
    ensures r.Return? ==> Shortest(Denoted(base), Denoted(dest), r.value)
  {
    var destDirectory := Clean(dest);
    var baseDirectory := Clean(base);
    DenotedCanonical(dest);
    DenotedCanonical(base);
    r := Relative(destDirectory, baseDirectory, Denoted(dest), Denoted(base));
  }

  method Relative(destDirectory: string, baseDirectory: string, ghost d: Place, ghost b: Place) returns (r: Outcome)
    requires Canonical(d) && Canonical(b) && destDirectory == Show(d) && baseDirectory == Show(b)
    ensures r.Raise? <==> d.root != b.root || b.ups > d.ups
    ensures r.Return? ==> !Absolute(r.value) && Walk(b, Names(r.value)) == d && Shortest(b, d, r.value)
  {
    var destPrefix, destNames := SplitClean(destDirectory);
    var basePrefix, baseNames := SplitClean(baseDirectory);
    PrefixOfShow(d);
    PrefixOfShow(b);
    NotDotsShown(d);
    NotDotsShown(b);
    if destPrefix != basePrefix { return Raise(ArgumentError); }
    r := Between(destNames, baseNames, d, b);
  }

  /** The part of relative_path_from behind the comparison of the prefixes. */
  method Between(destNames: seq<string>, baseNames: seq<string>, ghost d: Place, ghost b: Place) returns (r: Outcome)
    requires Canonical(d) && Canonical(b) && d.root == b.root && destNames == Shown(d) && baseNames == Shown(b)
    ensures r.Raise? <==> b.ups > d.ups
    ensures r.Return? ==> !Absolute(r.value) && Walk(b, Names(r.value)) == d && Shortest(b, d, r.value)
  {
    var n := DropCommon(destNames, baseNames);
    var upRemains := ".." in baseNames[n..];
    assert upRemains <==> b.ups > d.ups by { UpRemains(b, d); }
    if upRemains { return Raise(ArgumentError); }
    var relpathNames := Ups(|baseNames| - n) + destNames[n..];
    assert Walk(b, relpathNames) == d by { RelativeLeads(b, d, n); }
    assert forall i :: 0 <= i < |relpathNames| ==> Component(relpathNames[i]) by {
      RelativeComponents(|baseNames| - n, d, n);
    }
    var path := RelativePathOf(relpathNames, b);
    WayIsShortest(b, d, n, path);
    return Return(path);
  }

  /** A dot, or the joined components. */
  method RelativePathOf(names: seq<string>, ghost b: Place) returns (path: string)
    requires forall i :: 0 <= i < |names| ==> Component(names[i])
    ensures !Absolute(path) && Walk(b, Names(path)) == Walk(b, names)
    ensures path == if names == [] then "." else Join(names)
  {
    RelativePath(names, b);
    return if names == [] then "." else Join(names);
  }

  lemma RelativePath(names: seq<string>, b: Place)
    requires forall i :: 0 <= i < |names| ==> Component(names[i])
    ensures var path := if names == [] then "." else Join(names);
            !Absolute(path) && Walk(b, Names(path)) == Walk(b, names)
  {
    if names == [] {
      DotNames();
      WalkFirst(b, ".", []);
      assert ["."] + [] == ["."];
    } else {
      JoinNames(names);
    }
  }

  lemma DotNames()
    ensures Names(".") == ["."] && Prefix(".") == ""
  {
    NamesPush("", ".");
    ChopNone("");
    assert "" + "." == ".";
  }

  // ---- what the methods mean together

  /** Relativising, joining to the base again and cleaning: whenever the first succeeds, what comes
      back is the cleaned destination, and leads where the destination leads from everywhere. */
  method RelativeComesBack(dest: string, base: string) returns (r: Outcome)
    ensures r.Raise? <==> Absolute(dest) != Absolute(base) || Denoted(base).ups > Denoted(dest).ups
    ensures r.Return? ==> r.value == Show(Denoted(dest)) && forall cwd :: Resolve(cwd, r.value) == Resolve(cwd, dest)
  {
    var relative :- RelativePathFrom(dest, base);
    var sum := Plus(base, relative);
    var clean := Clean(sum);
    forall cwd ensures Resolve(cwd, clean) == Resolve(cwd, dest) {
      CleanResolves(dest, cwd);
    }
    return Return(clean);
  }

  /** Cleaning keeps the directory a path leads to, from everywhere. */
  lemma CleanResolves(path: string, cwd: seq<string>)
    ensures Resolve(cwd, Show(Denoted(path))) == Resolve(cwd, path)
  {
    DenotedCanonical(path);
    ShowDenotes(Denoted(path));
    SamePlaceResolves(cwd, Show(Denoted(path)), path);
  }

  /** Cleaning is idempotent. */
  lemma CleanIdempotent(path: string)
    ensures Show(Denoted(Show(Denoted(path)))) == Show(Denoted(path))
  {
    DenotedCanonical(path);
    ShowDenotes(Denoted(path));
  }

  /** Cleaning leaves ".." only at the front of relative paths, and "." only for a path that is
      nothing else. */
  lemma CleanShape(path: string, names: seq<string>)
    requires names == Names(Show(Denoted(path)))
    ensures forall i, j :: 0 <= j <= i < |names| && names[i] == ".." ==> !Absolute(path) && names[j] == ".."
    ensures "." in names ==> names == ["."]
  {
    var p := Denoted(path);
    DenotedCanonical(path);
    ShowNames(p);
    if names == Shown(p) {
      ShownNoDot(p);
      forall i, j | 0 <= j <= i < |names| && names[i] == ".."
        ensures !Absolute(path) && names[j] == ".."
      {
        ShownAt(p, i);
        ShownAt(p, j);
      }
    }
  }
}

/**
 Paths as strings: their components, and what File.basename, File.dirname and File.join do on the
 strings that occur here.
 */
module PathNames {
  import opened Common

  predicate Component(s: string) {
    s != "" && '/' !in s
  }

  predicate Slashes(s: string) {
    forall i :: 0 <= i < |s| ==> s[i] == '/'
  }

  /** How much of the path is left without its trailing separators. */
  function Stripped(path: string): nat {
    if path == "" || path[|path| - 1] != '/' then |path| else Stripped(path[..|path| - 1])
  }

  lemma {:induction false} StrippedSpec(path: string)
    ensures var n := Stripped(path); n <= |path| && Slashes(path[n..]) && (n > 0 ==> path[n - 1] != '/')
    decreases |path|
  {
    if path != "" && path[|path| - 1] == '/' {
      var front := path[..|path| - 1];
      StrippedSpec(front);
      assert path[Stripped(front)..] == front[Stripped(front)..] + "/";
    }
  }

  /** Where the component that ends at n begins. */
  function Begin(path: string, n: nat): (k: nat)
    requires n <= |path|
    ensures k <= n
  {
    if n == 0 || path[n - 1] == '/' then n else Begin(path, n - 1)
  }

  lemma {:induction false} BeginSpec(path: string, n: nat)
    requires n <= |path|
    ensures var k := Begin(path, n); (forall i :: k <= i < n ==> path[i] != '/') && (k > 0 ==> path[k - 1] == '/')
  {
    if n > 0 && path[n - 1] != '/' {
      BeginSpec(path, n - 1);
    }
  }

  /** chop_basename: the last component and what is in front of it; none for "" and for separators only. */
  function Chop(path: string): Option<(string, string)> {
    var n := Stripped(path);
    if n == 0 || n > |path| then None
    else
      var k := Begin(path, n);
      Some((path[..k], path[k..n]))
  }

  /** A string that a component can be put behind. */
  predicate Ends(s: string) {
    s == "" || s[|s| - 1] == '/'
  }

  /** The path is made of a front, a component and separators. */
  ghost predicate Parts(path: string, pre: string, base: string, tail: string) {
    path == pre + base + tail && Ends(pre) && Component(base) && Slashes(tail)
  }

  lemma ChopSpec(path: string)
    ensures Chop(path).Some? ==> |Chop(path).value.0| < |path|
    ensures Chop(path).Some? ==>
      var (pre, base) := Chop(path).value;
      |pre| + |base| <= |path| && Parts(path, pre, base, path[|pre| + |base|..])
    ensures Chop(path).None? ==> Slashes(path)
  {
    var n := Stripped(path);
    StrippedSpec(path);
    if n == 0 {
      assert path[0..] == path;
    } else {
      var k := Begin(path, n);
      BeginSpec(path, n);
      assert path == path[..k] + path[k..n] + path[n..];
    }
  }

  /** split_names: the components of a path, and what is left in front of the first one. */
  function Names(path: string): seq<string>
    decreases |path|
  {
    ChopSpec(path);
    var c := Chop(path);
    if c.None? then [] else Names(c.value.0) + [c.value.1]
  }

  function Prefix(path: string): string
    decreases |path|
  {
    ChopSpec(path);
    var c := Chop(path);
    if c.None? then path else Prefix(c.value.0)
  }

  lemma {:induction false} NamesSpec(path: string)
    ensures forall i :: 0 <= i < |Names(path)| ==> Component(Names(path)[i])
    ensures Slashes(Prefix(path))
    decreases |path|
  {
    ChopSpec(path);
    if Chop(path).Some? { NamesSpec(Chop(path).value.0); }
  }

  predicate Absolute(path: string) {
    Prefix(path) != ""
  }

  lemma StrippedIs(path: string, m: nat)
    requires 0 < m <= |path| && path[m - 1] != '/' && Slashes(path[m..])
    ensures Stripped(path) == m
  {
    StrippedSpec(path);
  }

  lemma BeginIs(path: string, n: nat, k: nat)
    requires k <= n <= |path| && (forall i :: k <= i < n ==> path[i] != '/') && (k > 0 ==> path[k - 1] == '/')
    ensures Begin(path, n) == k
  {
    BeginSpec(path, n);
  }

  /** The parts of a path are what Chop finds. */
  lemma ChopIs(path: string, pre: string, base: string, tail: string)
    requires Parts(path, pre, base, tail)
    ensures Chop(path) == Some((pre, base))
  {
    var m := |pre| + |base|;
    assert forall i :: |pre| <= i < m ==> path[i] == base[i - |pre|] && base[i - |pre|] in base;
    assert path[m..] == tail;
    StrippedIs(path, m);
    BeginIs(path, m, |pre|);
    assert path[..|pre|] == pre && path[|pre|..m] == base;
  }

  lemma NamesParts(path: string, pre: string, base: string, tail: string)
    requires Parts(path, pre, base, tail)
    ensures Names(path) == Names(pre) + [base] && Prefix(path) == Prefix(pre)
  {
    ChopIs(path, pre, base, tail);
  }

  lemma ChopNone(path: string)
    requires Slashes(path)
    ensures Chop(path) == None && Names(path) == [] && Prefix(path) == path
  {
    StrippedSpec(path);
    assert Stripped(path) == 0;
  }

  lemma PartsBehind(a: string, b: string, pre: string, base: string, tail: string)
    requires Parts(b, pre, base, tail) && Ends(a)
    ensures Parts(a + b, a + pre, base, tail)
  {
  }

  /** A relative path behind a string that ends properly. */
  lemma {:induction false} NamesConcat(a: string, b: string)
    requires Ends(a) && Prefix(b) == ""
    ensures Names(a + b) == Names(a) + Names(b) && Prefix(a + b) == Prefix(a)
    decreases |b|
  {
    ChopSpec(b);
    if Chop(b).None? {
      assert a + b == a;
    } else {
      var (pre, base) := Chop(b).value;
      var tail := b[|pre| + |base|..];
      NamesConcat(a, pre);
      PartsBehind(a, b, pre, base, tail);
      NamesParts(a + b, a + pre, base, tail);
      AppendLast(Names(a), Names(pre), base);
    }
  }

  lemma AppendLast(a: seq<string>, b: seq<string>, x: string)
    ensures a + (b + [x]) == a + b + [x]
  {
  }

  /** A component behind a string that ends properly. */
  lemma NamesPush(a: string, base: string)
    requires Ends(a) && Component(base)
    ensures Names(a + base) == Names(a) + [base] && Prefix(a + base) == Prefix(a)
  {
    assert a + base == a + base + "";
    NamesParts(a + base, a, base, "");
  }

  lemma PartsSlash(a: string, pre: string, base: string, tail: string)
    requires Parts(a, pre, base, tail)
    ensures Parts(a + "/", pre, base, tail + "/")
  {
  }

  /** A separator behind a path with components changes nothing. */
  lemma NamesSlash(a: string)
    requires Names(a) != []
    ensures Names(a + "/") == Names(a) && Prefix(a + "/") == Prefix(a)
  {
    var (pre, base) := Chop(a).value;
    var tail := a[|pre| + |base|..];
    ChopSpec(a);
    PartsSlash(a, pre, base, tail);
    NamesParts(a + "/", pre, base, tail + "/");
  }

  // ---- File.join, File.dirname and File.basename

  /** File.join of components. */
  function Join(names: seq<string>): string {
    if names == [] then ""
    else if |names| == 1 then names[0]
    else Join(names[..|names| - 1]) + "/" + names[|names| - 1]
  }

  lemma JoinLast(front: string, init: seq<string>, last: string)
    requires Names(front) == init != [] && Prefix(front) == "" && Component(last)
    ensures Names(front + "/" + last) == init + [last] && Prefix(front + "/" + last) == ""
  {
    NamesSlash(front);
    NamesPush(front + "/", last);
  }

  lemma {:induction false} JoinNames(names: seq<string>)
    requires forall i :: 0 <= i < |names| ==> Component(names[i])
    ensures Names(Join(names)) == names && Prefix(Join(names)) == "" && (names == [] <==> Join(names) == "")
    decreases |names|
  {
    if names == [] {
      ChopNone("");
    } else if |names| == 1 {
      NamesPush("", names[0]);
      ChopNone("");
      assert "" + names[0] == names[0];
    } else {
      var init, last := names[..|names| - 1], names[|names| - 1];
      JoinNames(init);
      JoinLast(Join(init), init, last);
      assert init + [last] == names;
    }
  }

  /** File.dirname of "" and of separators only. */
  function DirnameOfPrefix(prefix: string): string {
    if prefix == "" then "." else "/"
  }

  /** File.join of a path with components and a relative path with components. */
  function JoinTwo(a: string, b: string): string {
    if Ends(a) then a + b else a + "/" + b
  }

  lemma JoinTwoNames(a: string, b: string)
    requires Names(a) != [] && Prefix(b) == ""
    ensures Names(JoinTwo(a, b)) == Names(a) + Names(b) && Prefix(JoinTwo(a, b)) == Prefix(a)
  {
    if Ends(a) {
      NamesConcat(a, b);
    } else {
      NamesSlash(a);
      NamesConcat(a + "/", b);
    }
  }
}

/**
 Factorisation into primes: its product, its uniqueness, and the greatest common divisor read
 off from two factorisations.
 */
module NumberFactors {
  import opened Common
  import opened NumberTheory

  type Pairs = seq<(nat, nat)>

  function Pow(p: nat, e: nat): (r: nat)
    ensures p > 0 ==> r > 0
  {
    if e == 0 then 1 else Times(p, Pow(p, e - 1))
  }

  function Times(a: nat, b: nat): (r: nat)
    ensures r == a * b && (a > 0 && b > 0 ==> r > 0)
  {
    assert a > 0 && b > 0 ==> a * b > 0;
    a * b
  }

  /** The number a list of pairs stands for. */
  function Product(pd: Pairs): nat {
    if pd == [] then 1 else Times(Pow(pd[0].0, pd[0].1), Product(pd[1..]))
  }

  /** Distinct ascending primes with positive exponents. */
  predicate PrimePairs(pd: Pairs) {
    && (forall i :: 0 <= i < |pd| ==> IsPrime(pd[i].0) && pd[i].1 > 0)
    && (forall i, j :: 0 <= i < j < |pd| ==> pd[i].0 < pd[j].0)
  }

  predicate Factorisation(pd: Pairs, n: nat) {
    PrimePairs(pd) && Product(pd) == n
  }

  lemma PrimePairsTail(pd: Pairs)
    requires PrimePairs(pd) && pd != []
    ensures PrimePairs(pd[1..]) && forall i :: 0 <= i < |pd| - 1 ==> pd[0].0 < pd[1..][i].0
  {
  }

  lemma {:induction false} ProductPositive(pd: Pairs)
    requires PrimePairs(pd)
    ensures Product(pd) > 0
  {
    if pd != [] {
      PrimePairsTail(pd);
      ProductPositive(pd[1..]);
    }
  }

  lemma {:induction false} ProductAppend(pd: Pairs, p: nat, e: nat)
    ensures Product(pd + [(p, e)]) == Product(pd) * Pow(p, e)
    decreases |pd|
  {
    if pd == [] {
      assert pd + [(p, e)] == [(p, e)] && [(p, e)][1..] == [];
    } else {
      ProductAppend(pd[1..], p, e);
      assert (pd + [(p, e)])[1..] == pd[1..] + [(p, e)];
      Associate(Pow(pd[0].0, pd[0].1), Product(pd[1..]), Pow(p, e));
    }
  }

  lemma Associate(a: int, b: int, c: int)
    ensures a * (b * c) == (a * b) * c && b * c == c * b
  {
  }

  lemma {:induction false} PowAdd(p: nat, a: nat, b: nat)
    ensures Pow(p, a + b) == Pow(p, a) * Pow(p, b)
    decreases a
  {
    if a > 0 {
      PowAdd(p, a - 1, b);
      Associate(p, Pow(p, a - 1), Pow(p, b));
    }
  }

  /** A prime divides a power only of itself. */
  lemma {:induction false} PrimeDividesPow(q: nat, p: nat, e: nat)
    requires IsPrime(q) && IsPrime(p) && Divides(q, Pow(p, e))
    ensures q == p && e > 0
    decreases e
  {
    if e == 0 {
      DividesAtMost(q, 1);
      assert false;
    } else {
      EuclidsLemma(q, p, Pow(p, e - 1));
      if Divides(q, p) {
        PrimeDivisor(p, q);
      } else {
        PrimeDividesPow(q, p, e - 1);
      }
    }
  }

  /** A prime divides a product of prime powers only if it is one of the primes. */
  lemma {:induction false} PrimeDividesProduct(q: nat, pd: Pairs)
    requires IsPrime(q) && PrimePairs(pd) && Divides(q, Product(pd))
    ensures exists i :: 0 <= i < |pd| && pd[i].0 == q
    decreases |pd|
  {
    if pd == [] {
      DividesAtMost(q, 1);
      assert false;
    } else {
      PrimePairsTail(pd);
      EuclidsLemma(q, Pow(pd[0].0, pd[0].1), Product(pd[1..]));
      if Divides(q, Product(pd[1..])) {
        PrimeDividesProduct(q, pd[1..]);
        var i :| 0 <= i < |pd[1..]| && pd[1..][i].0 == q;
        assert pd[i + 1].0 == q;
      } else {
        PrimeDividesPow(q, pd[0].0, pd[0].1);
      }
    }
  }

  /** The first prime does not divide the product of the others. */
  lemma FirstIsGone(pd: Pairs)
    requires PrimePairs(pd) && pd != []
    ensures !Divides(pd[0].0, Product(pd[1..]))
  {
    PrimePairsTail(pd);
    if Divides(pd[0].0, Product(pd[1..])) {
      PrimeDividesProduct(pd[0].0, pd[1..]);
    }
  }

  lemma {:induction false} DividesPow(p: nat, e: nat)
    requires p > 0 && e > 0
    ensures Divides(p, Pow(p, e))
  {
    Multiple(p, Pow(p, e - 1));
  }

  // ---- uniqueness

  /** p^a * m == p^b * n with p dividing neither m nor n: the exponents and the rests agree. */
  lemma {:induction false} ExponentUnique(p: nat, a: nat, m: nat, b: nat, n: nat)
    requires IsPrime(p) && !Divides(p, m) && !Divides(p, n) && Pow(p, a) * m == Pow(p, b) * n
    ensures a == b && m == n
    decreases a
  {
    if a > 0 && b > 0 {
      Associate(p, Pow(p, a - 1), m);
      Associate(p, Pow(p, b - 1), n);
      CancelFactor(p, Pow(p, a - 1) * m, Pow(p, b - 1) * n);
      ExponentUnique(p, a - 1, m, b - 1, n);
    } else if a > 0 {
      assert Pow(p, b) * n == n;
      DividesPow(p, a);
      DividesProduct(p, Pow(p, a), m);
    } else if b > 0 {
      assert Pow(p, a) * m == m;
      DividesPow(p, b);
      DividesProduct(p, Pow(p, b), n);
    }
  }

  lemma CancelFactor(p: nat, x: int, y: int)
    requires p > 0 && p * x == p * y
    ensures x == y
  {
    Multiple(p, x);
    Multiple(p, y);
  }

  /** The smallest prime of a factorisation is the smallest prime divisor. */
  lemma FirstAtMost(pd: Pairs, qd: Pairs)
    requires PrimePairs(pd) && PrimePairs(qd) && pd != [] && Product(pd) == Product(qd)
    ensures qd != [] && qd[0].0 <= pd[0].0
  {
    var p := pd[0].0;
    DividesPow(p, pd[0].1);
    DividesProduct(p, Pow(p, pd[0].1), Product(pd[1..]));
    PrimeDividesProduct(p, qd);
  }

  /** The factorisation into ascending prime powers is unique. */
  lemma {:induction false} FactorisationUnique(pd: Pairs, qd: Pairs)
    requires PrimePairs(pd) && PrimePairs(qd) && Product(pd) == Product(qd)
    ensures pd == qd
    decreases |pd|
  {
    if pd == [] {
      if qd != [] {
        FirstAtMost(qd, pd);
        assert false;
      }
    } else {
      FirstAtMost(pd, qd);
      FirstAtMost(qd, pd);
      FirstIsGone(pd);
      FirstIsGone(qd);
      ExponentUnique(pd[0].0, pd[0].1, Product(pd[1..]), qd[0].1, Product(qd[1..]));
      PrimePairsTail(pd);
      PrimePairsTail(qd);
      FactorisationUnique(pd[1..], qd[1..]);
      assert pd == [pd[0]] + pd[1..] && qd == [qd[0]] + qd[1..];
    }
  }

  // ---- the greatest common divisor of two factorisations

  /** Array#assoc: the exponent of p, or 0 if p does not occur. */
  function Assoc(pd: Pairs, p: nat): nat {
    if pd == [] then 0 else if pd[0].0 == p then pd[0].1 else Assoc(pd[1..], p)
  }

  /** What gcd2 multiplies up. */
  function CommonPart(pa: Pairs, pb: Pairs): nat {
    if pa == [] then 1
    else Times(Pow(pa[0].0, Min(pa[0].1, Assoc(pb, pa[0].0))), CommonPart(pa[1..], pb))
  }

  /** The part of a product that a prime does not divide. */
  function Without(pd: Pairs, p: nat): nat {
    if pd == [] then 1
    else if pd[0].0 == p then Product(pd[1..])
    else Times(Pow(pd[0].0, pd[0].1), Without(pd[1..], p))
  }

  lemma {:induction false} SplitPrime(pd: Pairs, p: nat)
    requires IsPrime(p) && PrimePairs(pd)
    ensures Product(pd) == Pow(p, Assoc(pd, p)) * Without(pd, p) && Without(pd, p) > 0
    ensures !Divides(p, Without(pd, p))
    decreases |pd|
  {
    if pd == [] {
      if Divides(p, 1) { DividesAtMost(p, 1); }
    } else {
      PrimePairsTail(pd);
      ProductPositive(pd[1..]);
      if pd[0].0 == p {
        FirstIsGone(pd);
      } else {
        SplitPrime(pd[1..], p);
        var c, d, w := Pow(pd[0].0, pd[0].1), Pow(p, Assoc(pd[1..], p)), Without(pd[1..], p);
        Associate(c, d, w);
        Associate(d, c, w);
        if Divides(p, c * w) {
          EuclidsLemma(p, c, w);
          PrimeDividesPow(p, pd[0].0, pd[0].1);
          assert false;
        }
      }
    }
  }

  /** Powers of a prime that are a factor on one side only do not matter. */
  lemma {:induction false} GcdDropsPow(p: nat, e: nat, m: nat, n: nat)
    requires IsPrime(p) && m > 0 && n > 0 && !Divides(p, n)
    ensures Gcd(Pow(p, e) * m, n) == Gcd(m, n)
    decreases e
  {
    if e > 0 {
      GcdDropsPow(p, e - 1, m, n);
      Associate(p, Pow(p, e - 1), m);
      assert Pow(p, e - 1) * m > 0;
      GcdDropsPrime(p, Pow(p, e - 1) * m, n);
    }
  }

  /** Splitting off a prime from both sides. */
  lemma GcdSplit(p: nat, x: nat, m: nat, y: nat, n: nat)
    requires IsPrime(p) && m > 0 && n > 0 && !Divides(p, m) && !Divides(p, n)
    ensures Gcd(Pow(p, x) * m, Pow(p, y) * n) == Pow(p, Min(x, y)) * Gcd(m, Pow(p, y) * n)
  {
    var e := Min(x, y);
    var c := Pow(p, e);
    PowAdd(p, e, x - e);
    PowAdd(p, e, y - e);
    Associate(c, Pow(p, x - e), m);
    Associate(c, Pow(p, y - e), n);
    GcdScale(c, Pow(p, x - e) * m, Pow(p, y - e) * n);
    GcdOneSided(p, x - e, m, y - e, n);
    GcdOneSided(p, 0, m, y, n);
  }

  lemma GcdOneSided(p: nat, x: nat, m: nat, y: nat, n: nat)
    requires IsPrime(p) && m > 0 && n > 0 && !Divides(p, m) && !Divides(p, n) && (x == 0 || y == 0)
    ensures Gcd(Pow(p, x) * m, Pow(p, y) * n) == Gcd(m, n)
  {
    if y == 0 {
      assert Pow(p, 0) * n == n;
      GcdDropsPow(p, x, m, n);
    } else {
      assert Pow(p, 0) * m == m && Pow(p, y) * n > 0;
      GcdCommutes(m, Pow(p, y) * n);
      GcdDropsPow(p, y, n, m);
      GcdCommutes(n, m);
    }
  }

  /** The common part of two factorisations is the greatest common divisor Euclid's algorithm finds. */
  lemma {:induction false} CommonPartIsGcd(pa: Pairs, pb: Pairs)
    requires PrimePairs(pa) && PrimePairs(pb)
    ensures CommonPart(pa, pb) == Gcd(Product(pa), Product(pb))
    decreases |pa|
  {
    ProductPositive(pb);
    if pa == [] {
      GcdIsGreatest(1, Product(pb));
      DividesAtMost(Gcd(1, Product(pb)), 1);
    } else {
      var p, x, m := pa[0].0, pa[0].1, Product(pa[1..]);
      PrimePairsTail(pa);
      ProductPositive(pa[1..]);
      FirstIsGone(pa);
      SplitPrime(pb, p);
      GcdSplit(p, x, m, Assoc(pb, p), Without(pb, p));
      CommonPartIsGcd(pa[1..], pb);
    }
  }
}

/**
 Divisibility, Euclid's algorithm and primes.
 */
module NumberTheory {
  predicate Divides(d: nat, n: int) {
    d > 0 && n % d == 0
  }

  lemma Multiple(d: nat, k: int)
    requires d > 0
    ensures Divides(d, d * k) && (d * k) / d == k
  {
    Remainder(d * k, d, k, 0);
  }

  lemma Witness(d: nat, n: int)
    requires Divides(d, n)
    ensures n == d * (n / d)
  {
  }

  lemma DividesSum(d: nat, a: int, b: int)
    requires Divides(d, a) && Divides(d, b)
    ensures Divides(d, a + b) && Divides(d, a - b)
  {
    Multiple(d, a / d + b / d);
    Multiple(d, a / d - b / d);
    assert d * (a / d + b / d) == a + b;
    assert d * (a / d - b / d) == a - b;
  }

  lemma DividesProduct(d: nat, a: int, k: int)
    requires Divides(d, a)
    ensures Divides(d, a * k) && Divides(d, k * a)
  {
    Multiple(d, a / d * k);
    calc {
      d * (a / d * k);
      d * (a / d) * k;
      a * k;
    }
    assert k * a == a * k;
  }

  lemma DividesTransitive(d: nat, e: nat, n: int)
    requires Divides(d, e) && Divides(e, n)
    ensures Divides(d, n)
  {
    DividesProduct(d, e, n / e);
  }

  lemma DividesAtMost(d: nat, n: nat)
    requires Divides(d, n) && n > 0
    ensures 0 < d <= n
  {
    Witness(d, n);
  }

  lemma Antisymmetric(d: nat, e: nat)
    requires Divides(d, e) && Divides(e, d)
    ensures d == e
  {
    DividesAtMost(d, e);
    DividesAtMost(e, d);
  }

  // ---- Euclid's algorithm

  function Abs(x: int): nat {
    if x < 0 then -x else x
  }

  /** The value Integer#gcd's loop leaves for its pair of variables. */
  function Gcd(min: nat, max: nat): nat
    decreases min
  {
    if min == 0 then max else Gcd(max % min, min)
  }

  /** The result divides both arguments, and every common divisor divides it. */
  lemma {:induction false} GcdIsGreatest(a: nat, b: nat)
    requires a > 0 || b > 0
    ensures Divides(Gcd(a, b), a) && Divides(Gcd(a, b), b)
    ensures forall d: nat :: Divides(d, a) && Divides(d, b) ==> Divides(d, Gcd(a, b))
    decreases a
  {
    if a == 0 {
      Multiple(b, 1);
      Multiple(b, 0);
    } else {
      var r, g := b % a, Gcd(b % a, a);
      GcdIsGreatest(r, a);
      DividesProduct(g, a, b / a);
      DividesSum(g, a * (b / a), r);
      forall d: nat | Divides(d, a) && Divides(d, b)
        ensures Divides(d, g)
      {
        DividesProduct(d, a, b / a);
        DividesSum(d, b, a * (b / a));
        assert b - a * (b / a) == r;
      }
    }
  }

  /** Numbers with the properties of the greatest common divisor are equal to it. */
  lemma GcdUnique(a: nat, b: nat, g: nat)
    requires a > 0 || b > 0
    requires Divides(g, a) && Divides(g, b)
    requires forall d: nat :: Divides(d, a) && Divides(d, b) ==> Divides(d, g)
    ensures g == Gcd(a, b)
  {
    GcdIsGreatest(a, b);
    Antisymmetric(g, Gcd(a, b));
  }

  lemma GcdCommutes(a: nat, b: nat)
    requires a > 0 || b > 0
    ensures Gcd(a, b) == Gcd(b, a)
  {
    GcdIsGreatest(b, a);
    GcdUnique(a, b, Gcd(b, a));
  }

  lemma ModScale(c: nat, b: nat, a: nat)
    requires a > 0 && c > 0
    ensures c * a > 0 && (c * b) % (c * a) == c * (b % a)
  {
    assert c * a > 0;
    var q, r := b / a, b % a;
    assert c * b == (c * a) * q + c * r by {
      assert b == a * q + r;
      assert c * (a * q) == (c * a) * q;
    }
    assert c * r < c * a;
    Remainder(c * b, c * a, q, c * r);
  }

  lemma Remainder(n: int, d: int, q: int, r: int)
    requires d > 0 && n == d * q + r && 0 <= r < d
    ensures n % d == r && n / d == q
  {
    var e := q - n / d;
    assert d * e == n % d - r;
    assert e >= 1 ==> d * e >= d;
    assert e <= -1 ==> d * e <= -d;
  }

  lemma {:induction false} GcdScale(c: nat, a: nat, b: nat)
    requires c > 0
    ensures Gcd(c * a, c * b) == c * Gcd(a, b)
    decreases a
  {
    if a > 0 {
      ModScale(c, b, a);
      GcdScale(c, b % a, a);
    }
  }

  // ---- primes

  predicate IsPrime(n: nat) {
    n >= 2 && forall d: nat :: 2 <= d < n ==> !Divides(d, n)
  }

  lemma PrimeDivisor(p: nat, d: nat)
    requires IsPrime(p) && Divides(d, p)
    ensures d == 1 || d == p
  {
    DividesAtMost(d, p);
  }

  lemma PrimeGcd(p: nat, a: nat)
    requires IsPrime(p) && !Divides(p, a)
    ensures Gcd(p, a) == 1
  {
    GcdIsGreatest(p, a);
    PrimeDivisor(p, Gcd(p, a));
  }

  /** Euclid's lemma. */
  lemma EuclidsLemma(p: nat, a: nat, b: nat)
    requires IsPrime(p) && Divides(p, a * b)
    ensures Divides(p, a) || Divides(p, b)
  {
    if !Divides(p, a) {
      if b == 0 {
        Multiple(p, 0);
      } else {
        PrimeGcd(p, a);
        GcdScale(b, p, a);
        GcdIsGreatest(b * p, b * a);
        Multiple(p, b);
        assert Divides(p, b * p) && Divides(p, b * a) by { assert b * p == p * b && b * a == a * b; }
        assert Divides(p, Gcd(b * p, b * a));
      }
    }
  }

  /** A prime factor on one side only does not matter. */
  lemma GcdDropsPrime(p: nat, m: nat, n: nat)
    requires IsPrime(p) && n > 0 && m > 0 && !Divides(p, n)
    ensures p * m > 0 && Gcd(p * m, n) == Gcd(m, n)
  {
    assert p * m > 0;
    var g := Gcd(p * m, n);
    GcdIsGreatest(p * m, n);
    PrimeGcd(p, n);
    GcdScale(m, p, n);
    GcdIsGreatest(m * p, m * n);
    assert m * p == p * m;
    DividesProduct(g, n, m);
    assert Divides(g, m);
    forall d: nat | Divides(d, m) && Divides(d, n)
      ensures Divides(d, g)
    {
      DividesProduct(d, m, p);
    }
    GcdUnique(m, n, g);
  }

  /** The least divisor greater than one; it is prime. */
  function LeastDivisor(n: nat, from: nat): (d: nat)
    requires 2 <= from <= n && forall e: nat :: 2 <= e < from ==> !Divides(e, n)
    ensures from <= d <= n && Divides(d, n) && forall e: nat :: 2 <= e < d ==> !Divides(e, n)
    decreases n - from
  {
    if Divides(from, n) then from
    else
      assert from != n by { Multiple(n, 1); }
      LeastDivisor(n, from + 1)
  }

  lemma HasPrimeDivisor(n: nat) returns (p: nat)
    requires n >= 2
    ensures IsPrime(p) && Divides(p, n) && p <= n
  {
    p := LeastDivisor(n, 2);
    forall d: nat | 2 <= d < p
      ensures !Divides(d, p)
    {
      if Divides(d, p) { DividesTransitive(d, p, n); }
    }
  }

  // ---- there is always a larger prime

  function Factorial(n: nat): (f: nat)
    ensures f > 0
  {
    if n == 0 then 1 else FactorialStep(n, Factorial(n - 1))
  }

  function FactorialStep(n: nat, f: nat): (r: nat)
    requires n > 0 && f > 0
    ensures r > 0
  {
    assert n * f > 0;
    n * f
  }

  lemma {:induction false} DividesFactorial(d: nat, n: nat)
    requires 0 < d <= n
    ensures Divides(d, Factorial(n))
    decreases n
  {
    if d == n {
      Multiple(n, Factorial(n - 1));
    } else {
      DividesFactorial(d, n - 1);
      DividesProduct(d, Factorial(n - 1), n);
    }
  }

  /** A prime divisor of n! + 1 is larger than n. */
  lemma LargerPrime(n: nat) returns (p: nat)
    ensures IsPrime(p) && p > n
  {
    var m := Factorial(n) + 1;
    p := HasPrimeDivisor(m);
    if p <= n {
      DividesFactorial(p, n);
      DividesSum(p, m, Factorial(n));
      assert false;
    }
  }
}

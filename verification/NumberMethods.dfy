/**
 The loops of Integer#gcd, Rational.reduce, prime_division, from_prime_division and gcd2.
 */
module NumberMethods {
  import opened Common
  import opened NumberTheory
  import opened NumberFactors
  import opened NumberSieve

  datatype Error = ZeroDivisionError

  type Outcome<+T> = Common.Outcome<T, Error>

  /** Integer#gcd */
  method EuclidGcd(self: int, other: int) returns (g: nat)
    ensures g == Gcd(Abs(self), Abs(other))
  {
    var min, max := Abs(self), Abs(other);
    while min > 0
      invariant Gcd(min, max) == Gcd(Abs(self), Abs(other))
      decreases min
    {
      min, max := max % min, min;
    }
    return max;
  }

  /** Rational.reduce: the same fraction in lowest terms over a positive denominator. */
  method Reduce(num: int, den: int) returns (r: Outcome<(int, int)>)
    ensures den == 0 <==> r == Raise(ZeroDivisionError)
    ensures r.Return? ==> var (n, d) := r.value; d > 0 && n * den == num * d && Gcd(Abs(n), d) == 1
  {
    if den == 0 { return Raise(ZeroDivisionError); }
    var n, d := num, den;
    if den < 0 {
      n, d := -num, -den;
    }
    var g := EuclidGcd(n, d);
    LowestTerms(n, d, g);
    SignedFraction(num, den, n, d, g);
    return Return((n / g, d / g));
  }

  lemma DividesAbs(g: nat, n: int)
    requires Divides(g, Abs(n))
    ensures Divides(g, n) && Abs(n / g) == Abs(n) / g
  {
    if n < 0 {
      Multiple(g, -(-n / g));
      assert g * -(-n / g) == n;
    }
  }

  lemma LowestTerms(n: int, d: nat, g: nat)
    requires d > 0 && g == Gcd(Abs(n), d)
    ensures g > 0 && Divides(g, n) && Divides(g, d) && d / g > 0 && Gcd(Abs(n / g), d / g) == 1
  {
    GcdIsGreatest(Abs(n), d);
    DividesAbs(g, n);
    Witness(g, d);
    Witness(g, Abs(n));
    GcdScale(g, Abs(n) / g, d / g);
    CancelFactor(g, Gcd(Abs(n) / g, d / g), 1);
  }

  lemma SameFraction(n: int, d: int, g: nat)
    requires Divides(g, n) && Divides(g, d)
    ensures n / g * d == n * (d / g)
  {
    Witness(g, n);
    Witness(g, d);
    calc {
      n / g * d;
      n / g * (g * (d / g));
      { Associate(n / g, g, d / g); }
      n / g * g * (d / g);
      n * (d / g);
    }
  }

  lemma SignedFraction(num: int, den: int, n: int, d: int, g: nat)
    requires (n == num && d == den) || (n == -num && d == -den)
    requires Divides(g, n) && Divides(g, d)
    ensures n / g * den == num * (d / g)
  {
    SameFraction(n, d, g);
    var x, y := n / g, d / g;
    assert x * -d == -(x * d) && -n * y == -(n * y);
  }

  /** Integer.from_prime_division */
  method FromPrimeDivision(pd: Pairs) returns (value: nat)
    ensures value == Product(pd)
  {
    value := 1;
    for i := 0 to |pd|
      invariant value * Product(pd[i..]) == Product(pd)
    {
      var (prime, index) := pd[i];
      assert pd[i..][1..] == pd[i + 1..];
      Associate(value, Pow(prime, index), Product(pd[i + 1..]));
      value := value * Pow(prime, index);
    }
  }

  /** No prime up to p divides value. */
  ghost predicate Rough(value: int, p: nat) {
    forall q: nat {:trigger Divides(q, value)} :: IsPrime(q) && q <= p ==> !Divides(q, value)
  }

  lemma SquareBelow(p: nat, q: nat, r: nat)
    requires q > p && r > p
    ensures q * r > p * p
  {
    assert q * r >= (p + 1) * r && (p + 1) * r >= (p + 1) * (p + 1);
  }

  /** A divisor of a rough number, other than one, is larger than the bound. */
  lemma RoughDivisor(value: nat, p: nat, d: nat)
    requires Rough(value, p) && Divides(d, value) && d >= 2
    ensures d > p
  {
    var q := HasPrimeDivisor(d);
    DividesTransitive(q, d, value);
  }

  /** A rough number below the square of the bound is prime. */
  lemma RoughIsPrime(value: nat, p: nat)
    requires value > 1 && Rough(value, p) && p * p >= value
    ensures IsPrime(value) && value > p
  {
    Multiple(value, 1);
    RoughDivisor(value, p, value);
    forall d: nat | 2 <= d < value
      ensures !Divides(d, value)
    {
      if Divides(d, value) {
        Cofactor(d, value);
        RoughDivisor(value, p, d);
        RoughDivisor(value, p, value / d);
        SquareBelow(p, d, value / d);
      }
    }
  }

  lemma Cofactor(d: nat, value: nat)
    requires 2 <= d < value && Divides(d, value)
    ensures value == d * (value / d) && value / d >= 2 && Divides(value / d, value)
  {
    Witness(d, value);
    var e := value / d;
    assert e <= 0 ==> d * e <= 0;
    assert e == 1 ==> d * e == d;
    Multiple(e, d);
    assert e * d == d * e;
  }

  /** Dividing out the next prime. */
  lemma RoughNext(value: nat, value': nat, c: nat, k: nat)
    requires value == c * value' && value' > 0 && Rough(value, if k == 0 then 1 else KthPrime(k - 1)) &&
      !Divides(KthPrime(k), value')
    ensures Rough(value', KthPrime(k))
  {
    KthPrimeFollows(k);
    forall q: nat | IsPrime(q) && q <= KthPrime(k)
      ensures !Divides(q, value')
    {
      if Divides(q, value') {
        DividesProduct(q, value', c);
      }
    }
  }

  /** The inner loop of prime_division for one prime. */
  method DivideOut(value: int, prime: nat) returns (value': int, count: nat)
    requires value != 0 && prime >= 2
    ensures Pow(prime, count) * value' == value && !Divides(prime, value')
    ensures value' != 0 && (value > 0 ==> 0 < value' <= value) && (value < 0 ==> value' < 0)
  {
    value', count := value, 0;
    while value' % prime == 0
      invariant Pow(prime, count) * value' == value
      invariant value' != 0 && (value > 0 ==> 0 < value' <= value) && (value < 0 ==> value' < 0)
      decreases Abs(value')
    {
      ghost var before := value';
      value' := value' / prime;
      Witness(prime, before);
      Shrinks(before, prime, value');
      Associate(Pow(prime, count), prime, value');
      assert Pow(prime, count + 1) == prime * Pow(prime, count);
      count := count + 1;
    }
  }

  lemma Shrinks(n: int, p: nat, m: int)
    requires p >= 2 && n == p * m && n != 0
    ensures m != 0 && Abs(m) < Abs(n) && (n > 0 ==> 0 < m) && (n < 0 ==> m < 0)
  {
    if m > 0 { assert p * m >= 2 * m; }
    if m < 0 { assert p * m <= 2 * m; }
  }

  /** pv factors self / value with primes up to p, and value has none of those left. */
  ghost predicate Split(pv: Pairs, value: nat, p: nat, self: nat) {
    && PrimePairs(pv) && (forall i :: 0 <= i < |pv| ==> pv[i].0 <= p)
    && Product(pv) * value == self && Rough(value, p)
  }

  lemma SplitNext(pv: Pairs, value: nat, k: nat, self: nat, value': nat, count: nat)
    requires Split(pv, value, if k == 0 then 1 else KthPrime(k - 1), self) && value' > 0
    requires Pow(KthPrime(k), count) * value' == value && !Divides(KthPrime(k), value')
    ensures Split(if count != 0 then pv + [(KthPrime(k), count)] else pv, value', KthPrime(k), self)
  {
    var p := KthPrime(k);
    KthPrimeFollows(k);
    RoughNext(value, value', Pow(p, count), k);
    if count == 0 {
      assert Pow(p, 0) * value' == value';
    } else {
      ProductAppend(pv, p, count);
      Associate(Product(pv), Pow(p, count), value');
    }
  }

  lemma SplitLast(pv: Pairs, value: nat, p: nat, self: nat)
    requires Split(pv, value, p, self) && IsPrime(value) && value > p
    ensures Factorisation(pv + [(value, 1)], self)
  {
    ProductAppend(pv, value, 1);
    assert Pow(value, 1) == value by { assert Pow(value, 0) == 1; }
  }

  /** What comes out for a negative number: its power of two, and nothing else. */
  ghost predicate OnlyTwo(pd: Pairs, self: int) {
    && (pd == [] || (|pd| == 1 && pd[0].0 == 2 && pd[0].1 > 0))
    && Divides(Product(pd), self) && !Divides(2, self / Product(pd))
  }

  lemma NegativeDivision(self: int, odd: int, count: nat, pd: Pairs)
    requires Pow(2, count) * odd == self && !Divides(2, odd) && pd == if count != 0 then [(2, count)] else []
    ensures OnlyTwo(pd, self)
  {
    if count != 0 { assert pd[1..] == []; }
    assert Product(pd) == Pow(2, count);
    Multiple(Pow(2, count), odd);
  }

  /** Where prime_division stands behind k primes. */
  ghost predicate Divided(pv: Pairs, value: int, k: nat, self: int) {
    var p := if k == 0 then 1 else KthPrime(k - 1);
    if self > 0 then 0 < value <= self && Split(pv, value, p, self)
    else if k == 0 then pv == [] && value == self
    else value < 0 && OnlyTwo(pv, self)
  }

  lemma DividedFirst(self: int)
    requires self != 0
    ensures Divided([], self, 0, self)
  {
  }

  lemma DividedNext(pv: Pairs, value: int, k: nat, self: int, value': int, count: nat)
    requires self != 0 && Divided(pv, value, k, self) && (self < 0 ==> k == 0)
    requires Pow(KthPrime(k), count) * value' == value && !Divides(KthPrime(k), value')
    requires (value > 0 ==> 0 < value' <= value) && (value < 0 ==> value' < 0)
    ensures Divided(if count != 0 then pv + [(KthPrime(k), count)] else pv, value', k + 1, self)
  {
    if self > 0 {
      SplitNext(pv, value, k, self, value', count);
    } else {
      FirstPrime();
      NegativeDivision(self, value', count, if count != 0 then [(2, count)] else []);
      assert [] + [(2, count)] == [(2, count)];
    }
  }

  lemma FirstPrime()
    ensures KthPrime(0) == 2
  {
    KthPrimeFollows(0);
    assert IsPrime(2);
  }

  lemma LastPrime(pv: Pairs, value: int, k: nat, self: int)
    requires k > 0 && value > 1 && Divided(pv, value, k, self) && self != 0 &&
      KthPrime(k - 1) * KthPrime(k - 1) >= value
    ensures self > 0 && Factorisation(pv + [(value, 1)], self)
  {
    RoughIsPrime(value, KthPrime(k - 1));
    SplitLast(pv, value, KthPrime(k - 1), self);
  }

  /** One turn of prime_division: the next prime is divided out and noted. */
  method NextFactor(ps: Prime, value: int, pv: Pairs, ghost self: int) returns (prime: nat, value': int, pv': Pairs)
    requires ps.Valid() && Divided(pv, value, |ps.primes|, self) && value != 0 && self != 0
    requires self < 0 ==> |ps.primes| == 0
    modifies ps
    ensures ps.Valid() && |ps.primes| == old(|ps.primes|) + 1 && prime == KthPrime(|ps.primes| - 1)
    ensures |ps.primes| > 1 ==> prime > KthPrime(|ps.primes| - 2)
    ensures prime >= 2 && value' != 0 && (self < 0 ==> value' < 0) && (self > 0 ==> value' <= self)
    ensures Divided(pv', value', |ps.primes|, self)
  {
    ghost var k := |ps.primes|;
    prime := ps.Succ();
    KthPrimeFollows(k);
    var count;
    value', count := DivideOut(value, prime);
    DividedNext(pv, value, k, self, value', count);
    pv' := if count != 0 then pv + [(prime, count)] else pv;
  }

  /** What is left of the number behind the loop is one more prime, or nothing. */
  method WithLast(pv: Pairs, value: int, ghost k: nat, ghost self: int) returns (r: Pairs)
    requires k > 0 && value != 0 && self != 0 && Divided(pv, value, k, self)
    requires KthPrime(k - 1) * KthPrime(k - 1) >= value
    ensures if self > 0 then Factorisation(r, self) else OnlyTwo(r, self)
  {
    r := pv;
    if value > 1 {
      LastPrime(pv, value, k, self);
      r := pv + [(value, 1)];
    } else {
      NothingLeft(pv, value, k, self);
    }
  }

  /** Where the loop of prime_division stands: the last prime tried, 1 before the first. */
  ghost predicate Trying(prime: nat, value: int, pv: Pairs, k: nat, self: int) {
    && Divided(pv, value, k, self) && value != 0
    && prime == (if k == 0 then 1 else KthPrime(k - 1))
    && 1 <= prime <= Abs(self) && (k == 0 || self > 0)
  }

  lemma TryingFirst(self: int)
    requires self != 0
    ensures Trying(1, self, [], 0, self)
  {
    DividedFirst(self);
  }

  lemma TryingNext(prime: nat, value: int, pv: Pairs, k: nat, self: int)
    requires k > 0 && self != 0 && Divided(pv, value, k, self) && value != 0 && (self < 0 ==> value < 0)
    requires prime == KthPrime(k - 1) && prime >= 2 && prime * prime < value && (self > 0 ==> value <= self)
    ensures Trying(prime, value, pv, k, self)
  {
    Grows(prime, value, self);
  }

  /** prime_division of a positive number: ascending primes with positive exponents whose product
      is the number. A negative number is only divided by two. */
  method PrimeDivision(self: int) returns (r: Outcome<Pairs>)
    ensures self == 0 <==> r == Raise(ZeroDivisionError)
    ensures self > 0 ==> r.Return? && Factorisation(r.value, self)
    ensures self < 0 ==> r.Return? && OnlyTwo(r.value, self)
  {
    if self == 0 { return Raise(ZeroDivisionError); }
    var ps := new Prime();
    var value, pv: Pairs := self, [];
    var prime := 1;
    TryingFirst(self);
    while true
      invariant ps.Valid() && fresh(ps) && Trying(prime, value, pv, |ps.primes|, self)
      decreases Abs(self) - prime
    {
      prime, value, pv := NextFactor(ps, value, pv, self);
      if prime * prime >= value { break; }
      TryingNext(prime, value, pv, |ps.primes|, self);
    }
    pv := WithLast(pv, value, |ps.primes|, self);
    return Return(pv);
  }

  lemma Grows(prime: nat, value: int, self: int)
    requires prime >= 2 && prime * prime < value
    ensures prime < value
  {
  }

  lemma NothingLeft(pv: Pairs, value: int, k: nat, self: int)
    requires k > 0 && value <= 1 && value != 0 && Divided(pv, value, k, self) && self != 0
    ensures self > 0 ==> Factorisation(pv, self)
    ensures self < 0 ==> OnlyTwo(pv, self)
  {
  }

  /** Array#assoc on the pairs; None is nil. */
  method Lookup(pd: Pairs, p: nat) returns (found: bool, index: nat)
    ensures index == Assoc(pd, p) && (!found ==> index == 0)
  {
    for i := 0 to |pd|
      invariant Assoc(pd, p) == Assoc(pd[i..], p)
    {
      if pd[i].0 == p { return true, pd[i].1; }
      assert pd[i..][1..] == pd[i + 1..];
    }
    return false, 0;
  }

  /** The loop of gcd2 over the prime powers of one number. */
  method MultiplyCommon(pdA: Pairs, pdB: Pairs) returns (gcd: nat)
    ensures gcd == CommonPart(pdA, pdB)
  {
    gcd := 1;
    for i := 0 to |pdA|
      invariant gcd * CommonPart(pdA[i..], pdB) == CommonPart(pdA, pdB)
    {
      var pair := pdA[i];
      var found, index := Lookup(pdB, pair.0);
      assert pdA[i..][1..] == pdA[i + 1..];
      Associate(gcd, Pow(pair.0, Min(pair.1, index)), CommonPart(pdA[i + 1..], pdB));
      if found {
        gcd := gcd * Pow(pair.0, Min(index, pair.1));
      }
    }
  }

  /** gcd2: the greatest common divisor Euclid's algorithm finds; zero has no prime division. */
  method Gcd2(self: int, other: int) returns (r: Outcome<nat>)
    ensures self == 0 || other == 0 ==> r == Raise(ZeroDivisionError)
    ensures self != 0 && other != 0 ==> r == Return(Gcd(Abs(self), Abs(other)))
  {
    var a, b := Abs(self), Abs(other);
    if a < b { a, b := b, a; }
    var pdA :- PrimeDivision(a);
    var pdB :- PrimeDivision(b);
    var gcd := MultiplyCommon(pdA, pdB);
    CommonPartIsGcd(pdA, pdB);
    GcdCommutes(a, b);
    return Return(gcd);
  }

  /** Multiplying prime powers and dividing the product again. */
  method DivisionRoundTrip(pd: Pairs) returns (r: Outcome<Pairs>)
    requires PrimePairs(pd)
    ensures r == Return(pd)
  {
    ProductPositive(pd);
    var value := FromPrimeDivision(pd);
    r := PrimeDivision(value);
    FactorisationUnique(pd, r.value);
  }

  /** Dividing a number and multiplying its prime powers again. */
  method FactorRoundTrip(self: nat) returns (value: nat)
    requires self > 0
    ensures value == self
  {
    var r := PrimeDivision(self);
    value := FromPrimeDivision(r.value);
  }
}

/**
 Prime: the incremental sieve, whose k-th succ is the k-th prime.
 */
module NumberSieve {
  import opened NumberTheory

  /** p is the least prime behind n. */
  ghost predicate Follows(n: nat, p: nat) {
    p > n && IsPrime(p) && forall q :: n < q < p ==> !IsPrime(q)
  }

  lemma LeastPrime(n: nat, from: nat, bound: nat) returns (p: nat)
    requires n < from <= bound && IsPrime(bound) && forall q :: n < q < from ==> !IsPrime(q)
    ensures Follows(n, p)
    decreases bound - from
  {
    if IsPrime(from) {
      p := from;
    } else {
      p := LeastPrime(n, from + 1, bound);
    }
  }

  lemma PrimeFollows(n: nat)
    ensures exists p :: Follows(n, p)
  {
    var bound := LargerPrime(n);
    var p := LeastPrime(n, n + 1, bound);
  }

  ghost function NextPrime(n: nat): nat {
    PrimeFollows(n);
    var p :| Follows(n, p);
    p
  }

  /** The primes in order, counted from 0. */
  ghost function KthPrime(k: nat): nat {
    if k == 0 then NextPrime(1) else NextPrime(KthPrime(k - 1))
  }

  lemma KthPrimeFollows(k: nat)
    ensures Follows(if k == 0 then 1 else KthPrime(k - 1), KthPrime(k))
  {
  }

  lemma {:induction false} KthPrimeAscends(i: nat, j: nat)
    requires i < j
    ensures KthPrime(i) < KthPrime(j)
    decreases j
  {
    KthPrimeFollows(j);
    if i < j - 1 { KthPrimeAscends(i, j - 1); }
  }

  /** No prime is left out. */
  lemma {:induction false} EveryPrimeCounted(p: nat, k: nat) returns (i: nat)
    requires IsPrime(p) && p <= KthPrime(k)
    ensures i <= k && KthPrime(i) == p
    decreases k
  {
    KthPrimeFollows(k);
    if p == KthPrime(k) {
      i := k;
    } else if k == 0 {
      assert false;
    } else {
      i := EveryPrimeCounted(p, k - 1);
    }
  }

  /** The count is a multiple of its prime, never past the least one at or above n. */
  ghost predicate Counted(p: nat, count: nat, n: nat) {
    Divides(p, count) && 0 < count && count - p < n
  }

  /** A number between two neighbouring multiples is not a multiple. */
  lemma BetweenMultiples(p: nat, count: nat, n: nat)
    requires Counted(p, count, n) && count > n
    ensures !Divides(p, n)
  {
    if Divides(p, n) {
      DividesSum(p, count, n);
      DividesAtMost(p, count - n);
      assert false;
    }
  }

  ghost predicate AllCounted(primes: seq<nat>, counts: seq<nat>, n: nat) {
    |primes| == |counts| && forall i :: 0 <= i < |primes| ==> Counted(primes[i], counts[i], n)
  }

  ghost predicate AllBehind(counts: seq<nat>, k: int, seed: nat) {
    k <= |counts| && forall i :: 0 <= i < k ==> counts[i] > seed
  }

  lemma AllCountedLater(primes: seq<nat>, counts: seq<nat>, n: nat)
    requires AllCounted(primes, counts, n)
    ensures AllCounted(primes, counts, n + 1)
  {
  }

  lemma AllCountedUpdate(primes: seq<nat>, counts: seq<nat>, counts': seq<nat>, i: nat, n: nat)
    requires AllCounted(primes, counts, n) && i < |primes| && |counts'| == |counts| &&
      counts' == counts[i := counts'[i]]
    requires Counted(primes[i], counts'[i], n)
    ensures AllCounted(primes, counts', n)
    ensures forall k, seed :: k <= i && AllBehind(counts, k, seed) ==> AllBehind(counts', k, seed)
  {
  }

  lemma AllCountedPush(primes: seq<nat>, counts: seq<nat>, p: nat, c: nat)
    requires AllCounted(primes, counts, p) && AllBehind(counts, |counts|, p) && Counted(p, c, p + 1) && c > p
    ensures AllCounted(primes + [p], counts + [c], p + 1) && AllBehind(counts + [c], |counts| + 1, p)
  {
    AllCountedLater(primes, counts, p);
  }

  lemma CountOn(p: nat, count: nat, n: nat)
    requires Counted(p, count, n) && count < n
    ensures Counted(p, count + p, n) && p > 0
  {
    Multiple(p, 1);
    DividesSum(p, count, p);
  }

  lemma FreshCount(p: nat, k: nat)
    requires p == KthPrime(k)
    ensures Counted(p, p + p, p + 1) && p > 0
  {
    KthPrimeFollows(k);
    Multiple(p, 2);
  }

  /** A multiple of a smaller prime is not the next prime. */
  lemma NotPrime(p: nat, count: nat, seed: nat, k: nat)
    requires Counted(p, count, seed) && count == seed && 2 <= p < seed
    ensures seed != KthPrime(k)
  {
    KthPrimeFollows(k);
  }

  /** A number that no prime up to `start` divides, with only composite numbers in between, is
      the next prime. */
  lemma SievedIsNext(primes: seq<nat>, counts: seq<nat>, start: nat, seed: nat, next: nat)
    requires |primes| == |counts| && forall i :: 0 <= i < |primes| ==> primes[i] == KthPrime(i)
    requires start == (if primes == [] then 1 else primes[|primes| - 1]) && next == KthPrime(|primes|) &&
      start < seed <= next
    requires AllCounted(primes, counts, seed) && AllBehind(counts, |counts|, seed)
    ensures seed == next
  {
    KthPrimeFollows(|primes|);
    if seed < next {
      assert seed >= 2;
      var p := HasPrimeDivisor(seed);
      assert !IsPrime(seed);
      assert p <= start;
      if primes == [] {
        assert false;
      } else {
        var i := EveryPrimeCounted(p, |primes| - 1);
        BetweenMultiples(primes[i], counts[i], seed);
        assert false;
      }
    }
  }

  /** The primes found are all primes up to the seed, in order; each count is the least multiple
      of its prime behind the seed. */
  ghost predicate Sieved(primes: seq<nat>, counts: seq<nat>, seed: nat) {
    && seed == (if primes == [] then 1 else primes[|primes| - 1])
    && (forall i :: 0 <= i < |primes| ==> primes[i] == KthPrime(i))
    && AllCounted(primes, counts, seed + 1) && AllBehind(counts, |counts|, seed)
  }

  lemma SeedIsLast(primes: seq<nat>, counts: seq<nat>, seed: nat)
    requires Sieved(primes, counts, seed)
    ensures seed < KthPrime(|primes|)
    ensures forall i :: 0 <= i < |primes| ==> 2 <= primes[i] <= seed
  {
    KthPrimeFollows(|primes|);
    forall i | 0 <= i < |primes|
      ensures 2 <= primes[i] <= seed
    {
      KthPrimeFollows(i);
      if i < |primes| - 1 { KthPrimeAscends(i, |primes| - 1); }
    }
  }

  /** The seed has become the next prime. */
  ghost predicate Found(primes: seq<nat>, counts: seq<nat>, seed: nat) {
    && seed == KthPrime(|primes|)
    && (forall i :: 0 <= i < |primes| ==> primes[i] == KthPrime(i))
    && AllCounted(primes, counts, seed) && AllBehind(counts, |counts|, seed)
  }

  lemma SievedPush(primes: seq<nat>, counts: seq<nat>, seed: nat)
    requires Found(primes, counts, seed)
    ensures Sieved(primes + [seed], counts + [seed + seed], seed)
  {
    FreshCount(seed, |primes|);
    AllCountedPush(primes, counts, seed, seed + seed);
  }

  class Prime {
    var seed: nat
    var primes: seq<nat>
    var counts: seq<nat>

    ghost predicate Valid()
      reads this
    {
      Sieved(primes, counts, seed)
    }

    constructor ()
      ensures Valid() && primes == []
    {
      seed := 1;
      primes := [];
      counts := [];
    }

    /** The inner loop of succ: the count of one prime catches up with the seed. */
    method CatchUp(i: nat)
      requires i < |primes| == |counts| && Counted(primes[i], counts[i], seed)
      modifies this`counts
      ensures |counts| == |old(counts)| && counts == old(counts)[i := counts[i]]
      ensures Counted(primes[i], counts[i], seed) && counts[i] >= seed
    {
      while seed > counts[i]
        invariant |counts| == |old(counts)| && counts == old(counts)[i := counts[i]]
        invariant Counted(primes[i], counts[i], seed)
        decreases seed - counts[i]
      {
        CountOn(primes[i], counts[i], seed);
        counts := counts[i := counts[i] + primes[i]];
      }
    }

    /** Whether the seed is a multiple of prime i, whose count is brought up to it. */
    method TryPrime(i: nat) returns (hit: bool)
      requires i < |primes| == |counts| && AllCounted(primes, counts, seed) && AllBehind(counts, i, seed)
      modifies this`counts
      ensures |counts| == |old(counts)| && AllCounted(primes, counts, seed)
      ensures hit == (counts[i] == seed) && (!hit ==> AllBehind(counts, i + 1, seed))
    {
      ghost var before := counts;
      CatchUp(i);
      AllCountedUpdate(primes, before, counts, i, seed);
      hit := seed == counts[i];
    }

    /** The search loop of succ: the seed moves on to the next prime. */
    method Search()
      requires Valid()
      modifies this`seed, this`counts
      ensures Found(primes, counts, seed)
    {
      ghost var start, next := seed, KthPrime(|primes|);
      SeedIsLast(primes, counts, seed);
      var i := -1;
      var size := |primes|;
      while i < size
        invariant |counts| == size && -1 <= i <= size
        invariant start <= seed <= next && (i == -1 ==> seed < next) && (i >= 0 ==> start < seed)
        invariant AllCounted(primes, counts, if i >= 0 then seed else seed + 1)
        invariant AllBehind(counts, i, seed)
        decreases next - seed, if i == -1 then 0 else size - i + 1
      {
        if i == -1 {
          seed := seed + 1;
          i := i + 1;
        } else {
          var hit := TryPrime(i);
          if !hit {
            i := i + 1;
          } else {
            NotPrime(primes[i], counts[i], seed, size);
            AllCountedLater(primes, counts, seed);
            i := -1;
          }
        }
      }
      SievedIsNext(primes, counts, start, seed, next);
    }

    /** succ: the k-th call returns the k-th prime. */
    method Succ() returns (p: nat)
      requires Valid()
      modifies this
      ensures Valid() && p == seed == KthPrime(|old(primes)|) && primes == old(primes) + [p]
    {
      Search();
      var primes', counts' := primes + [seed], counts + [seed + seed];
      assert Sieved(primes', counts', seed) by {
        SievedPush(primes, counts, seed);
      }
      primes, counts := primes', counts';
      return seed;
    }
  }
}

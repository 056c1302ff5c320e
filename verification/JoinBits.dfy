// Whole numbers read as bit masks of any length, as the chords of lib/join.rb use them.
module JoinBits {

  predicate Bit(m: nat, i: nat) {
    if i == 0 then m % 2 == 1 else Bit(m / 2, i - 1)
  }

  function Shifted(i: nat): nat {
    if i == 0 then 1 else 2 * Shifted(i - 1)
  }

  /** The number whose every bit is `f` of the two bits in that place. */
  function Bitwise(f: (bool, bool) -> bool, a: nat, b: nat): nat
    decreases a + b
  {
    if a == 0 && b == 0 then 0
    else (if f(a % 2 == 1, b % 2 == 1) then 1 else 0) + 2 * Bitwise(f, a / 2, b / 2)
  }

  predicate Either(x: bool, y: bool) { x || y }

  predicate Both(x: bool, y: bool) { x && y }

  predicate Differ(x: bool, y: bool) { x != y }

  function Or(a: nat, b: nat): nat { Bitwise(Either, a, b) }

  function And(a: nat, b: nat): nat { Bitwise(Both, a, b) }

  function Xor(a: nat, b: nat): nat { Bitwise(Differ, a, b) }

  lemma {:induction false} ZeroHasNoBits(i: nat)
    ensures !Bit(0, i)
  {
    if i > 0 { ZeroHasNoBits(i - 1); }
  }

  lemma {:induction false} BitwiseBit(f: (bool, bool) -> bool, a: nat, b: nat, i: nat)
    requires !f(false, false)
    ensures Bit(Bitwise(f, a, b), i) == f(Bit(a, i), Bit(b, i))
    decreases i
  {
    if a == 0 && b == 0 {
      ZeroHasNoBits(i);
    } else if i > 0 {
      BitwiseBit(f, a / 2, b / 2, i - 1);
    }
  }

  lemma {:induction false} ShiftedBit(n: nat, i: nat)
    ensures Bit(Shifted(n), i) <==> i == n
  {
    if n == 0 {
      if i > 0 { ZeroHasNoBits(i - 1); }
    } else if i > 0 {
      ShiftedBit(n - 1, i - 1);
    }
  }

  /** A number is determined by its bits. */
  lemma {:induction false} SameBits(a: nat, b: nat)
    requires forall i: nat :: Bit(a, i) == Bit(b, i)
    ensures a == b
    decreases a + b
  {
    assert Bit(a, 0) == Bit(b, 0);
    if a == 0 && b == 0 {
    } else {
      forall i: nat ensures Bit(a / 2, i) == Bit(b / 2, i) {
        assert Bit(a, i + 1) == Bit(b, i + 1);
      }
      SameBits(a / 2, b / 2);
    }
  }

  ghost predicate Covered(a: nat, b: nat) {
    forall i: nat :: Bit(a, i) ==> Bit(b, i)
  }

  /** `a & b == a` says that every bit of `a` is set in `b`. */
  lemma CoveredBits(a: nat, b: nat)
    ensures And(a, b) == a <==> Covered(a, b)
  {
    var both := And(a, b);
    forall i: nat ensures Bit(both, i) == (Bit(a, i) && Bit(b, i)) {
      BitwiseBit(Both, a, b, i);
    }
    if Covered(a, b) {
      SameBits(both, a);
    } else {
      var i: nat :| Bit(a, i) && !Bit(b, i);
      assert !Bit(both, i);
    }
  }

  lemma SetBit(m: nat, n: nat, i: nat)
    ensures Bit(Or(m, Shifted(n)), i) <==> i == n || Bit(m, i)
  {
    BitwiseBit(Either, m, Shifted(n), i);
    ShiftedBit(n, i);
  }

  lemma FlipBit(m: nat, n: nat, i: nat)
    ensures Bit(Xor(m, Shifted(n)), i) <==> (if i == n then !Bit(m, i) else Bit(m, i))
  {
    BitwiseBit(Differ, m, Shifted(n), i);
    ShiftedBit(n, i);
  }
}

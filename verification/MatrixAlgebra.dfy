/**
 Vectors and matrices over an exact field: products, their associativity and powers.
 */
module MatrixAlgebra {
  type Vec = seq<real>
  type Rows = seq<Vec>

  // ---- vectors

  function Dot(u: Vec, v: Vec): real
    requires |u| == |v|
  {
    if u == [] then 0.0 else u[0] * v[0] + Dot(u[1..], v[1..])
  }

  function Zeros(n: nat): (r: Vec)
    ensures |r| == n
  {
    seq(n, _ => 0.0)
  }

  /** The i-th unit vector, or no direction at all if i is out of range. */
  function Unit(n: nat, i: int): (r: Vec)
    ensures |r| == n
  {
    seq(n, j => if i == j then 1.0 else 0.0)
  }

  /** u + c * v */
  function AddMul(u: Vec, v: Vec, c: real): (r: Vec)
    requires |u| == |v|
    ensures |r| == |u|
  {
    seq(|u|, j requires 0 <= j < |u| => u[j] + v[j] * c)
  }

  function Scale(u: Vec, c: real): (r: Vec)
    ensures |r| == |u|
  {
    seq(|u|, j requires 0 <= j < |u| => u[j] * c)
  }

  lemma AddMulTail(u: Vec, w: Vec, c: real)
    requires |u| == |w| > 0
    ensures AddMul(u, w, c)[1..] == AddMul(u[1..], w[1..], c)
  {
    forall j | 0 <= j < |u| - 1
      ensures AddMul(u, w, c)[1..][j] == AddMul(u[1..], w[1..], c)[j]
    {
      assert u[1..][j] == u[j + 1] && w[1..][j] == w[j + 1];
    }
  }

  lemma {:induction false} DotAddMul(u: Vec, w: Vec, c: real, v: Vec)
    requires |u| == |w| == |v|
    ensures Dot(AddMul(u, w, c), v) == Dot(u, v) + c * Dot(w, v)
  {
    if u != [] {
      DotAddMul(u[1..], w[1..], c, v[1..]);
      AddMulTail(u, w, c);
      Distribute(u[0], w[0], c, v[0], Dot(w[1..], v[1..]));
    }
  }

  lemma Distribute(u: real, w: real, c: real, v: real, d: real)
    ensures (u + w * c) * v + c * d == u * v + c * (w * v + d)
  {
  }

  lemma {:induction false} DotScale(u: Vec, c: real, v: Vec)
    requires |u| == |v|
    ensures Dot(Scale(u, c), v) == c * Dot(u, v)
  {
    if u != [] {
      DotScale(u[1..], c, v[1..]);
      forall j | 0 <= j < |u| - 1
        ensures Scale(u, c)[1..][j] == Scale(u[1..], c)[j]
      {
        assert u[1..][j] == u[j + 1];
      }
      assert Scale(u, c)[1..] == Scale(u[1..], c);
      Distribute(0.0, u[0], c, v[0], Dot(u[1..], v[1..]));
    }
  }

  lemma {:induction false} DotZeros(u: Vec)
    ensures Dot(u, Zeros(|u|)) == 0.0 == Dot(Zeros(|u|), u)
  {
    if u != [] {
      DotZeros(u[1..]);
      assert Zeros(|u|)[1..] == Zeros(|u| - 1);
    }
  }

  lemma {:induction false} DotUnit(n: nat, i: int, v: Vec)
    requires |v| == n
    ensures Dot(Unit(n, i), v) == if 0 <= i < n then v[i] else 0.0
    decreases n
  {
    if n > 0 {
      DotUnit(n - 1, i - 1, v[1..]);
      assert Unit(n, i)[1..] == Unit(n - 1, i - 1);
    }
  }

  lemma {:induction false} DotSplit(u: Vec, v: Vec, k: nat)
    requires |u| == |v| && k <= |u|
    ensures Dot(u, v) == Dot(u[..k], v[..k]) + Dot(u[k..], v[k..])
    decreases k
  {
    if k == 0 {
      assert u[0..] == u && v[0..] == v;
    } else {
      DotSplit(u[1..], v[1..], k - 1);
      assert u[..k][1..] == u[1..][..k - 1] && v[..k][1..] == v[1..][..k - 1];
    }
  }

  // ---- matrices

  ghost predicate Shaped(m: Rows, r: nat, c: nat) {
    |m| == r && forall i :: 0 <= i < r ==> |m[i]| == c
  }

  function Col(m: Rows, j: nat): (v: Vec)
    requires forall i :: 0 <= i < |m| ==> j < |m[i]|
    ensures |v| == |m|
  {
    seq(|m|, i requires 0 <= i < |m| => m[i][j])
  }

  /** Row times matrix: the rows of m weighted with u. */
  function RowTimes(u: Vec, m: Rows, c: nat): (r: Vec)
    requires |u| == |m| && forall i :: 0 <= i < |m| ==> |m[i]| == c
    ensures |r| == c
  {
    if u == [] then Zeros(c) else AddMul(RowTimes(u[1..], m[1..], c), m[0], u[0])
  }

  /** Matrix times column. */
  function Apply(m: Rows, v: Vec): (r: Vec)
    requires forall i :: 0 <= i < |m| ==> |m[i]| == |v|
    ensures |r| == |m|
  {
    seq(|m|, i requires 0 <= i < |m| => Dot(m[i], v))
  }

  /** The product, entry by entry. */
  function Mul(x: Rows, y: Rows, c: nat): (r: Rows)
    requires (forall i :: 0 <= i < |x| ==> |x[i]| == |y|) && forall i :: 0 <= i < |y| ==> |y[i]| == c
    ensures |r| == |x| && forall i :: 0 <= i < |r| ==> |r[i]| == c
  {
    seq(|x|, i requires 0 <= i < |x| => seq(c, j requires 0 <= j < c => Dot(x[i], Col(y, j))))
  }

  function Identity(n: nat): (r: Rows)
    ensures |r| == n && forall i :: 0 <= i < n ==> |r[i]| == n && r[i] == Unit(n, i)
  {
    seq(n, i => Unit(n, i))
  }

  lemma {:induction false} RowTimesEntry(u: Vec, m: Rows, c: nat, j: nat)
    requires |u| == |m| && (forall i :: 0 <= i < |m| ==> |m[i]| == c) && j < c
    ensures RowTimes(u, m, c)[j] == Dot(u, Col(m, j))
    decreases |m|
  {
    if u != [] {
      RowTimesEntry(u[1..], m[1..], c, j);
      assert Col(m, j)[1..] == Col(m[1..], j);
    }
  }

  /** The rows of a product. */
  lemma MulRow(x: Rows, y: Rows, c: nat, i: nat)
    requires (forall k :: 0 <= k < |x| ==> |x[k]| == |y|) && (forall k :: 0 <= k < |y| ==> |y[k]| == c) && i < |x|
    ensures Mul(x, y, c)[i] == RowTimes(x[i], y, c)
  {
    forall j | 0 <= j < c
      ensures Mul(x, y, c)[i][j] == RowTimes(x[i], y, c)[j]
    {
      RowTimesEntry(x[i], y, c, j);
    }
  }

  /** Summing over rows first or over columns first. */
  lemma {:induction false} DotRowTimes(u: Vec, m: Rows, v: Vec)
    requires |u| == |m| && forall i :: 0 <= i < |m| ==> |m[i]| == |v|
    ensures Dot(RowTimes(u, m, |v|), v) == Dot(u, Apply(m, v))
    decreases |m|
  {
    if u == [] {
      DotZeros(v);
    } else {
      DotRowTimes(u[1..], m[1..], v);
      DotAddMul(RowTimes(u[1..], m[1..], |v|), m[0], u[0], v);
      assert Apply(m, v)[1..] == Apply(m[1..], v);
    }
  }

  /** Matrix multiplication is associative, for all shapes that fit. */
  lemma MulAssociative(x: Rows, y: Rows, z: Rows, b: nat, c: nat)
    requires (forall i :: 0 <= i < |x| ==> |x[i]| == |y|) && (forall i :: 0 <= i < |y| ==> |y[i]| == b)
    requires |z| == b && forall i :: 0 <= i < |z| ==> |z[i]| == c
    ensures Mul(Mul(x, y, b), z, c) == Mul(x, Mul(y, z, c), c)
  {
    var left, right := Mul(Mul(x, y, b), z, c), Mul(x, Mul(y, z, c), c);
    forall i | 0 <= i < |x|
      ensures left[i] == right[i]
    {
      forall j | 0 <= j < c
        ensures left[i][j] == right[i][j]
      {
        MulRow(x, y, b, i);
        DotRowTimes(x[i], y, Col(z, j));
        assert Apply(y, Col(z, j)) == Col(Mul(y, z, c), j);
      }
    }
  }

  /** Multiplying with the identity changes nothing. */
  lemma MulIdentity(x: Rows, r: nat, c: nat)
    requires Shaped(x, r, c)
    ensures Mul(Identity(r), x, c) == x && Mul(x, Identity(c), c) == x
  {
    forall i, j | 0 <= i < r && 0 <= j < c
      ensures Mul(Identity(r), x, c)[i][j] == x[i][j] && Mul(x, Identity(c), c)[i][j] == x[i][j]
    {
      DotUnit(r, i, Col(x, j));
      assert Col(Identity(c), j) == Unit(c, j);
      DotUnit(c, j, x[i]);
      DotCommutes(Unit(c, j), x[i]);
    }
    assert forall i :: 0 <= i < r ==> Mul(Identity(r), x, c)[i] == x[i];
    assert forall i :: 0 <= i < r ==> Mul(x, Identity(c), c)[i] == x[i];
  }

  lemma {:induction false} DotCommutes(u: Vec, v: Vec)
    requires |u| == |v|
    ensures Dot(u, v) == Dot(v, u)
  {
    if u != [] { DotCommutes(u[1..], v[1..]); }
  }

  // ---- powers

  /** The e-fold product of a square matrix. */
  function Power(x: Rows, e: nat): (r: Rows)
    requires Shaped(x, |x|, |x|)
    ensures Shaped(r, |x|, |x|)
  {
    if e == 0 then Identity(|x|) else Mul(x, Power(x, e - 1), |x|)
  }

  /** Half as many factors of the square are the same product. */
  lemma {:induction false} PowerOfSquare(x: Rows, e: nat)
    requires Shaped(x, |x|, |x|)
    ensures Power(Mul(x, x, |x|), e) == Power(x, 2 * e)
    decreases e
  {
    if e > 0 {
      var n := |x|;
      PowerOfSquare(x, e - 1);
      MulAssociative(x, x, Power(x, 2 * e - 2), n, n);
      assert Power(x, 2 * e - 1) == Mul(x, Power(x, 2 * e - 2), n);
    }
  }

  /** A factor moved from the power into the accumulator. */
  lemma PowerMoves(z: Rows, x: Rows, e: nat)
    requires Shaped(x, |x|, |x|) && Shaped(z, |x|, |x|) && e > 0
    ensures Mul(Mul(z, x, |x|), Power(x, e - 1), |x|) == Mul(z, Power(x, e), |x|)
  {
    MulAssociative(z, x, Power(x, e - 1), |x|, |x|);
  }

  /** The last factor may as well be split off. */
  lemma {:induction false} PowerRight(x: Rows, e: nat)
    requires Shaped(x, |x|, |x|)
    ensures Mul(Power(x, e), x, |x|) == Power(x, e + 1)
    decreases e
  {
    if e == 0 {
      MulIdentity(x, |x|, |x|);
    } else {
      PowerRight(x, e - 1);
      MulAssociative(x, Power(x, e - 1), x, |x|, |x|);
    }
  }

  /** Powers of inverse matrices are inverse to each other. */
  lemma {:induction false} PowerOfInverse(b: Rows, a: Rows, e: nat)
    requires Shaped(a, |a|, |a|) && Shaped(b, |a|, |a|) && Mul(b, a, |a|) == Identity(|a|)
    ensures Mul(Power(b, e), Power(a, e), |a|) == Identity(|a|)
    decreases e
  {
    var n := |a|;
    if e == 0 {
      MulIdentity(Identity(n), n, n);
    } else {
      var p, q := Power(b, e - 1), Power(a, e - 1);
      PowerRight(b, e - 1);
      MulAssociative(p, b, Mul(a, q, n), n, n);
      MulAssociative(b, a, q, n, n);
      MulIdentity(q, n, n);
      PowerOfInverse(b, a, e - 1);
    }
  }
}

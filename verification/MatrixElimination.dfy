/**
 The invariant of Gauss-Jordan elimination with a work array that keeps stale entries on its
 diagonal, and what it says when no pivot is found.
 */
module MatrixElimination {
  import opened MatrixAlgebra

  /** A multiple of the pivot row subtracted from a row, from one column on. */
  function SubFrom(row: Vec, pivot: Vec, q: real, from: nat): (r: Vec)
    requires |row| == |pivot|
    ensures |r| == |row|
  {
    seq(|row|, j requires 0 <= j < |row| => if j < from then row[j] else row[j] - pivot[j] * q)
  }

  /** A row divided by a number, from one column on. */
  function DivFrom(row: Vec, d: real, from: nat): (r: Vec)
    requires d != 0.0
    ensures |r| == |row|
  {
    seq(|row|, j requires 0 <= j < |row| => if j < from then row[j] else row[j] / d)
  }

  /** What row i of the work array stands for when k columns are done: a unit row in front. */
  function Logical(row: Vec, i: nat, k: nat): (r: Vec)
    ensures |r| == |row|
  {
    seq(|row|, j requires 0 <= j < |row| => if j < k then (if i == j then 1.0 else 0.0) else row[j])
  }

  ghost predicate Square(m: Rows) {
    Shaped(m, |m|, |m|)
  }

  /** Row i of the result, times the original matrix, is what row i of the work array stands for;
      only the diagonal of a finished column may be stale. */
  ghost predicate RowOk(src: Rows, r: Vec, row: Vec, i: nat, k: nat)
    requires Square(src)
  {
    && |r| == |row| == |src|
    && RowTimes(r, src, |src|) == Logical(row, i, k)
    && forall j :: 0 <= j < k && j < |row| && j != i ==> row[j] == 0.0
  }

  ghost predicate AllOk(src: Rows, rows: Rows, a: Rows, k: nat)
    requires Square(src)
  {
    |rows| == |a| == |src| && forall i :: 0 <= i < |src| ==> RowOk(src, rows[i], a[i], i, k)
  }

  /** The rows send v to zero. */
  ghost predicate Kills(rows: Rows, v: Vec) {
    forall i :: 0 <= i < |rows| ==> |rows[i]| == |v| && Dot(rows[i], v) == 0.0
  }

  ghost predicate Injective(rows: Rows) {
    forall v {:trigger Kills(rows, v)} :: |v| == |rows| && Kills(rows, v) ==> v == Zeros(|rows|)
  }

  // ---- linear combinations of rows

  lemma Regroup(a: real, b: real, z: real, c: real, s: real, t: real)
    ensures (a + b * c) + z * (s + t * c) == (a + z * s) + (b + z * t) * c
  {
  }

  lemma AddMulRegroup(a: Vec, b: Vec, z: Vec, c: real, s: real, t: real, x: real)
    requires |a| == |b| == |z| && x == s + t * c
    ensures AddMul(AddMul(a, b, c), z, x) == AddMul(AddMul(a, z, s), AddMul(b, z, t), c)
  {
    var left, right := AddMul(AddMul(a, b, c), z, x), AddMul(AddMul(a, z, s), AddMul(b, z, t), c);
    forall j | 0 <= j < |a|
      ensures left[j] == right[j]
    {
      Regroup(a[j], b[j], z[j], c, s, t);
    }
  }

  lemma {:induction false} RowTimesLinear(u: Vec, w: Vec, c: real, m: Rows, n: nat)
    requires |u| == |w| == |m| && forall i :: 0 <= i < |m| ==> |m[i]| == n
    ensures RowTimes(AddMul(u, w, c), m, n) == AddMul(RowTimes(u, m, n), RowTimes(w, m, n), c)
    decreases |m|
  {
    if u == [] {
      assert AddMul(u, w, c) == [] && w == [];
      assert AddMul(Zeros(n), Zeros(n), c) == Zeros(n);
    } else {
      RowTimesLinear(u[1..], w[1..], c, m[1..], n);
      AddMulTail(u, w, c);
      var uw := AddMul(u, w, c);
      assert uw[0] == u[0] + w[0] * c;
      var a, b := RowTimes(u[1..], m[1..], n), RowTimes(w[1..], m[1..], n);
      assert RowTimes(uw, m, n) == AddMul(AddMul(a, b, c), m[0], uw[0]);
      AddMulRegroup(a, b, m[0], c, u[0], w[0], uw[0]);
      calc {
        RowTimes(uw, m, n);
        AddMul(AddMul(a, m[0], u[0]), AddMul(b, m[0], w[0]), c);
        AddMul(RowTimes(u, m, n), RowTimes(w, m, n), c);
      }
    }
  }

  lemma RowTimesAddMul(u: Vec, w: Vec, c: real, m: Rows)
    requires Square(m) && |u| == |w| == |m|
    ensures RowTimes(AddMul(u, w, c), m, |m|) == AddMul(RowTimes(u, m, |m|), RowTimes(w, m, |m|), c)
  {
    RowTimesLinear(u, w, c, m, |m|);
  }

  lemma ScaleIsAddMul(u: Vec, c: real)
    ensures Scale(u, c) == AddMul(Zeros(|u|), u, c)
  {
    forall j | 0 <= j < |u|
      ensures Scale(u, c)[j] == AddMul(Zeros(|u|), u, c)[j]
    {
    }
  }

  lemma RowTimesZeros(m: Rows)
    requires Square(m)
    ensures RowTimes(Zeros(|m|), m, |m|) == Zeros(|m|)
  {
    forall j | 0 <= j < |m|
      ensures RowTimes(Zeros(|m|), m, |m|)[j] == 0.0
    {
      RowTimesEntry(Zeros(|m|), m, |m|, j);
      DotZeros(Col(m, j));
    }
  }

  lemma RowTimesScale(u: Vec, c: real, m: Rows)
    requires Square(m) && |u| == |m|
    ensures RowTimes(Scale(u, c), m, |m|) == Scale(RowTimes(u, m, |m|), c)
  {
    ScaleIsAddMul(u, c);
    RowTimesAddMul(Zeros(|m|), u, c, m);
    RowTimesZeros(m);
    ScaleIsAddMul(RowTimes(u, m, |m|), c);
  }

  lemma SubIsAddMul(u: Vec, w: Vec, q: real)
    requires |u| == |w|
    ensures SubFrom(u, w, q, 0) == AddMul(u, w, -q)
  {
    forall j | 0 <= j < |u|
      ensures SubFrom(u, w, q, 0)[j] == AddMul(u, w, -q)[j]
    {
      Negate(w[j], q);
    }
  }

  lemma Negate(a: real, b: real)
    ensures a * -b == -(a * b)
  {
  }

  lemma DivIsScale(u: Vec, d: real)
    requires d != 0.0
    ensures DivFrom(u, d, 0) == Scale(u, 1.0 / d)
  {
    forall j | 0 <= j < |u|
      ensures DivFrom(u, d, 0)[j] == Scale(u, 1.0 / d)[j]
    {
      Divide(u[j], d);
    }
  }

  lemma Divide(a: real, d: real)
    requires d != 0.0
    ensures a * (1.0 / d) == a / d
  {
  }

  // ---- the steps keep the invariant

  /** Rows that are not finished may change places. */
  lemma SwapOk(src: Rows, r: Vec, row: Vec, i: nat, i': nat, k: nat)
    requires Square(src) && k <= i && k <= i' && RowOk(src, r, row, i, k)
    ensures RowOk(src, r, row, i', k)
  {
    assert Logical(row, i, k) == Logical(row, i', k);
  }

  /** Subtracting the pivot row clears column k of another row. */
  lemma EliminateOk(src: Rows, r: Vec, pivotR: Vec, row: Vec, pivot: Vec, i: nat, k: nat, q: real)
    requires Square(src) && k < |src| && i != k && RowOk(src, r, row, i, k) && RowOk(src, pivotR, pivot, k, k)
    requires pivot[k] != 0.0 && q == row[k] / pivot[k]
    ensures RowOk(src, SubFrom(r, pivotR, q, 0), SubFrom(row[k := 0.0], pivot, q, k + 1), i, k + 1)
  {
    var n, row' := |src|, SubFrom(row[k := 0.0], pivot, q, k + 1);
    SubIsAddMul(r, pivotR, q);
    RowTimesAddMul(r, pivotR, -q, src);
    var done := AddMul(Logical(row, i, k), Logical(pivot, k, k), -q);
    forall j | 0 <= j < n
      ensures done[j] == Logical(row', i, k + 1)[j]
    {
      Negate(pivot[j], q);
    }
    assert done == Logical(row', i, k + 1);
  }

  /** Dividing the pivot row makes its diagonal entry a logical one. */
  lemma DivideOk(src: Rows, r: Vec, row: Vec, k: nat)
    requires Square(src) && k < |src| && RowOk(src, r, row, k, k) && row[k] != 0.0
    ensures RowOk(src, DivFrom(r, row[k], 0), DivFrom(row, row[k], k + 1), k, k + 1)
  {
    var n, d, row' := |src|, row[k], DivFrom(row, row[k], k + 1);
    DivIsScale(r, d);
    RowTimesScale(r, 1.0 / d, src);
    var done := Scale(Logical(row, k, k), 1.0 / d);
    forall j | 0 <= j < n
      ensures done[j] == Logical(row', k, k + 1)[j]
    {
      Divide(row[j], d);
    }
    assert done == Logical(row', k, k + 1);
  }

  lemma SwapInjective(rows: Rows, i: nat, k: nat)
    requires Injective(rows) && i < |rows| && k < |rows|
    ensures Injective(rows[i := rows[k]][k := rows[i]])
  {
    var rows' := rows[i := rows[k]][k := rows[i]];
    forall v | |v| == |rows'| && Kills(rows', v)
      ensures v == Zeros(|rows'|)
    {
      forall h | 0 <= h < |rows|
        ensures |rows[h]| == |v| && Dot(rows[h], v) == 0.0
      {
        var g := if h == i then k else if h == k then i else h;
        assert rows[h] == rows'[g];
      }
      assert Kills(rows, v);
    }
  }

  /** Row k divided by d, and multiples qs of row k subtracted from the others. */
  ghost predicate Reduced(rows: Rows, rows': Rows, k: nat, d: real, qs: Vec) {
    && |rows'| == |rows| == |qs| && k < |rows| && d != 0.0 && Square(rows)
    && rows'[k] == DivFrom(rows[k], d, 0)
    && forall i :: 0 <= i < |rows| && i != k ==> rows'[i] == SubFrom(rows[i], rows[k], qs[i], 0)
  }

  lemma ReducedInjective(rows: Rows, rows': Rows, k: nat, d: real, qs: Vec)
    requires Reduced(rows, rows', k, d, qs) && Injective(rows)
    ensures Injective(rows')
  {
    forall v | |v| == |rows'| && Kills(rows', v)
      ensures v == Zeros(|rows'|)
    {
      assert Dot(rows'[k], v) == 0.0;
      DivIsScale(rows[k], d);
      DotScale(rows[k], 1.0 / d, v);
      Cancel(Dot(rows[k], v), 1.0 / d);
      forall i | 0 <= i < |rows|
        ensures Dot(rows[i], v) == 0.0
      {
        if i != k {
          assert Dot(rows'[i], v) == 0.0;
          SubIsAddMul(rows[i], rows[k], qs[i]);
          DotAddMul(rows[i], rows[k], -qs[i], v);
        }
      }
      assert Kills(rows, v);
    }
  }

  lemma Cancel(x: real, c: real)
    requires c * x == 0.0 && c != 0.0
    ensures x == 0.0
  {
  }

  // ---- the beginning and the end

  lemma StartOk(src: Rows)
    requires Square(src)
    ensures AllOk(src, Identity(|src|), src, 0) && Injective(Identity(|src|))
  {
    var n := |src|;
    forall i | 0 <= i < n
      ensures RowOk(src, Identity(n)[i], src[i], i, 0)
    {
      MulRow(Identity(n), src, n, i);
      MulIdentity(src, n, n);
      assert Logical(src[i], i, 0) == src[i];
    }
    forall v | |v| == n && Kills(Identity(n), v)
      ensures v == Zeros(n)
    {
      forall i | 0 <= i < n
        ensures v[i] == 0.0
      {
        assert Dot(Identity(n)[i], v) == 0.0;
        DotUnit(n, i, v);
      }
    }
  }

  /** All columns done: the result is an inverse from the left and, being injective, from the right. */
  lemma EndIsInverse(src: Rows, rows: Rows, a: Rows)
    requires Square(src) && AllOk(src, rows, a, |src|) && Injective(rows)
    ensures Square(rows) && Mul(rows, src, |src|) == Identity(|src|) && Mul(src, rows, |src|) == Identity(|src|)
  {
    var n := |src|;
    forall i | 0 <= i < n
      ensures |rows[i]| == n && Mul(rows, src, n)[i] == Identity(n)[i]
    {
      assert RowOk(src, rows[i], a[i], i, n);
      MulRow(rows, src, n, i);
      assert Logical(a[i], i, n) == Unit(n, i);
    }
    assert Mul(rows, src, n) == Identity(n);
    LeftInverseIsRight(src, rows);
  }

  lemma LeftInverseIsRight(src: Rows, rows: Rows)
    requires Square(src) && Square(rows) && |rows| == |src| && Injective(rows) &&
      Mul(rows, src, |src|) == Identity(|src|)
    ensures Mul(src, rows, |src|) == Identity(|src|)
  {
    var n, p := |src|, Mul(src, rows, |src|);
    MulAssociative(rows, src, rows, n, n);
    MulIdentity(rows, n, n);
    forall j | 0 <= j < n
      ensures Col(p, j) == Unit(n, j)
    {
      var v := AddMul(Col(p, j), Unit(n, j), -1.0);
      forall i | 0 <= i < n
        ensures Dot(rows[i], v) == 0.0
      {
        assert Mul(rows, p, n)[i][j] == rows[i][j];
        DotUnit(n, j, rows[i]);
        DotCommutes(Unit(n, j), rows[i]);
        DotCommutes(rows[i], v);
        DotCommutes(rows[i], Col(p, j));
        DotAddMul(Col(p, j), Unit(n, j), -1.0, rows[i]);
      }
      assert Kills(rows, v);
      forall i | 0 <= i < n
        ensures Col(p, j)[i] == Unit(n, j)[i]
      {
        assert v[i] == Zeros(n)[i];
      }
    }
    forall i | 0 <= i < n
      ensures p[i] == Unit(n, i)
    {
      forall j | 0 <= j < n
        ensures p[i][j] == Unit(n, i)[j]
      {
        assert p[i][j] == Col(p, j)[i];
      }
    }
  }

  /** The vector that column k, without a pivot, sends to zero. */
  function Witness(a: Rows, k: nat): (v: Vec)
    requires k < |a| && forall i :: 0 <= i < |a| ==> k < |a[i]|
    ensures |v| == |a|
  {
    seq(|a|, j requires 0 <= j < |a| => if j < k then -a[j][k] else if j == k then 1.0 else 0.0)
  }

  lemma WitnessDot(row: Vec, i: nat, k: nat, v: Vec)
    requires k < |row| == |v| && v[k] == 1.0 && (forall j :: k < j < |v| ==> v[j] == 0.0)
    requires if i < k then v[i] == -row[k] else row[k] == 0.0
    ensures Dot(Logical(row, i, k), v) == 0.0
  {
    var u := Logical(row, i, k);
    DotSplit(u, v, k);
    assert u[..k] == Unit(k, i);
    DotUnit(k, i, v[..k]);
    assert u[k..][1..] == row[k + 1..] && v[k..][1..] == Zeros(|v| - k - 1);
    DotZeros(row[k + 1..]);
  }

  /** Without a pivot in column k the original matrix has no inverse. */
  lemma NoPivotNoInverse(src: Rows, rows: Rows, a: Rows, k: nat, b: Rows)
    requires Square(src) && k < |src| && AllOk(src, rows, a, k) && Injective(rows)
    requires forall i :: 0 <= i < |src| ==> |a[i]| == |src|
    requires forall i :: k <= i < |src| ==> a[i][k] == 0.0
    requires Shaped(b, |src|, |src|)
    ensures Mul(b, src, |src|) != Identity(|src|)
  {
    var n, v := |src|, Witness(a, k);
    forall i | 0 <= i < n
      ensures |rows[i]| == n && Dot(rows[i], Apply(src, v)) == 0.0
    {
      assert RowOk(src, rows[i], a[i], i, k);
      DotRowTimes(rows[i], src, v);
      WitnessDot(a[i], i, k, v);
    }
    assert Kills(rows, Apply(src, v));
    MulRow(b, src, n, k);
    DotRowTimes(b[k], src, v);
    DotZeros(b[k]);
    DotUnit(n, k, v);
  }
}

/**
 Matrix#inverse, * and **: the loops, proved against the algebra.
 */
module MatrixInverse {
  import opened Common
  import opened MatrixAlgebra
  import opened MatrixElimination

  datatype Error = ErrDimensionMismatch | ErrNotRegular

  type Outcome<+T> = Common.Outcome<T, Error>

  /** Subtracts a multiple of the pivot row, column by column. */
  method SubtractRow(row: Vec, pivot: Vec, q: real, from: nat) returns (r: Vec)
    requires |row| == |pivot|
    ensures r == SubFrom(row, pivot, q, from)
  {
    r := row;
    var j := from;
    while j < |row|
      invariant |r| == |row| && from <= j
      invariant forall h :: 0 <= h < |row| ==> r[h] == if from <= h < j then row[h] - pivot[h] * q else row[h]
    {
      r := r[j := row[j] - pivot[j] * q];
      j := j + 1;
    }
    assert forall h :: 0 <= h < |row| ==> r[h] == SubFrom(row, pivot, q, from)[h];
  }

  /** Divides a row, column by column. */
  method DivideRow(row: Vec, d: real, from: nat) returns (r: Vec)
    requires d != 0.0
    ensures r == DivFrom(row, d, from)
  {
    r := row;
    var j := from;
    while j < |row|
      invariant |r| == |row| && from <= j
      invariant forall h :: 0 <= h < |row| ==> r[h] == if from <= h < j then row[h] / d else row[h]
    {
      r := r[j := row[j] / d];
      j := j + 1;
    }
  }

  /** The first row at or below k with an entry in column k; none raises ErrNotRegular. */
  method FindPivot(a: Rows, k: nat) returns (r: Outcome<nat>)
    requires k < |a| && forall i :: 0 <= i < |a| ==> k < |a[i]|
    ensures r.Return? ==> k <= r.value < |a| && a[r.value][k] != 0.0
    ensures r.Return? ==> forall h :: k <= h < r.value ==> a[h][k] == 0.0
    ensures r.Raise? ==> r.error == ErrNotRegular && forall i :: k <= i < |a| ==> a[i][k] == 0.0
  {
    if a[k][k] != 0.0 { return Return(k); }
    var i := k + 1;
    while i < |a|
      invariant k < i <= |a| && forall h :: k <= h < i ==> a[h][k] == 0.0
    {
      if a[i][k] != 0.0 { return Return(i); }
      i := i + 1;
    }
    return Raise(ErrNotRegular);
  }

  ghost predicate IsInverse(b: Rows, m: Rows)
    requires Square(m)
  {
    Shaped(b, |m|, |m|) && Mul(b, m, |m|) == Identity(|m|) && Mul(m, b, |m|) == Identity(|m|)
  }

  /** There is no inverse, not even from the left. */
  ghost predicate NotRegular(m: Rows)
    requires Square(m)
  {
    forall b :: Shaped(b, |m|, |m|) ==> Mul(b, m, |m|) != Identity(|m|)
  }

  class Matrix {
    var rows: Rows

    constructor (rows: Rows)
      ensures this.rows == rows
    {
      this.rows := rows;
    }

    /** The elimination loop over the rows for one column with its pivot in place. */
    method ClearColumn(ghost src: Rows, a: Rows, k: nat) returns (a': Rows)
      requires Square(src) && k < |src| && AllOk(src, rows, a, k) && Injective(rows) && a[k][k] != 0.0
      modifies this
      ensures AllOk(src, rows, a', k + 1) && Injective(rows)
    {
      var akk := a[k][k];
      ghost var was, qs := rows, Zeros(|rows|);
      a' := a;
      for i := 0 to |a|
        invariant |rows| == |a'| == |a| == |qs| == |src|
        invariant forall h :: 0 <= h < i && h != k ==>
          rows[h] == SubFrom(was[h], was[k], qs[h], 0) && RowOk(src, rows[h], a'[h], h, k + 1)
        invariant forall h :: 0 <= h < |a| && (i <= h || h == k) ==> rows[h] == was[h] && a'[h] == a[h]
      {
        if i != k {
          var q := a[i][k] / akk;
          EliminateOk(src, was[i], was[k], a[i], a[k], i, k, q);
          var row := SubtractRow(a'[i][k := 0.0], a'[k], q, k + 1);
          a' := a'[i := row];
          row := SubtractRow(rows[i], rows[k], q, 0);
          rows := rows[i := row];
          qs := qs[i := q];
        }
      }
      DivideOk(src, rows[k], a'[k], k);
      var row := DivideRow(a'[k], akk, k + 1);
      a' := a'[k := row];
      row := DivideRow(rows[k], akk, 0);
      rows := rows[k := row];
      assert Reduced(was, rows, k, akk, qs);
      ReducedInjective(was, rows, k, akk, qs);
    }

    /** inverse_from, called on the identity matrix: Gauss-Jordan elimination on a copy of src. */
    method InverseFrom(src: Rows) returns (r: Outcome<()>)
      requires Square(src) && rows == Identity(|src|)
      modifies this
      ensures r.Return? ==> IsInverse(rows, src)
      ensures r.Raise? ==> r.error == ErrNotRegular && NotRegular(src)
    {
      var a := src;
      StartOk(src);
      for k := 0 to |src|
        invariant AllOk(src, rows, a, k) && Injective(rows)
      {
        assert forall i :: 0 <= i < |src| ==> RowOk(src, rows[i], a[i], i, k);
        var pivot := FindPivot(a, k);
        if pivot.Raise? {
          forall b | Shaped(b, |src|, |src|)
            ensures Mul(b, src, |src|) != Identity(|src|)
          {
            NoPivotNoInverse(src, rows, a, k, b);
          }
          return Raise(ErrNotRegular);
        }
        var i := pivot.value;
        SwapOk(src, rows[i], a[i], i, k, k);
        SwapOk(src, rows[k], a[k], k, i, k);
        SwapInjective(rows, i, k);
        a := a[i := a[k]][k := a[i]];
        rows := rows[i := rows[k]][k := rows[i]];
        a := ClearColumn(src, a, k);
      }
      EndIsInverse(src, rows, a);
      return Return(());
    }
  }

  predicate Rectangular(m: Rows) {
    m != [] && forall i :: 0 <= i < |m| ==> |m[i]| == |m[0]|
  }

  predicate SquareShape(m: Rows)
    requires Rectangular(m)
  {
    |m| == |m[0]|
  }

  /** inverse: what it returns is an inverse from both sides, and it raises ErrNotRegular only when
      not even an inverse from the left exists. */
  method Inverse(m: Rows) returns (r: Outcome<Rows>)
    requires Rectangular(m)
    ensures !SquareShape(m) <==> r == Raise(ErrDimensionMismatch)
    ensures SquareShape(m) && r.Return? ==> IsInverse(r.value, m)
    ensures SquareShape(m) && r.Raise? ==> r.error == ErrNotRegular && NotRegular(m)
  {
    if |m| != |m[0]| { return Raise(ErrDimensionMismatch); }
    var i := new Matrix(Identity(|m|));
    var ok :- i.InverseFrom(m);
    return Return(i.rows);
  }

  /** One entry of a product. */
  method Entry(x: Vec, y: Rows, j: nat) returns (vij: real)
    requires |x| == |y| && forall k :: 0 <= k < |y| ==> j < |y[k]|
    ensures vij == Dot(x, Col(y, j))
  {
    vij := 0.0;
    var col := Col(y, j);
    for k := 0 to |x|
      invariant vij + Dot(x[k..], col[k..]) == Dot(x, col)
    {
      assert x[k..][1..] == x[k + 1..] && col[k..][1..] == col[k + 1..];
      vij := vij + x[k] * y[k][j];
    }
  }

  /** Matrix * Matrix */
  method Times(x: Rows, y: Rows) returns (r: Outcome<Rows>)
    requires Rectangular(x) && Rectangular(y)
    ensures if |x[0]| != |y| then r == Raise(ErrDimensionMismatch) else r == Return(Mul(x, y, |y[0]|))
  {
    if |x[0]| != |y| { return Raise(ErrDimensionMismatch); }
    var rows: Rows := [];
    for i := 0 to |x|
      invariant |rows| == i && forall h :: 0 <= h < i ==> rows[h] == Mul(x, y, |y[0]|)[h]
    {
      var row: Vec := [];
      for j := 0 to |y[0]|
        invariant |row| == j && forall h :: 0 <= h < j ==> row[h] == Mul(x, y, |y[0]|)[i][h]
      {
        var vij := Entry(x[i], y, j);
        row := row + [vij];
      }
      assert row == Mul(x, y, |y[0]|)[i];
      rows := rows + [row];
    }
    assert rows == Mul(x, y, |y[0]|);
    return Return(rows);
  }

  /** The square-and-multiply loop of ** for a positive exponent. */
  method PowerLoop(m: Rows, e: nat) returns (r: Outcome<Rows>)
    requires Rectangular(m) && e > 0
    ensures SquareShape(m) ==> r == Return(Power(m, e))
    ensures !SquareShape(m) ==> r == if e == 1 then Return(m) else Raise(ErrDimensionMismatch)
  {
    var x, z, n := m, m, e - 1;
    if SquareShape(m) { assert Mul(z, Power(x, n), |m|) == Power(m, e); }
    while n != 0
      invariant Rectangular(x) && Rectangular(z) && n <= e - 1 && n >= 0
      invariant !SquareShape(m) ==> x == z == m && n == e - 1
      invariant SquareShape(m) ==> Shaped(x, |m|, |m|) && Shaped(z, |m|, |m|) && Mul(z, Power(x, n), |m|) == Power(m, e)
      decreases n
    {
      while n % 2 == 0
        invariant Rectangular(x) && Rectangular(z) && 0 < n <= e - 1
        invariant !SquareShape(m) ==> x == z == m && n == e - 1
        invariant SquareShape(m) ==>
          Shaped(x, |m|, |m|) && Shaped(z, |m|, |m|) && Mul(z, Power(x, n), |m|) == Power(m, e)
        decreases n
      {
        if SquareShape(m) { PowerOfSquare(x, n / 2); }
        x :- Times(x, x);
        n := n / 2;
      }
      if SquareShape(m) { PowerMoves(z, x, n); }
      z :- Times(z, x);
      n := n - 1;
    }
    if SquareShape(m) { MulIdentity(z, |m|, |m|); }
    return Return(z);
  }

  /** Matrix ** Integer: even the power 0 of a matrix without inverse raises ErrNotRegular. */
  method Pow(m: Rows, e: int) returns (r: Outcome<Rows>)
    requires Rectangular(m)
    ensures e > 0 && SquareShape(m) ==> r == Return(Power(m, e))
    ensures !SquareShape(m) ==> r == if e == 1 then Return(m) else Raise(ErrDimensionMismatch)
    ensures e <= 0 && SquareShape(m) && r.Return? ==> IsInverse(r.value, Power(m, -e))
    ensures e <= 0 && SquareShape(m) ==> (r == Raise(ErrNotRegular) <==> NotRegular(m))
    ensures e <= 0 && SquareShape(m) && r.Raise? ==> r.error == ErrNotRegular
  {
    if e > 0 {
      r := PowerLoop(m, e);
    } else {
      var x :- Inverse(m);
      ghost var n := |m|;
      if e == 0 {
        MulIdentity(Identity(n), n, n);
        return Return(Identity(|m[0]|));
      }
      r := PowerLoop(x, -e);
      PowerOfInverse(x, m, -e);
      PowerOfInverse(m, x, -e);
    }
  }

  /** The one-row matrix of a zero has no inverse. */
  lemma ZeroNotRegular()
    ensures NotRegular([[0.0]])
  {
    var m: Rows := [[0.0]];
    forall b | Shaped(b, 1, 1) ensures Mul(b, m, 1) != Identity(1) {
      RowTimesEntry(b[0], m, 1, 0);
      assert Mul(b, m, 1)[0][0] == Dot(b[0], Col(m, 0)) == 0.0;
      assert Identity(1)[0][0] == 1.0;
    }
  }

  /** Its power 0 is not the identity but an exception. */
  method ZeroToTheZero() returns (r: Outcome<Rows>)
    ensures r == Raise(ErrNotRegular)
  {
    ZeroNotRegular();
    r := Pow([[0.0]], 0);
  }
}

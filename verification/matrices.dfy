/** Dense real matrices as sequences of rows, with the reductions `MVKDE`
    applies to its proportion matrix (`np.sum` along either axis and in
    total) and the entry-wise division by a grand total that both the
    aggregation and the final rescale perform. */
module Matrices {
  import opened Sums

  /** Rows of reals; row `s` is `m[s]`. */
  type Matrix = seq<seq<real>>

  predicate IsShape(m: Matrix, rows: nat, cols: nat)
  {
    |m| == rows && forall i :: 0 <= i < |m| ==> |m[i]| == cols
  }

  predicate NonNegativeMatrix(m: Matrix)
  {
    forall i, j :: 0 <= i < |m| && 0 <= j < |m[i]| ==> 0.0 <= m[i][j]
  }

  /** All entries, read row after row. */
  function Flatten(m: Matrix): seq<real>
  {
    if |m| == 0 then [] else m[0] + Flatten(m[1..])
  }

  /** The grand total of all entries. */
  function Total(m: Matrix): real
  {
    Sum(Flatten(m))
  }

  /** Column `j`, read top to bottom. */
  function Column(m: Matrix, j: nat): (c: seq<real>)
    requires forall i :: 0 <= i < |m| ==> j < |m[i]|
    ensures |c| == |m|
    ensures forall i :: 0 <= i < |m| ==> c[i] == m[i][j]
  {
    seq(|m|, i requires 0 <= i < |m| => m[i][j])
  }

  /** `np.sum(m, axis=1)`: one entry per row, built row by row. The entries
      together account for every entry of the matrix exactly once. */
  function RowSums(m: Matrix): (r: seq<real>)
    ensures |r| == |m|
    ensures forall s :: 0 <= s < |m| ==> r[s] == Sum(m[s])
    ensures Sum(r) == Total(m)
  {
    if |m| == 0 then []
    else
      var rest := RowSums(m[1..]);
      SumConcat(m[0], Flatten(m[1..]));
      assert ([Sum(m[0])] + rest)[1..] == rest;
      [Sum(m[0])] + rest
  }

  /** `np.sum(m, axis=0)` for a matrix with `cols` columns: the rows are
      added entry-wise, one after the other, starting from zeros (a matrix
      without rows still has `cols` column sums, all zero). Entry `j` is the
      sum of column `j`, and the entries together add up to the grand total. */
  function ColSums(m: Matrix, cols: nat): (r: seq<real>)
    requires IsShape(m, |m|, cols)
    ensures |r| == cols
    ensures forall j :: 0 <= j < cols ==> r[j] == Sum(Column(m, j))
    ensures Sum(r) == Total(m)
  {
    if |m| == 0 then Zeros(cols)
    else
      var rest := ColSums(m[1..], cols);
      SumConcat(m[0], Flatten(m[1..]));
      ColumnTail(m, cols);
      Plus(m[0], rest)
  }

  lemma ColumnTail(m: Matrix, cols: nat)
    requires |m| > 0 && IsShape(m, |m|, cols)
    ensures forall j :: 0 <= j < cols ==> Sum(Column(m, j)) == m[0][j] + Sum(Column(m[1..], j))
  {
    forall j | 0 <= j < cols
      ensures Sum(Column(m, j)) == m[0][j] + Sum(Column(m[1..], j))
    {
      assert Column(m, j)[1..] == Column(m[1..], j);
    }
  }

  /** `r` has the shape of `m`, and multiplying it back by `t` gives `m`. */
  predicate ScaledBy(r: Matrix, m: Matrix, t: real)
  {
    && |r| == |m|
    && (forall i :: 0 <= i < |m| ==> |r[i]| == |m[i]|)
    && forall i, j :: 0 <= i < |m| && 0 <= j < |m[i]| ==> r[i][j] * t == m[i][j]
  }

  /** Every entry divided by the non-zero `t`: multiplying back by `t`
      recovers the original matrix. */
  function DivideAll(m: Matrix, t: real): (r: Matrix)
    requires t != 0.0
    ensures ScaledBy(r, m, t)
  {
    seq(|m|, i requires 0 <= i < |m| => Divide(m[i], t))
  }

  /** Dividing every entry by `t` divides the grand total by `t`. */
  lemma {:induction false} DivideAllTotal(m: Matrix, t: real)
    requires t != 0.0
    ensures Total(DivideAll(m, t)) == Total(m) / t
  {
    var r := DivideAll(m, t);
    var rs := RowSums(r);
    var ms := RowSums(m);
    assert rs == Divide(ms, t) by {
      forall s | 0 <= s < |m|
        ensures rs[s] == Divide(ms, t)[s]
      {
        assert r[s] == Divide(m[s], t);
        DivideSum(m[s], t);
      }
    }
    DivideSum(ms, t);
  }

  /** Scaling down by a positive factor keeps every entry non-negative. */
  lemma ScaledNonNegative(r: Matrix, m: Matrix, t: real)
    requires ScaledBy(r, m, t)
    ensures 0.0 < t && NonNegativeMatrix(m) ==> NonNegativeMatrix(r)
  {
    if 0.0 < t && NonNegativeMatrix(m) {
      forall i, j | 0 <= i < |r| && 0 <= j < |r[i]|
        ensures 0.0 <= r[i][j]
      {
        assert r[i][j] * t == m[i][j];
      }
    }
  }

  /** Cross-multiplying old and new entries gives the same product: the
      ratio between any two cells is kept. */
  predicate SameRatios(r: Matrix, m: Matrix)
    requires |r| == |m| && forall i :: 0 <= i < |m| ==> |r[i]| == |m[i]|
  {
    forall i, j, k, l :: 0 <= i < |m| && 0 <= j < |m[i]| && 0 <= k < |m| && 0 <= l < |m[k]| ==>
      r[i][j] * m[k][l] == r[k][l] * m[i][j]
  }

  lemma ScaledSameRatios(r: Matrix, m: Matrix, t: real)
    requires ScaledBy(r, m, t)
    ensures SameRatios(r, m)
  {
    forall i, j, k, l | 0 <= i < |m| && 0 <= j < |m[i]| && 0 <= k < |m| && 0 <= l < |m[k]|
      ensures r[i][j] * m[k][l] == r[k][l] * m[i][j]
    {
      CrossProducts(r[i][j], r[k][l], m[i][j], m[k][l], t);
    }
  }

  lemma CrossProducts(x: real, y: real, a: real, b: real, t: real)
    requires x * t == a && y * t == b
    ensures x * b == y * a
  {
    calc {
      x * b;
      x * (y * t);
      y * (x * t);
      y * a;
    }
  }

  /** A non-zero factor determines the scaled matrix: it is the entry-wise
      quotient. */
  lemma ScaledUnique(r: Matrix, m: Matrix, t: real)
    requires t != 0.0
    requires ScaledBy(r, m, t)
    ensures r == DivideAll(m, t)
  {
    var d := DivideAll(m, t);
    forall i | 0 <= i < |m|
      ensures r[i] == d[i]
    {
      forall j | 0 <= j < |m[i]|
        ensures r[i][j] == d[i][j]
      {
        Cancel(r[i][j], d[i][j], t);
      }
    }
  }

  lemma Cancel(x: real, y: real, t: real)
    requires t != 0.0 && x * t == y * t
    ensures x == y
  {
  }

  /** Dividing by the matrix's own grand total yields a matrix summing to 1. */
  function Normalise(m: Matrix): (r: Matrix)
    requires Total(m) != 0.0
    ensures ScaledBy(r, m, Total(m))
    ensures Total(r) == 1.0
  {
    var t := Total(m);
    DivideAllTotal(m, t);
    OneOver(t);
    DivideAll(m, t)
  }

  /** The entries of a row of a non-negative matrix, and hence the row sums and
      the column sums, are non-negative. */
  lemma MarginalsNonNegative(m: Matrix, cols: nat)
    requires IsShape(m, |m|, cols)
    requires NonNegativeMatrix(m)
    ensures NonNegative(RowSums(m))
    ensures NonNegative(ColSums(m, cols))
  {
    forall s | 0 <= s < |m|
      ensures 0.0 <= RowSums(m)[s]
    {
      assert NonNegative(m[s]);
      SumNonNegative(m[s]);
    }
    forall j | 0 <= j < cols
      ensures 0.0 <= ColSums(m, cols)[j]
    {
      assert NonNegative(Column(m, j));
      SumNonNegative(Column(m, j));
    }
  }
}

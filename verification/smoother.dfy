/** The discrete part of `MVKDE` (ogva/transfer_distribution.py): the two
    marginals of the proportion matrix, the pseudo-observations built from a
    multinomial draw over each marginal, their pairing into a two-column
    sample, the extent of that sample, and the final rescale of the density
    evaluated on the grid. The draws and the density are inputs. */
module Smoother {
  import opened Sums
  import opened Matrices
  import opened Expansion

  /** Number of multinomial trials per marginal. */
  const SampleSize: nat := 70000
  /** The age of the first row category. */
  const AgeBase: int := 18
  /** The number of the first ability-type column category. */
  const AbilityBase: int := 1

  datatype Option<T> = None | Some(value: T)

  /** The input `MVKDE` documents: a matrix of non-negative proportions of
      a total, summing to 1, here with `cols` columns. */
  predicate IsProportions(P: Matrix, cols: nat)
  {
    IsShape(P, |P|, cols) && NonNegativeMatrix(P) && Total(P) == 1.0
  }

  /** `counts` is a possible outcome of `np.random.multinomial(n, p)` for a
      probability vector `p`: one count per category, `n` in all, and no
      draw in a category of probability zero. (numpy gives the last
      category the probability left over by the others; for a `p` summing
      to 1 that is its own entry.) With at least one trial, some category
      of positive probability was drawn. */
  function IsDraw(counts: seq<nat>, p: seq<real>, n: nat): (b: bool)
    ensures b ==> |counts| == |p|
    ensures b && 0 < n ==> exists i :: 0 <= i < |p| && 0 < counts[i] && 0.0 < p[i]
  {
    DrawHitsSupport(counts, p);
    && |counts| == |p|
    && CountSum(counts) == n
    && forall i :: 0 <= i < |p| && counts[i] > 0 ==> p[i] > 0.0
  }

  /** A non-empty draw that avoids every category of probability zero hits
      some category of positive probability: the first one drawn. */
  lemma DrawHitsSupport(counts: seq<nat>, p: seq<real>)
    ensures && |counts| == |p| && 0 < CountSum(counts)
            && (forall i :: 0 <= i < |p| && counts[i] > 0 ==> p[i] > 0.0)
            ==> exists i :: 0 <= i < |p| && 0 < counts[i] && 0.0 < p[i]
  {
    if && |counts| == |p| && 0 < CountSum(counts)
       && (forall i :: 0 <= i < |p| && counts[i] > 0 ==> p[i] > 0.0)
    {
      var i := FirstPositive(counts);
      assert 0 < counts[i] && 0.0 < p[i];
    }
  }

  /** The age marginal (`np.sum(proportion_matrix, axis=1)`) and the income
      marginal (`np.sum(proportion_matrix, axis=0)`) of a proper proportion
      matrix are themselves probability vectors: non-negative, one entry per
      row and one per column of the matrix, each summing to 1. */
  lemma MarginalsAreDistributions(P: Matrix, cols: nat)
    requires IsProportions(P, cols)
    ensures |RowSums(P)| == |P| && |ColSums(P, cols)| == cols
    ensures Sum(RowSums(P)) == 1.0 && Sum(ColSums(P, cols)) == 1.0
    ensures NonNegative(RowSums(P)) && NonNegative(ColSums(P, cols))
  {
    MarginalsNonNegative(P, cols);
  }

  function Firsts(ps: seq<(int, int)>): (r: seq<int>)
    ensures |r| == |ps|
    ensures forall k :: 0 <= k < |ps| ==> r[k] == ps[k].0
  {
    seq(|ps|, k requires 0 <= k < |ps| => ps[k].0)
  }

  function Seconds(ps: seq<(int, int)>): (r: seq<int>)
    ensures |r| == |ps|
    ensures forall k :: 0 <= k < |ps| ==> r[k] == ps[k].1
  {
    seq(|ps|, k requires 0 <= k < |ps| => ps[k].1)
  }

  /** `np.vstack((ages, incomes)).T`: the two lists side by side as rows of
      pairs. Lists of different lengths cannot be stacked (`None`); otherwise
      the columns of the result are the two lists again. */
  function Stack(ages: seq<int>, incomes: seq<int>): (r: Option<seq<(int, int)>>)
    ensures r.Some? <==> |ages| == |incomes|
    ensures r.Some? ==> Firsts(r.value) == ages && Seconds(r.value) == incomes
  {
    if |ages| != |incomes| then None
    else Some(seq(|ages|, k requires 0 <= k < |ages| => (ages[k], incomes[k])))
  }

  /** The sample `MVKDE` hands to the density estimator: the age draw and the
      income draw, each expanded into category values, paired positionally.
      Both draws have 70000 trials, so the pairing is always defined. */
  function PseudoObservations(P: Matrix, cols: nat, ageDraw: seq<nat>, incomeDraw: seq<nat>)
    : (obs: seq<(int, int)>)
    requires IsProportions(P, cols)
    requires IsDraw(ageDraw, RowSums(P), SampleSize)
    requires IsDraw(incomeDraw, ColSums(P, cols), SampleSize)
    ensures |obs| == SampleSize
    ensures Firsts(obs) == Expand(ageDraw, AgeBase)
    ensures Seconds(obs) == Expand(incomeDraw, AbilityBase)
  {
    var ages := Expand(ageDraw, AgeBase);
    var incomes := Expand(incomeDraw, AbilityBase);
    Stack(ages, incomes).value
  }

  /** The sample, stated without reference to the expansion: every age
      category `s` appears `ageDraw[s]` times and every ability type `j`
      appears `incomeDraw[j]` times, and nothing else appears. */
  lemma PseudoObservationsCounts(P: Matrix, cols: nat, ageDraw: seq<nat>, incomeDraw: seq<nat>)
    requires IsProportions(P, cols)
    requires IsDraw(ageDraw, RowSums(P), SampleSize)
    requires IsDraw(incomeDraw, ColSums(P, cols), SampleSize)
    ensures var obs := PseudoObservations(P, cols, ageDraw, incomeDraw);
      && (forall s :: 0 <= s < |P| ==> multiset(Firsts(obs))[AgeBase + s] == ageDraw[s])
      && (forall a :: a < AgeBase || AgeBase + |P| <= a ==> multiset(Firsts(obs))[a] == 0)
      && (forall j :: 0 <= j < cols ==> multiset(Seconds(obs))[AbilityBase + j] == incomeDraw[j])
      && (forall g :: g < AbilityBase || AbilityBase + cols <= g ==> multiset(Seconds(obs))[g] == 0)
  {
    ExpandMultiplicities(ageDraw, AgeBase);
    ExpandMultiplicities(incomeDraw, AbilityBase);
  }

  /** Both columns of the sample are in category order. */
  lemma PseudoObservationsOrdered(P: Matrix, cols: nat, ageDraw: seq<nat>, incomeDraw: seq<nat>)
    requires IsProportions(P, cols)
    requires IsDraw(ageDraw, RowSums(P), SampleSize)
    requires IsDraw(incomeDraw, ColSums(P, cols), SampleSize)
    ensures var obs := PseudoObservations(P, cols, ageDraw, incomeDraw);
      NonDecreasing(Firsts(obs)) && NonDecreasing(Seconds(obs))
  {
    ExpandNonDecreasing(ageDraw, AgeBase);
    ExpandNonDecreasing(incomeDraw, AbilityBase);
  }

  /** Every pseudo-observation lies in a row and a column of the proportion
      matrix that carry positive mass. */
  lemma PseudoObservationsSupport(P: Matrix, cols: nat, ageDraw: seq<nat>, incomeDraw: seq<nat>, k: nat)
    requires IsProportions(P, cols)
    requires IsDraw(ageDraw, RowSums(P), SampleSize)
    requires IsDraw(incomeDraw, ColSums(P, cols), SampleSize)
    requires k < SampleSize
    ensures var o := PseudoObservations(P, cols, ageDraw, incomeDraw)[k];
      && 0 <= o.0 - AgeBase < |P| && 0 <= o.1 - AbilityBase < cols
      && 0.0 < Sum(P[o.0 - AgeBase])
      && 0.0 < Sum(Column(P, o.1 - AbilityBase))
  {
    var obs := PseudoObservations(P, cols, ageDraw, incomeDraw);
    var a := obs[k].0;
    var g := obs[k].1;
    assert a == Expand(ageDraw, AgeBase)[k];
    assert g == Expand(incomeDraw, AbilityBase)[k];
    ExpandMultiplicity(ageDraw, AgeBase, a);
    ExpandMultiplicity(incomeDraw, AbilityBase, g);
    assert a in multiset(Expand(ageDraw, AgeBase));
    assert g in multiset(Expand(incomeDraw, AbilityBase));
    assert ageDraw[a - AgeBase] > 0;
    assert incomeDraw[g - AbilityBase] > 0;
  }

  /** The corners of the evaluation grid. */
  datatype Corners = Corners(ageMin: int, incomeMin: int, ageMax: int, incomeMax: int)

  /** `freq_mat.min(axis=0)` and `freq_mat.max(axis=0)`: the smallest and
      largest value of each column of the sample. They are the first and the
      last age category, and the first and the last ability type, that were
      drawn at least once. */
  function GridCorners(P: Matrix, cols: nat, ageDraw: seq<nat>, incomeDraw: seq<nat>): (c: Corners)
    requires IsProportions(P, cols)
    requires IsDraw(ageDraw, RowSums(P), SampleSize)
    requires IsDraw(incomeDraw, ColSums(P, cols), SampleSize)
    ensures c.ageMin == AgeBase + FirstPositive(ageDraw)
    ensures c.ageMax == AgeBase + LastPositive(ageDraw)
    ensures c.incomeMin == AbilityBase + FirstPositive(incomeDraw)
    ensures c.incomeMax == AbilityBase + LastPositive(incomeDraw)
  {
    var obs := PseudoObservations(P, cols, ageDraw, incomeDraw);
    ExpandExtent(ageDraw, AgeBase);
    ExpandExtent(incomeDraw, AbilityBase);
    Corners(Min(Firsts(obs)), Min(Seconds(obs)), Max(Firsts(obs)), Max(Seconds(obs)))
  }

  /** `estimator / float(np.sum(estimator))`: the density evaluated on the
      grid of `MVKDE`'s parameters `S` by `J` (`rows` by `cols` here),
      divided by its total. The result has the same shape, sums
      to 1, multiplied back by the total gives the estimate, and is
      non-negative when the estimate is non-negative with positive total. */
  function Rescale(estimator: Matrix, rows: nat, cols: nat): (r: Matrix)
    requires IsShape(estimator, rows, cols)
    requires Total(estimator) != 0.0
    ensures IsShape(r, rows, cols)
    ensures Total(r) == 1.0
    ensures ScaledBy(r, estimator, Total(estimator))
    ensures NonNegativeMatrix(estimator) && 0.0 < Total(estimator) ==> NonNegativeMatrix(r)
  {
    var r := Normalise(estimator);
    ScaledNonNegative(r, estimator, Total(estimator));
    r
  }
}

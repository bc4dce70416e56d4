/** Finite sums over sequences: the arithmetic that `np.sum`, the pivot-table
    `aggfunc="sum"` and the multinomial count vectors are built from. */
module Sums {

  /** Sum of a sequence of reals, taken from the front. */
  function Sum(s: seq<real>): real
  {
    if |s| == 0 then 0.0 else s[0] + Sum(s[1..])
  }

  /** Sum of a vector of counts (a multinomial draw). */
  function CountSum(c: seq<nat>): nat
  {
    if |c| == 0 then 0 else c[0] + CountSum(c[1..])
  }

  predicate NonNegative(s: seq<real>)
  {
    forall k :: 0 <= k < |s| ==> 0.0 <= s[k]
  }

  /** The vector of `n` zeros. */
  function Zeros(n: nat): (r: seq<real>)
    ensures |r| == n
    ensures forall k :: 0 <= k < n ==> r[k] == 0.0
    ensures Sum(r) == 0.0
  {
    if n == 0 then [] else [0.0] + Zeros(n - 1)
  }

  /** Entry-wise sum of two vectors of the same length. */
  function Plus(a: seq<real>, b: seq<real>): (r: seq<real>)
    requires |a| == |b|
    ensures |r| == |a|
    ensures Sum(r) == Sum(a) + Sum(b)
    ensures forall k :: 0 <= k < |a| ==> r[k] == a[k] + b[k]
  {
    if |a| == 0 then []
    else
      assert a == [a[0]] + a[1..];
      [a[0] + b[0]] + Plus(a[1..], b[1..])
  }

  /** Every entry divided by a non-zero `t`. */
  function Divide(s: seq<real>, t: real): (r: seq<real>)
    requires t != 0.0
    ensures |r| == |s|
    ensures forall k :: 0 <= k < |s| ==> r[k] == s[k] / t
  {
    seq(|s|, k requires 0 <= k < |s| => s[k] / t)
  }

  /** Dividing every entry by `t` divides the sum by `t`. */
  lemma {:induction false} DivideSum(s: seq<real>, t: real)
    requires t != 0.0
    ensures Sum(Divide(s, t)) == Sum(s) / t
  {
    if |s| != 0 {
      DivideSum(s[1..], t);
      DivideDistributes(s[0], Sum(s[1..]), t);
      assert Divide(s, t)[1..] == Divide(s[1..], t);
      assert Divide(s, t)[0] == s[0] / t;
    }
  }

  lemma DivideDistributes(a: real, b: real, t: real)
    requires t != 0.0
    ensures a / t + b / t == (a + b) / t
  {
  }

  lemma OneOver(t: real)
    requires t != 0.0
    ensures t / t == 1.0
  {
  }

  lemma {:induction false} SumConcat(a: seq<real>, b: seq<real>)
    ensures Sum(a + b) == Sum(a) + Sum(b)
  {
    if |a| == 0 {
      assert a + b == b;
    } else {
      assert (a + b)[1..] == a[1..] + b;
      SumConcat(a[1..], b);
    }
  }

  /** Adding `d` to one entry adds `d` to the sum. */
  lemma {:induction false} SumUpdate(s: seq<real>, i: nat, d: real)
    requires i < |s|
    ensures Sum(s[i := s[i] + d]) == Sum(s) + d
  {
    if i == 0 {
      assert s[i := s[i] + d][1..] == s[1..];
    } else {
      assert s[i := s[i] + d][1..] == s[1..][i - 1 := s[i] + d];
      SumUpdate(s[1..], i - 1, d);
    }
  }

  lemma {:induction false} SumNonNegative(s: seq<real>)
    requires NonNegative(s)
    ensures 0.0 <= Sum(s)
  {
    if |s| != 0 {
      SumNonNegative(s[1..]);
    }
  }

  lemma {:induction false} SumOfZeros(s: seq<real>)
    requires forall k :: 0 <= k < |s| ==> s[k] == 0.0
    ensures Sum(s) == 0.0
  {
    if |s| != 0 {
      SumOfZeros(s[1..]);
    }
  }

  /** A count vector summing to zero has only zero entries. */
  lemma {:induction false} CountSumZero(c: seq<nat>)
    requires CountSum(c) == 0
    ensures forall k :: 0 <= k < |c| ==> c[k] == 0
  {
    if |c| != 0 {
      CountSumZero(c[1..]);
      assert forall k :: 1 <= k < |c| ==> c[k] == c[1..][k - 1];
    }
  }
}

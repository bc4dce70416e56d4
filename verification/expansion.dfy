/** The expansion of a multinomial draw into pseudo-observations: category
    `i` of a count vector stands for the value `base + i`, and that value is
    written out as many times as the category was drawn, categories in
    index order (ogva/transfer_distribution.py, the two loops of `MVKDE`). */
module Expansion {
  import opened Sums

  /** `n` copies of `v` (`np.ones(n) * v`). */
  function Repeat(v: int, n: nat): (r: seq<int>)
    ensures |r| == n
    ensures forall k :: 0 <= k < n ==> r[k] == v
  {
    seq(n, _ => v)
  }

  /** The pseudo-observation list of `counts`, categories numbered from
      `base`. Its length is the number of draws, and every value names one
      of the categories. */
  function Expand(counts: seq<nat>, base: int): (r: seq<int>)
    ensures |r| == CountSum(counts)
    ensures forall k :: 0 <= k < |r| ==> base <= r[k] < base + |counts|
  {
    if |counts| == 0 then []
    else Repeat(base, counts[0]) + Expand(counts[1..], base + 1)
  }

  predicate NonDecreasing(xs: seq<int>)
  {
    forall i, j :: 0 <= i < j < |xs| ==> xs[i] <= xs[j]
  }

  /** The `for i in probs` loop of `MVKDE`: the running list grows by one
      block of equal values per category, and the value written rises by one
      after each category. */
  method ExpandCounts(counts: seq<nat>, base: int) returns (freq: seq<int>)
    ensures freq == Expand(counts, base)
    ensures |freq| == CountSum(counts)
  {
    freq := [];
    var value := base;
    var i := 0;
    while i < |counts|
      invariant 0 <= i <= |counts|
      invariant value == base + i
      invariant freq == Expand(counts[..i], base)
    {
      ExpandSnoc(counts[..i], counts[i], base);
      assert counts[..i + 1] == counts[..i] + [counts[i]];
      freq := freq + Repeat(value, counts[i]);
      value := value + 1;
      i := i + 1;
    }
    assert counts[..|counts|] == counts;
  }

  /** Appending one more category appends one more block. */
  lemma {:induction false} ExpandSnoc(counts: seq<nat>, n: nat, base: int)
    ensures Expand(counts + [n], base) == Expand(counts, base) + Repeat(base + |counts|, n)
  {
    if |counts| == 0 {
      assert counts + [n] == [n];
      assert [n][1..] == [];
    } else {
      assert (counts + [n])[1..] == counts[1..] + [n];
      ExpandSnoc(counts[1..], n, base + 1);
    }
  }

  lemma {:induction false} RepeatMultiplicity(v: int, n: nat, w: int)
    ensures multiset(Repeat(v, n))[w] == if w == v then n else 0
  {
    if n != 0 {
      assert Repeat(v, n) == Repeat(v, n - 1) + [v];
      RepeatMultiplicity(v, n - 1, w);
    }
  }

  /** Value `base + i` occurs exactly `counts[i]` times, and no value outside
      `[base, base + |counts| - 1]` occurs at all. */
  lemma {:induction false} ExpandMultiplicity(counts: seq<nat>, base: int, v: int)
    ensures multiset(Expand(counts, base))[v]
         == if base <= v < base + |counts| then counts[v - base] else 0
  {
    if |counts| != 0 {
      var rest := Expand(counts[1..], base + 1);
      assert Expand(counts, base) == Repeat(base, counts[0]) + rest;
      RepeatMultiplicity(base, counts[0], v);
      ExpandMultiplicity(counts[1..], base + 1, v);
    }
  }

  /** The multiplicities of every category, all at once. */
  lemma ExpandMultiplicities(counts: seq<nat>, base: int)
    ensures forall i :: 0 <= i < |counts| ==> multiset(Expand(counts, base))[base + i] == counts[i]
    ensures forall v :: v < base || base + |counts| <= v ==> multiset(Expand(counts, base))[v] == 0
  {
    forall i | 0 <= i < |counts|
      ensures multiset(Expand(counts, base))[base + i] == counts[i]
    {
      ExpandMultiplicity(counts, base, base + i);
    }
    forall v | v < base || base + |counts| <= v
      ensures multiset(Expand(counts, base))[v] == 0
    {
      ExpandMultiplicity(counts, base, v);
    }
  }

  /** The values come out in category order. */
  lemma {:induction false} ExpandNonDecreasing(counts: seq<nat>, base: int)
    ensures NonDecreasing(Expand(counts, base))
  {
    if |counts| != 0 {
      var block := Repeat(base, counts[0]);
      var rest := Expand(counts[1..], base + 1);
      var r := Expand(counts, base);
      assert r == block + rest;
      ExpandNonDecreasing(counts[1..], base + 1);
      forall i, j | 0 <= i < j < |r|
        ensures r[i] <= r[j]
      {
        if j < |block| {
          assert r[i] == base && r[j] == base;
        } else if i < |block| {
          assert r[i] == base && r[j] == rest[j - |block|];
        } else {
          assert r[i] == rest[i - |block|] && r[j] == rest[j - |block|];
        }
      }
    }
  }

  /** Index of the first category that was drawn at least once. */
  function FirstPositive(counts: seq<nat>): (i: nat)
    requires CountSum(counts) > 0
    ensures i < |counts| && counts[i] > 0
    ensures forall k :: 0 <= k < i ==> counts[k] == 0
  {
    if counts[0] > 0 then 0 else 1 + FirstPositive(counts[1..])
  }

  /** Index of the last category that was drawn at least once. */
  function LastPositive(counts: seq<nat>): (i: nat)
    requires CountSum(counts) > 0
    ensures i < |counts| && counts[i] > 0
    ensures forall k :: i < k < |counts| ==> counts[k] == 0
  {
    if CountSum(counts[1..]) > 0 then 1 + LastPositive(counts[1..])
    else
      CountSumZero(counts[1..]);
      assert forall k :: 0 < k < |counts| ==> counts[k] == counts[1..][k - 1];
      0
  }

  /** Smallest value of a non-empty list. */
  function Min(xs: seq<int>): (m: int)
    requires |xs| > 0
    ensures m in xs
    ensures forall k :: 0 <= k < |xs| ==> m <= xs[k]
  {
    if |xs| == 1 then xs[0]
    else
      var r := Min(xs[1..]);
      if xs[0] <= r then xs[0] else r
  }

  /** Largest value of a non-empty list. */
  function Max(xs: seq<int>): (m: int)
    requires |xs| > 0
    ensures m in xs
    ensures forall k :: 0 <= k < |xs| ==> xs[k] <= m
  {
    if |xs| == 1 then xs[0]
    else
      var r := Max(xs[1..]);
      if r <= xs[0] then xs[0] else r
  }

  /** The smallest and largest pseudo-observations are the first and the last
      category that were drawn at least once. */
  lemma ExpandExtent(counts: seq<nat>, base: int)
    requires CountSum(counts) > 0
    ensures Min(Expand(counts, base)) == base + FirstPositive(counts)
    ensures Max(Expand(counts, base)) == base + LastPositive(counts)
  {
    var r := Expand(counts, base);
    var lo := base + FirstPositive(counts);
    var hi := base + LastPositive(counts);
    ExpandMultiplicity(counts, base, lo);
    ExpandMultiplicity(counts, base, hi);
    assert lo in multiset(r) && hi in multiset(r);
    forall k | 0 <= k < |r|
      ensures lo <= r[k] <= hi
    {
      assert r[k] in multiset(r);
      ExpandMultiplicity(counts, base, r[k]);
    }
    var a :| 0 <= a < |r| && r[a] == lo;
    var b :| 0 <= b < |r| && r[b] == hi;
    var mn := Min(r);
    var mx := Max(r);
    var c :| 0 <= c < |r| && r[c] == mn;
    var d :| 0 <= d < |r| && r[d] == mx;
    assert mn <= r[a] && lo <= r[c];
    assert r[b] <= mx && r[d] <= hi;
  }
}

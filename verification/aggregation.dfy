/** The empirical transfer matrix of `get_transfer_matrix`
    (ogva/transfer_distribution.py): survey records from 1988 on are pivoted
    into a table with one row per observed age and one column per observed
    lifetime-income group, each cell holding the summed transfers of its
    records (0 where there are none), and the table is divided by its grand
    total. */
module Aggregation {
  import opened Sums
  import opened Matrices

  /** Records from this survey year on are kept. */
  const FirstYear: int := 1988

  /** One survey row: the columns the aggregation reads. */
  datatype Record = Record(
    year: int,
    age: int,
    group: int,
    headAndSpouse: real,
    otherFamilyUnit: real)

  /** The `total_transfers` column: the two transfer-income components
      added; non-negative components give a non-negative total. */
  function TotalTransfers(r: Record): (t: real)
    ensures 0.0 <= r.headAndSpouse && 0.0 <= r.otherFamilyUnit ==> 0.0 <= t
  {
    r.headAndSpouse + r.otherFamilyUnit
  }

  predicate Included(r: Record)
  {
    r.year >= FirstYear
  }

  /** `df[df["year_data"] >= 1988]`: the included records, in their order and
      with their multiplicities. */
  function Select(rs: seq<Record>): (f: seq<Record>)
    ensures forall k :: 0 <= k < |f| ==> Included(f[k])
  {
    if |rs| == 0 then []
    else
      assert rs == [rs[0]] + rs[1..];
      (if Included(rs[0]) then [rs[0]] else []) + Select(rs[1..])
  }

  /** Reference definition of one cell: the transfers of every included
      record of age `a` in group `g`. */
  function CellSum(rs: seq<Record>, a: int, g: int): real
  {
    if |rs| == 0 then 0.0
    else
      (if Included(rs[0]) && rs[0].age == a && rs[0].group == g then TotalTransfers(rs[0]) else 0.0)
      + CellSum(rs[1..], a, g)
  }

  /** Reference definition of the grand total: the transfers of every
      included record. */
  function IncludedTotal(rs: seq<Record>): real
  {
    if |rs| == 0 then 0.0
    else (if Included(rs[0]) then TotalTransfers(rs[0]) else 0.0) + IncludedTotal(rs[1..])
  }

  predicate StrictlyIncreasing(xs: seq<int>)
  {
    forall i, j :: 0 <= i < j < |xs| ==> xs[i] < xs[j]
  }

  /** Adds `x` to a sorted label list unless it is already there. */
  function Insert(labels: seq<int>, x: int): (r: seq<int>)
    requires StrictlyIncreasing(labels)
    ensures StrictlyIncreasing(r)
    ensures |r| > 0 && r[0] == if |labels| == 0 || x < labels[0] then x else labels[0]
  {
    if |labels| == 0 then [x]
    else if x < labels[0] then [x] + labels
    else if x == labels[0] then labels
    else
      var rest := Insert(labels[1..], x);
      assert labels[0] < rest[0];
      [labels[0]] + rest
  }

  /** The sorted distinct values of `xs`: the index a pivot table builds. */
  function Labels(xs: seq<int>): (r: seq<int>)
    ensures StrictlyIncreasing(r)
  {
    if |xs| == 0 then [] else Insert(Labels(xs[1..]), xs[0])
  }

  lemma {:induction false} InsertMembership(labels: seq<int>, x: int, y: int)
    requires StrictlyIncreasing(labels)
    ensures y in Insert(labels, x) <==> y in labels || y == x
  {
    if |labels| != 0 && x > labels[0] {
      InsertMembership(labels[1..], x, y);
      assert labels == [labels[0]] + labels[1..];
    }
  }

  /** Every value of `xs`, and nothing else, is a label. */
  lemma {:induction false} LabelsMembership(xs: seq<int>, y: int)
    ensures y in Labels(xs) <==> y in xs
  {
    if |xs| != 0 {
      LabelsMembership(xs[1..], y);
      InsertMembership(Labels(xs[1..]), xs[0], y);
      assert xs == [xs[0]] + xs[1..];
    }
  }

  /** Position of `x` in a label list that contains it. */
  function IndexOf(labels: seq<int>, x: int): (i: nat)
    requires x in labels
    ensures i < |labels| && labels[i] == x
  {
    if labels[0] == x then 0 else 1 + IndexOf(labels[1..], x)
  }

  function AgesOf(rs: seq<Record>): (r: seq<int>)
    ensures |r| == |rs|
    ensures forall k :: 0 <= k < |rs| ==> r[k] == rs[k].age
  {
    seq(|rs|, k requires 0 <= k < |rs| => rs[k].age)
  }

  function GroupsOf(rs: seq<Record>): (r: seq<int>)
    ensures |r| == |rs|
    ensures forall k :: 0 <= k < |rs| ==> r[k] == rs[k].group
  {
    seq(|rs|, k requires 0 <= k < |rs| => rs[k].group)
  }

  /** The `rows` by `cols` matrix of zeros: the filled-in missing cells. */
  function ZeroMatrix(rows: nat, cols: nat): (m: Matrix)
    ensures IsShape(m, rows, cols)
    ensures forall i, j :: 0 <= i < rows && 0 <= j < cols ==> m[i][j] == 0.0
  {
    seq(rows, _ => Zeros(cols))
  }

  /** `m` with `d` added to cell `(i, j)`. */
  function AddAt(m: Matrix, i: nat, j: nat, d: real): (r: Matrix)
    requires i < |m| && j < |m[i]|
    ensures |r| == |m|
    ensures forall k :: 0 <= k < |m| ==> |r[k]| == |m[k]|
  {
    m[i := m[i][j := m[i][j] + d]]
  }

  predicate Labelled(rs: seq<Record>, ages: seq<int>, groups: seq<int>)
  {
    forall k :: 0 <= k < |rs| ==> rs[k].age in ages && rs[k].group in groups
  }

  /** Group-by-and-sum: every record adds its transfers to the cell of its
      age and group, records taken in order. */
  function Accumulate(rs: seq<Record>, ages: seq<int>, groups: seq<int>, m: Matrix): (r: Matrix)
    requires IsShape(m, |ages|, |groups|)
    requires Labelled(rs, ages, groups)
    ensures IsShape(r, |ages|, |groups|)
  {
    if |rs| == 0 then m
    else
      Accumulate(rs[1..], ages, groups,
        AddAt(m, IndexOf(ages, rs[0].age), IndexOf(groups, rs[0].group), TotalTransfers(rs[0])))
  }

  /** A pivot table: row labels, column labels and the cells. */
  datatype Pivot = Pivot(ages: seq<int>, groups: seq<int>, cells: Matrix)

  /** `pd.pivot_table(df[df["year_data"] >= 1988], values="total_transfers",
      index="age", columns="li_group", aggfunc="sum")` followed by
      `fillna(0)`: rows and columns are labelled by the sorted distinct ages
      and groups of the included records. */
  function PivotSum(rs: seq<Record>): (p: Pivot)
    ensures StrictlyIncreasing(p.ages) && StrictlyIncreasing(p.groups)
    ensures IsShape(p.cells, |p.ages|, |p.groups|)
  {
    PivotOf(Select(rs))
  }

  /** The pivot of records that all passed the year filter. */
  function PivotOf(f: seq<Record>): (p: Pivot)
    ensures StrictlyIncreasing(p.ages) && StrictlyIncreasing(p.groups)
    ensures IsShape(p.cells, |p.ages|, |p.groups|)
  {
    var ages := Labels(AgesOf(f));
    var groups := Labels(GroupsOf(f));
    LabelsCover(f);
    Pivot(ages, groups, Accumulate(f, ages, groups, ZeroMatrix(|ages|, |groups|)))
  }

  /** Every record's age is a row label and its group a column label. */
  lemma LabelsCover(f: seq<Record>)
    ensures Labelled(f, Labels(AgesOf(f)), Labels(GroupsOf(f)))
  {
    forall k | 0 <= k < |f|
      ensures f[k].age in Labels(AgesOf(f)) && f[k].group in Labels(GroupsOf(f))
    {
      assert AgesOf(f)[k] in AgesOf(f);
      assert GroupsOf(f)[k] in GroupsOf(f);
      LabelsMembership(AgesOf(f), f[k].age);
      LabelsMembership(GroupsOf(f), f[k].group);
    }
  }

  /** Every included record carries non-negative transfers. */
  predicate TransfersNonNegative(rs: seq<Record>)
  {
    forall k :: 0 <= k < |rs| && Included(rs[k]) ==> 0.0 <= TotalTransfers(rs[k])
  }

  /** The reference table over given labels: every cell by its definition. */
  function CellTable(rs: seq<Record>, ages: seq<int>, groups: seq<int>): (m: Matrix)
    ensures IsShape(m, |ages|, |groups|)
  {
    seq(|ages|, i requires 0 <= i < |ages| =>
      seq(|groups|, j requires 0 <= j < |groups| => CellSum(rs, ages[i], groups[j])))
  }

  /** `total_transfers_matrix / total_transfers_matrix.sum().sum()`: the
      pivot divided by its grand total (the sum of its column sums). The
      labels are the pivot's; multiplied back by the included grand total,
      each share is the summed transfers of its age and group; the ratio
      between any two cells is the pivot's; the shares sum to 1, and they
      are non-negative when the transfers are and the total is positive. */
  function TransferMatrix(rs: seq<Record>): (p: Pivot)
    requires IncludedTotal(rs) != 0.0
    ensures p.ages == PivotSum(rs).ages && p.groups == PivotSum(rs).groups
    ensures IsShape(p.cells, |p.ages|, |p.groups|)
    ensures ScaledBy(p.cells, PivotSum(rs).cells, IncludedTotal(rs))
    ensures ScaledBy(p.cells, CellTable(rs, p.ages, p.groups), IncludedTotal(rs))
    ensures SameRatios(p.cells, PivotSum(rs).cells)
    ensures TransfersNonNegative(rs) && 0.0 < IncludedTotal(rs) ==> NonNegativeMatrix(p.cells)
    ensures Total(p.cells) == 1.0
  {
    var q := PivotSum(rs);
    var grand := Sum(ColSums(q.cells, |q.groups|));
    PivotTotal(rs);
    PivotIsCellTable(rs);
    assert grand == IncludedTotal(rs);
    DivideAllTotal(q.cells, grand);
    OneOver(grand);
    var d := DivideAll(q.cells, grand);
    ScaledSameRatios(d, q.cells, grand);
    PivotNonNegative(rs);
    ScaledNonNegative(d, q.cells, grand);
    Pivot(q.ages, q.groups, d)
  }

  // ---------------------------------------------------------------------------
  // Lemmas

  /** A record survives the year filter exactly when it is included, and
      as often as it occurs. */
  lemma {:induction false} SelectMultiplicity(rs: seq<Record>, r: Record)
    ensures multiset(Select(rs))[r] == if Included(r) then multiset(rs)[r] else 0
  {
    if |rs| != 0 {
      SelectMultiplicity(rs[1..], r);
      assert rs == [rs[0]] + rs[1..];
      var f := Select(rs[1..]);
      if Included(rs[0]) {
        assert Select(rs) == [rs[0]] + f;
      } else {
        assert Select(rs) == f;
      }
    }
  }

  lemma {:induction false} SelectConcat(a: seq<Record>, b: seq<Record>)
    ensures Select(a + b) == Select(a) + Select(b)
  {
    if |a| == 0 {
      assert a + b == b;
    } else {
      assert (a + b)[1..] == a[1..] + b;
      SelectConcat(a[1..], b);
    }
  }

  lemma {:induction false} CellSumOfSelect(rs: seq<Record>, a: int, g: int)
    ensures CellSum(Select(rs), a, g) == CellSum(rs, a, g)
  {
    if |rs| != 0 {
      CellSumOfSelect(rs[1..], a, g);
      var f := Select(rs[1..]);
      if Included(rs[0]) {
        assert Select(rs) == [rs[0]] + f;
        assert ([rs[0]] + f)[1..] == f;
      } else {
        assert Select(rs) == f;
      }
    }
  }

  lemma {:induction false} IncludedTotalOfSelect(rs: seq<Record>)
    ensures IncludedTotal(Select(rs)) == IncludedTotal(rs)
  {
    if |rs| != 0 {
      IncludedTotalOfSelect(rs[1..]);
      var f := Select(rs[1..]);
      if Included(rs[0]) {
        assert Select(rs) == [rs[0]] + f;
        assert ([rs[0]] + f)[1..] == f;
      } else {
        assert Select(rs) == f;
      }
    }
  }

  /** Distinct labels: a label sits at exactly one position. */
  lemma IndexOfUnique(labels: seq<int>, i: nat)
    requires StrictlyIncreasing(labels)
    requires i < |labels|
    ensures IndexOf(labels, labels[i]) == i
  {
  }

  lemma {:induction false} AccumulateCell(
    rs: seq<Record>, ages: seq<int>, groups: seq<int>, m: Matrix, i: nat, j: nat)
    requires StrictlyIncreasing(ages) && StrictlyIncreasing(groups)
    requires IsShape(m, |ages|, |groups|)
    requires Labelled(rs, ages, groups)
    requires forall k :: 0 <= k < |rs| ==> Included(rs[k])
    requires i < |ages| && j < |groups|
    ensures Accumulate(rs, ages, groups, m)[i][j] == m[i][j] + CellSum(rs, ages[i], groups[j])
  {
    if |rs| != 0 {
      var r := rs[0];
      var i0 := IndexOf(ages, r.age);
      var j0 := IndexOf(groups, r.group);
      var m' := AddAt(m, i0, j0, TotalTransfers(r));
      AccumulateCell(rs[1..], ages, groups, m', i, j);
      IndexOfUnique(ages, i);
      IndexOfUnique(groups, j);
      if i == i0 && j == j0 {
        assert m'[i][j] == m[i][j] + TotalTransfers(r);
      } else {
        assert m'[i][j] == m[i][j];
        assert r.age != ages[i] || r.group != groups[j];
      }
    }
  }

  /** Adding `d` to one cell adds `d` to the grand total. */
  lemma AddAtTotal(m: Matrix, i: nat, j: nat, d: real)
    requires i < |m| && j < |m[i]|
    ensures Total(AddAt(m, i, j, d)) == Total(m) + d
  {
    var r := AddAt(m, i, j, d);
    var rs := RowSums(r);
    var ms := RowSums(m);
    SumUpdate(m[i], j, d);
    SumUpdate(ms, i, d);
    assert rs == ms[i := ms[i] + d];
  }

  lemma {:induction false} AccumulateTotal(rs: seq<Record>, ages: seq<int>, groups: seq<int>, m: Matrix)
    requires IsShape(m, |ages|, |groups|)
    requires Labelled(rs, ages, groups)
    requires forall k :: 0 <= k < |rs| ==> Included(rs[k])
    ensures Total(Accumulate(rs, ages, groups, m)) == Total(m) + IncludedTotal(rs)
  {
    if |rs| != 0 {
      var r := rs[0];
      var m' := AddAt(m, IndexOf(ages, r.age), IndexOf(groups, r.group), TotalTransfers(r));
      AddAtTotal(m, IndexOf(ages, r.age), IndexOf(groups, r.group), TotalTransfers(r));
      AccumulateTotal(rs[1..], ages, groups, m');
    }
  }

  lemma ZeroMatrixTotal(rows: nat, cols: nat)
    ensures Total(ZeroMatrix(rows, cols)) == 0.0
  {
    var z := ZeroMatrix(rows, cols);
    SumOfZeros(RowSums(z));
  }

  /** Cell `(i, j)` of the pivot is the summed transfers of the included
      records with the row's age and the column's group. */
  lemma PivotCells(rs: seq<Record>)
    ensures var p := PivotSum(rs);
      forall i, j :: 0 <= i < |p.ages| && 0 <= j < |p.groups| ==>
        p.cells[i][j] == CellSum(rs, p.ages[i], p.groups[j])
  {
    var p := PivotSum(rs);
    var f := Select(rs);
    LabelsCover(f);
    forall i, j | 0 <= i < |p.ages| && 0 <= j < |p.groups|
      ensures p.cells[i][j] == CellSum(rs, p.ages[i], p.groups[j])
    {
      AccumulateCell(f, p.ages, p.groups, ZeroMatrix(|p.ages|, |p.groups|), i, j);
      CellSumOfSelect(rs, p.ages[i], p.groups[j]);
    }
  }

  /** The pivot's grand total is the transfers of all included records:
      every included record lands in exactly one cell. */
  lemma PivotTotal(rs: seq<Record>)
    ensures Total(PivotSum(rs).cells) == IncludedTotal(rs)
  {
    var p := PivotSum(rs);
    var f := Select(rs);
    LabelsCover(f);
    ZeroMatrixTotal(|p.ages|, |p.groups|);
    AccumulateTotal(f, p.ages, p.groups, ZeroMatrix(|p.ages|, |p.groups|));
    IncludedTotalOfSelect(rs);
  }

  /** A record is among the selected ones exactly when it is an included
      record of the input. */
  lemma InSelect(rs: seq<Record>, r: Record)
    ensures r in Select(rs) <==> r in rs && Included(r)
  {
    SelectMultiplicity(rs, r);
    assert r in Select(rs) <==> multiset(Select(rs))[r] > 0;
    assert r in rs <==> multiset(rs)[r] > 0;
  }

  /** The row labels are exactly the ages of the included records. */
  lemma PivotAgeLabels(rs: seq<Record>, a: int)
    ensures a in PivotSum(rs).ages <==> exists r :: r in rs && Included(r) && r.age == a
  {
    var f := Select(rs);
    LabelsMembership(AgesOf(f), a);
    if a in AgesOf(f) {
      var k :| 0 <= k < |f| && AgesOf(f)[k] == a;
      InSelect(rs, f[k]);
    }
    if exists r :: r in rs && Included(r) && r.age == a {
      var r :| r in rs && Included(r) && r.age == a;
      InSelect(rs, r);
      var k :| 0 <= k < |f| && f[k] == r;
      assert AgesOf(f)[k] == a;
    }
  }

  /** The column labels are exactly the groups of the included records. */
  lemma PivotGroupLabels(rs: seq<Record>, g: int)
    ensures g in PivotSum(rs).groups <==> exists r :: r in rs && Included(r) && r.group == g
  {
    var f := Select(rs);
    LabelsMembership(GroupsOf(f), g);
    if g in GroupsOf(f) {
      var k :| 0 <= k < |f| && GroupsOf(f)[k] == g;
      InSelect(rs, f[k]);
    }
    if exists r :: r in rs && Included(r) && r.group == g {
      var r :| r in rs && Included(r) && r.group == g;
      InSelect(rs, r);
      var k :| 0 <= k < |f| && f[k] == r;
      assert GroupsOf(f)[k] == g;
    }
  }

  lemma {:induction false} CellSumAbsent(rs: seq<Record>, a: int, g: int)
    requires forall r :: r in rs && Included(r) ==> r.age != a || r.group != g
    ensures CellSum(rs, a, g) == 0.0
  {
    if |rs| != 0 {
      assert rs[0] in rs;
      assert forall r :: r in rs[1..] ==> r in rs;
      CellSumAbsent(rs[1..], a, g);
    }
  }

  /** A cell whose age and group no included record combines holds 0: the
      `fillna(value=0)` of `get_transfer_matrix` (line 176). */
  lemma PivotAbsentCell(rs: seq<Record>, i: nat, j: nat)
    requires i < |PivotSum(rs).ages| && j < |PivotSum(rs).groups|
    requires forall r :: r in rs && Included(r) ==>
      r.age != PivotSum(rs).ages[i] || r.group != PivotSum(rs).groups[j]
    ensures PivotSum(rs).cells[i][j] == 0.0
  {
    PivotCells(rs);
    CellSumAbsent(rs, PivotSum(rs).ages[i], PivotSum(rs).groups[j]);
  }

  /** A record from before 1988 changes nothing, wherever it sits. */
  lemma EarlyRecordIgnored(before: seq<Record>, r: Record, after: seq<Record>)
    requires r.year < FirstYear
    ensures PivotSum(before + [r] + after) == PivotSum(before + after)
  {
    SelectConcat(before + [r], after);
    SelectConcat(before, [r]);
    SelectConcat(before, after);
    assert Select([r]) == [];
    assert Select(before + [r] + after) == Select(before + after);
  }

  lemma {:induction false} CellSumNonNegative(rs: seq<Record>, a: int, g: int)
    requires TransfersNonNegative(rs)
    ensures 0.0 <= CellSum(rs, a, g)
  {
    if |rs| != 0 {
      CellSumNonNegative(rs[1..], a, g);
    }
  }

  /** The pivot's cells are the reference table over its own labels. */
  lemma PivotIsCellTable(rs: seq<Record>)
    ensures var q := PivotSum(rs);
      q.cells == CellTable(rs, q.ages, q.groups)
  {
    var q := PivotSum(rs);
    var c := CellTable(rs, q.ages, q.groups);
    PivotCells(rs);
    forall i | 0 <= i < |q.ages|
      ensures q.cells[i] == c[i]
    {
      assert forall j :: 0 <= j < |q.groups| ==> q.cells[i][j] == c[i][j];
    }
  }

  /** Non-negative transfers give a non-negative pivot. */
  lemma PivotNonNegative(rs: seq<Record>)
    ensures TransfersNonNegative(rs) ==> NonNegativeMatrix(PivotSum(rs).cells)
  {
    if TransfersNonNegative(rs) {
      var q := PivotSum(rs);
      PivotCells(rs);
      forall i, j | 0 <= i < |q.cells| && 0 <= j < |q.cells[i]|
        ensures 0.0 <= q.cells[i][j]
      {
        CellSumNonNegative(rs, q.ages[i], q.groups[j]);
      }
    }
  }

  /** A one-cell matrix divided by its own non-zero entry is `[[1.0]]`. */
  lemma SingleCellDivide(t: real)
    requires t != 0.0
    ensures DivideAll([[t]], t) == [[1.0]]
  {
    var d := DivideAll([[t]], t);
    assert |d| == 1 && |d[0]| == 1;
    assert d[0][0] == t / t;
    OneOver(t);
    assert d[0] == [1.0];
  }

  /** Two included records of the same age and group, next to a record from
      before 1988, give a single cell holding the whole share. */
  lemma SingleCellExample(x: Record, y: Record, early: Record)
    requires Included(x) && Included(y) && !Included(early)
    requires x.age == y.age && x.group == y.group
    requires TotalTransfers(x) + TotalTransfers(y) != 0.0
    ensures IncludedTotal([x, y, early]) == TotalTransfers(x) + TotalTransfers(y)
    ensures TransferMatrix([x, y, early]) == Pivot([x.age], [x.group], [[1.0]])
  {
    var rs := [x, y, early];
    var t := TotalTransfers(x) + TotalTransfers(y);
    ExampleSelectAndLabels(x, y, early);
    var q := PivotSum(rs);
    assert q.ages == [x.age] && q.groups == [x.group];
    assert ZeroMatrix(1, 1) == [[0.0]] by {
      assert Zeros(1) == [0.0];
    }
    ExampleAccumulate(x, y);
    assert q.cells == [[t]];
    ExampleTotal(x, y, early);
    var p := TransferMatrix(rs);
    ScaledUnique(p.cells, [[t]], t);
    SingleCellDivide(t);
  }

  lemma ExampleSelectAndLabels(x: Record, y: Record, early: Record)
    requires Included(x) && Included(y) && !Included(early)
    requires x.age == y.age && x.group == y.group
    ensures Select([x, y, early]) == [x, y]
    ensures AgesOf([x, y]) == [x.age, x.age]
    ensures GroupsOf([x, y]) == [x.group, x.group]
    ensures Labels([x.age, x.age]) == [x.age] && Labels([x.group, x.group]) == [x.group]
  {
    var rs := [x, y, early];
    assert rs[1..][1..] == [early];
    assert [early][1..] == [];
    assert Select([early]) == [];
    assert Select(rs[1..]) == [y] + Select(rs[1..][1..]);
    assert Select(rs) == [x] + Select(rs[1..]);
    var f := [x, y];
    assert AgesOf(f) == [AgesOf(f)[0], AgesOf(f)[1]];
    assert GroupsOf(f) == [GroupsOf(f)[0], GroupsOf(f)[1]];
    LabelsOfPair(x.age);
    LabelsOfPair(x.group);
  }

  lemma ExampleTotal(x: Record, y: Record, early: Record)
    requires Included(x) && Included(y) && !Included(early)
    ensures IncludedTotal([x, y, early]) == TotalTransfers(x) + TotalTransfers(y)
  {
    assert [x, y, early][1..] == [y, early];
    assert [y, early][1..] == [early];
    assert [early][1..] == [];
    assert IncludedTotal([early]) == 0.0;
    assert IncludedTotal([y, early]) == TotalTransfers(y);
  }

  /** A value occurring twice gives a single label. */
  lemma LabelsOfPair(v: int)
    ensures Labels([v, v]) == [v]
  {
    assert [v, v][1..] == [v];
    assert [v][1..] == [];
    assert Labels([v]) == Insert([], v);
  }

  lemma ExampleAccumulate(x: Record, y: Record)
    requires x.age == y.age && x.group == y.group
    ensures Accumulate([x, y], [x.age], [x.group], [[0.0]])
         == [[TotalTransfers(x) + TotalTransfers(y)]]
  {
    var f := [x, y];
    var a := [x.age];
    var g := [x.group];
    assert IndexOf(a, x.age) == 0 && IndexOf(g, x.group) == 0;
    var m1 := AddAt([[0.0]], 0, 0, TotalTransfers(x));
    assert [0.0][0 := 0.0 + TotalTransfers(x)] == [TotalTransfers(x)];
    assert m1 == [[TotalTransfers(x)]];
    var m2 := AddAt(m1, 0, 0, TotalTransfers(y));
    assert [TotalTransfers(x)][0 := TotalTransfers(x) + TotalTransfers(y)]
        == [TotalTransfers(x) + TotalTransfers(y)];
    assert m2 == [[TotalTransfers(x) + TotalTransfers(y)]];
    assert f[1..] == [y] && f[1..][1..] == [];
    assert Accumulate(f, a, g, [[0.0]]) == Accumulate(f[1..], a, g, m1);
    assert Accumulate(f[1..], a, g, m1) == Accumulate(f[1..][1..], a, g, m2);
  }
}

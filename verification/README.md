# Transfer distribution: the deterministic core

This project models the arithmetic of `ogva/transfer_distribution.py` that
surrounds its kernel density estimate. That module turns survey records of
transfer income into an age by lifetime-income-group matrix of shares, and
then smooths that matrix.

- **Aggregation** (`get_transfer_matrix`). Each record's `total_transfers`
  is the sum of its two transfer components. Records from survey year 1988
  on are pivoted into a table: one row per observed age, one column per
  observed lifetime-income group, each cell holding the summed transfers of
  its records, and 0 where there are none (`fillna`). The table is then
  divided by its grand total. Module `Aggregation`.
- **Marginals** (`MVKDE`). The proportion matrix is summed along each axis.
  This gives an age marginal with one entry per pivot row and an income
  marginal with one entry per pivot column. Modules `Matrices` and
  `Smoother`.
- **Pseudo-observations** (`MVKDE`).
  - The proportion matrix is non-negative and sums to 1, as the `MVKDE`
    docstring describes it (`Smoother.IsProportions`); its marginals are
    then probability vectors.
  - One multinomial draw of 70000 trials is taken per marginal. The model
    takes each draw as an input (`Smoother.IsDraw`): one count per
    category, 70000 in all, and no count in a category of probability zero.
    numpy gives the last category whatever probability the others leave;
    for a marginal summing to 1 that is its own entry, so the rule holds
    for every category.
  - Row category `s` becomes age `18 + s`, and column category `j` becomes
    ability type `1 + j`. Each is written out as many times as it was
    drawn, in category order (module `Expansion`).
  - The two lists are paired position by position (`np.vstack(...).T`).
    Both hold 70000 values, so the pairing is always defined.
  - The minimum and maximum of each column are the corners of the
    evaluation grid.
- **Rescale** (`MVKDE`). The density evaluated on the grid is divided by
  its total. The density itself is an input.

Reals stand for floating-point numbers and are exact here. So "sums to 1"
is an exact statement about the model. The module `Sums` holds the finite
sums everything is built from.

Several division results are stated with the predicate
`Matrices.ScaledBy(r, m, t)`. It says that `r` has the shape of `m` and
that every entry of `r`, multiplied by `t`, gives the matching entry of
`m`. In other words, `r` is `m` divided by `t`.

The docstrings promise a matrix of `MVKDE`'s parameters `S` by `J`
(ogva/transfer_distribution.py:20-22 and 82-83), and `get_transfer_matrix`
calls `MVKDE(80, 7, ...)` (lines 184-186). The code differs as follows, and
the model follows the code:

- The pivot's rows and columns are the ages and groups that actually
  occur in the included records. They are not a fixed 18..97 by 1..7
  range, and no missing row or column is added.
- `MVKDE` numbers row categories 18, 19, ... by position, whatever ages
  label the pivot's rows. The `S` and `J` it is called with (80 and 7)
  shape only the evaluation grid. The expansion uses the matrix's own
  shape.
- The code raises no error of its own. An empty selection, or one whose
  transfers total zero, would divide by zero in pandas. The model makes a
  non-zero grand total a precondition.

## Model

| member | source | states |
|---|---|---|
| Aggregation.TotalTransfers | ogva/transfer_distribution.py:109-112 | a record's `total_transfers` is the sum of its two transfer components, non-negative when both are |
| Aggregation.Select | ogva/transfer_distribution.py:169 | every record kept by the year filter is from 1988 or later |
| Aggregation.SelectMultiplicity | ogva/transfer_distribution.py:169 | a record survives the filter exactly when its year is at least 1988, and then as often as it occurs in the input |
| Aggregation.EarlyRecordIgnored | ogva/transfer_distribution.py:168-176 | inserting a pre-1988 record anywhere in the input leaves the pivot table unchanged |
| Aggregation.Labels | ogva/transfer_distribution.py:168-174 | the pivot's index of a column is strictly increasing, so labels are sorted and distinct |
| Aggregation.LabelsMembership | ogva/transfer_distribution.py:168-174 | a value is a label exactly when it occurs in the column |
| Aggregation.PivotSum | ogva/transfer_distribution.py:168-176 | the pivot has sorted distinct row and column labels, and one cell per (age, group) label pair |
| Aggregation.PivotAgeLabels | ogva/transfer_distribution.py:168-174 | an age is a row label exactly when some included record has that age |
| Aggregation.PivotGroupLabels | ogva/transfer_distribution.py:168-174 | a group is a column label exactly when some included record is in that group |
| Aggregation.PivotCells | ogva/transfer_distribution.py:168-176 | cell (i, j) equals the independently defined sum of `total_transfers` over the included records with the row's age and the column's group |
| Aggregation.Accumulate | ogva/transfer_distribution.py:168-174 | the group-by-and-sum fold over the included records keeps one cell per (age, group) label pair; what each cell receives is stated by AccumulateCell and AccumulateTotal |
| Aggregation.AccumulateCell | ogva/transfer_distribution.py:168-174 | group-by-and-sum adds to each cell exactly the transfers of the records with that cell's age and group |
| Aggregation.AccumulateTotal | ogva/transfer_distribution.py:168-174 | group-by-and-sum adds every record's transfers to the grand total exactly once |
| Aggregation.PivotAbsentCell | ogva/transfer_distribution.py:176 | a cell whose age and group no included record combines holds 0 |
| Aggregation.PivotTotal | ogva/transfer_distribution.py:168-178 | the pivot's grand total is the summed transfers of all included records |
| Aggregation.PivotIsCellTable | ogva/transfer_distribution.py:168-176 | the whole pivot equals the reference table of cell sums over its own labels |
| Aggregation.PivotNonNegative | ogva/transfer_distribution.py:168-176 | whenever the transfers are non-negative, the pivot is non-negative |
| Aggregation.TransferMatrix | ogva/transfer_distribution.py:168-179 | the normalised matrix keeps the pivot's labels and shape; times the included grand total it gives back the pivot, and each share gives back the independently defined cell sum of its age and group; the ratio between any two cells is the pivot's; the shares sum to 1; with non-negative transfers and a positive total every share is non-negative |
| Aggregation.SingleCellExample | ogva/transfer_distribution.py:168-179 | two included records of the same age and group, next to any record from before 1988, give the single-cell matrix [[1.0]] labelled by that age and group, whatever the (non-zero) transfers |
| Matrices.RowSums | ogva/transfer_distribution.py:36 | the age marginal has one entry per row, entry s is the sum of row s, and the entries add up to the grand total |
| Matrices.ColSums | ogva/transfer_distribution.py:35 | the income marginal has one entry per column (all zero for a matrix without rows), entry j is the sum of column j, and the entries add up to the grand total |
| Matrices.MarginalsNonNegative | ogva/transfer_distribution.py:35-36 | the marginals of a non-negative matrix are non-negative |
| Smoother.MarginalsAreDistributions | ogva/transfer_distribution.py:35-38 | the marginals of a non-negative matrix summing to 1 are probability vectors with one entry per row and one per column of the matrix, as the multinomial draws need |
| Matrices.DivideAll | ogva/transfer_distribution.py:177-179 | entry-wise division by a non-zero total: multiplied back by it, each entry is the original one |
| Sums.DivideSum | ogva/transfer_distribution.py:177-178 | dividing every entry of a vector by t divides its sum by t |
| Matrices.DivideAllTotal | ogva/transfer_distribution.py:177-178 | dividing every entry by t divides the grand total by t |
| Matrices.Normalise | ogva/transfer_distribution.py:68 | dividing by the matrix's own non-zero total gives a matrix of the same shape, proportional to it, summing to 1 |
| Expansion.Repeat | ogva/transfer_distribution.py:46-47 | `np.ones(i)` multiplied by the category value: exactly i copies of that value |
| Expansion.Expand | ogva/transfer_distribution.py:43-57 | the expanded list has one value per draw, and each value names a category: it lies in base .. base + number of categories - 1 |
| Expansion.ExpandCounts | ogva/transfer_distribution.py:43-57 | the loop that appends one block of equal values per category, the value rising by one after each, yields the expansion, of length the number of draws |
| Expansion.ExpandMultiplicity | ogva/transfer_distribution.py:43-57 | value base + i occurs exactly counts[i] times, and no value outside the category range occurs |
| Expansion.ExpandMultiplicities | ogva/transfer_distribution.py:43-57 | the multiplicity statement for all categories and all out-of-range values at once |
| Expansion.ExpandNonDecreasing | ogva/transfer_distribution.py:43-57 | the expanded values come out in category order |
| Expansion.Min | ogva/transfer_distribution.py:61 | the minimum of a non-empty list is one of its elements and no element is smaller |
| Expansion.Max | ogva/transfer_distribution.py:62 | the maximum of a non-empty list is one of its elements and no element is larger |
| Expansion.FirstPositive | ogva/transfer_distribution.py:61 | for a draw with at least one trial, the first category drawn at least once; every earlier category has count 0 |
| Expansion.LastPositive | ogva/transfer_distribution.py:62 | for a draw with at least one trial, the last category drawn at least once; every later category has count 0 |
| Expansion.ExpandExtent | ogva/transfer_distribution.py:61-62 | the minimum and maximum of an expansion are base plus the first and base plus the last category drawn at least once |
| Smoother.IsDraw | ogva/transfer_distribution.py:37-38 | a possible multinomial outcome has one count per category; with at least one trial, some category of positive probability was drawn |
| Smoother.Stack | ogva/transfer_distribution.py:59 | two lists can be stacked exactly when their lengths agree, and then the two columns of the result are the two lists |
| Smoother.PseudoObservations | ogva/transfer_distribution.py:37-59 | the paired sample has 70000 rows; its first column is the age expansion from 18 and its second the ability expansion from 1 |
| Smoother.PseudoObservationsCounts | ogva/transfer_distribution.py:43-59 | age 18 + s occurs exactly as often as row s was drawn, and type 1 + j as often as column j; nothing outside 18 .. 17 + the number of pivot rows and 1 .. the number of pivot columns occurs |
| Smoother.PseudoObservationsOrdered | ogva/transfer_distribution.py:43-59 | both columns of the sample are in category order |
| Smoother.PseudoObservationsSupport | ogva/transfer_distribution.py:35-59 | every pseudo-observation lies in a row and a column of the proportion matrix with positive mass |
| Smoother.GridCorners | ogva/transfer_distribution.py:61-62 | the column minima and maxima of the sample are 18 plus the first and last drawn row, and 1 plus the first and last drawn column |
| Smoother.Rescale | ogva/transfer_distribution.py:68 | the rescaled estimate keeps the shape of the evaluation grid (`MVKDE`'s parameters `S` by `J`), sums to 1, times the estimate's total gives the estimate back, and is non-negative when the estimate is non-negative with a positive total |

## Left out

- The multinomial sampling (lines 37-38) is random. Each draw is an input, constrained by `Smoother.IsDraw` to the possible outcomes; its distribution is not modelled.
- The Gaussian kernel density fit and its evaluation (lines 60 and 66-67) are floating-point library code. The evaluated density enters `Smoother.Rescale` as an input matrix.
- The `np.mgrid` construction (lines 63-65) is not modelled beyond its corners (`Smoother.GridCorners`) and the shape of the estimate, which is `MVKDE`'s parameters `S` by `J`.
- Plotting (lines 69-76 and the `graphs` branch, lines 124-165) has no effect on the results.
- Creating the output directories (lines 85-94), reading the survey file (lines 104-106) and writing the result (lines 192-196) are I/O. The records enter as a sequence of `Aggregation.Record`, holding only the columns the aggregation reads.
- The `sum_transfers` column (lines 114-122) is computed but only plotted.
- Floating-point rounding is not modelled: reals are exact, so a total of 1 here is exact where the program gets a total near 1.
- Missing values are not modelled. pandas skips NaN amounts when summing and drops records whose age or group is NaN; the model has no NaN.
- Aggregation.TransferMatrix: requires the included grand total to be non-zero, because the program then divides by zero and yields infinities or NaN.
- Smoother.Rescale: requires the estimate's total to be non-zero for the same reason.
- numpy raises an error when an entry of a probability vector lies outside [0, 1] or when all entries but the last sum above 1. For any other vector that does not sum to 1 it gives the last category the leftover probability. Neither case is modelled: every member that takes a draw requires a proportion matrix (`Smoother.IsProportions`). Its marginals are valid probability vectors (`Smoother.MarginalsAreDistributions`), and the only caller passes such a matrix up to rounding (lines 177-179 and 184-187).

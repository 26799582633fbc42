/**
 * `prepare_features`: from the merged table, the binary `HighSales` label (sales
 * strictly above the median of the sales of the rows passed in) and the two-column
 * feature matrix `CompetitionDistance`, `Promo2SinceWeek` with missing values set
 * to zero.
 */
module DataUtils {
  import opened Wrappers
  import opened Stats
  import opened Records

  /** One row of the feature matrix X: exactly the two selected columns, neither of them missing. */
  datatype FeatureRow = FeatureRow(competitionDistance: real, promo2SinceWeek: real)

  /** The `Sales` column of the table, as numbers. */
  function SalesColumn(rows: seq<MergedRow>): (s: seq<real>)
    ensures |s| == |rows|
    ensures forall i :: 0 <= i < |rows| ==> s[i] == rows[i].day.sales as real
  {
    seq(|rows|, i requires 0 <= i < |rows| => rows[i].day.sales as real)
  }

  /**
   * The `HighSales` label of scripts/data_utils.py:20: 1 where the row's sales
   * exceed the median of the sales of these rows, 0 elsewhere (the median of no
   * rows is NaN, and nothing exceeds NaN).
   */
  function HighSales(rows: seq<MergedRow>): (y: seq<int>)
    ensures |y| == |rows|
  {
    var m := Median(SalesColumn(rows));
    seq(|rows|, i requires 0 <= i < |rows| =>
      if m.Some? && rows[i].day.sales as real > m.value then 1 else 0)
  }

  /** One cell zero-filled: a missing value becomes 0. */
  function ZeroFilled(v: Option<real>): real {
    v.GetOr(0.0)
  }

  /** The feature matrix X of scripts/data_utils.py:21: the two numeric columns, missing values set to 0. */
  function ZeroFilledFeatures(rows: seq<MergedRow>): (x: seq<FeatureRow>)
    ensures |x| == |rows|
  {
    seq(|rows|, i requires 0 <= i < |rows| =>
      FeatureRow(ZeroFilled(rows[i].competitionDistance), ZeroFilled(rows[i].promo2SinceWeek)))
  }

  /**
   * `prepare_features`: the feature matrix and the label column. The table is a
   * value, so the caller's table is left as it was (the source works on a copy).
   */
  function PrepareFeatures(rows: seq<MergedRow>): (xy: (seq<FeatureRow>, seq<int>))
    ensures |xy.0| == |rows| && |xy.1| == |rows|
  {
    (ZeroFilledFeatures(rows), HighSales(rows))
  }

  /** The number of ones in a label column. */
  function CountOnes(y: seq<int>): (n: nat)
    ensures n <= |y|
  {
    if y == [] then 0 else (if y[0] == 1 then 1 else 0) + CountOnes(y[1..])
  }

  /**
   * Each label is 0 or 1, and it is 1 exactly when the row's sales are strictly
   * above the median of all the rows' sales; a row at the median gets 0.
   */
  lemma HighSalesMeaning(rows: seq<MergedRow>, i: int)
    requires 0 <= i < |rows|
    ensures HighSales(rows)[i] == 0 || HighSales(rows)[i] == 1
    ensures Median(SalesColumn(rows)).Some?
    ensures HighSales(rows)[i] == 1 <==> rows[i].day.sales as real > Median(SalesColumn(rows)).value
  {
  }

  /** Labels follow sales: a row with at least the sales of another has at least its label. */
  lemma HighSalesMonotone(rows: seq<MergedRow>, i: int, j: int)
    requires 0 <= i < |rows| && 0 <= j < |rows|
    requires rows[i].day.sales <= rows[j].day.sales
    ensures HighSales(rows)[i] <= HighSales(rows)[j]
  {
  }

  lemma {:induction false} CountOnesIsCountAbove(rows: seq<MergedRow>, m: real, y: seq<int>)
    requires |y| == |rows|
    requires forall i :: 0 <= i < |rows| ==> y[i] == (if rows[i].day.sales as real > m then 1 else 0)
    ensures CountOnes(y) == CountAbove(SalesColumn(rows), m)
  {
    if rows != [] {
      CountOnesIsCountAbove(rows[1..], m, y[1..]);
      assert SalesColumn(rows)[1..] == SalesColumn(rows[1..]);
    }
  }

  /** At most half of the rows are labelled 1, whatever the sales. */
  lemma HighSalesAtMostHalf(rows: seq<MergedRow>)
    ensures CountOnes(HighSales(rows)) <= |rows| / 2
  {
    if rows != [] {
      var m := Median(SalesColumn(rows)).value;
      CountOnesIsCountAbove(rows, m, HighSales(rows));
      MedianSplitsInHalf(SalesColumn(rows));
    }
  }

  /** Sales 10, 20, 30, 40 have median 25 and get the labels 0, 0, 1, 1. */
  lemma HighSalesExample(rows: seq<MergedRow>)
    requires |rows| == 4
    requires rows[0].day.sales == 10 && rows[1].day.sales == 20
    requires rows[2].day.sales == 30 && rows[3].day.sales == 40
    ensures HighSales(rows) == [0, 0, 1, 1]
  {
    MedianOfEvenExample(SalesColumn(rows));
  }

  /**
   * The threshold is relative to the rows passed in: the last two of the rows
   * above, passed alone, have median 35, and the day with sales 30 becomes 0.
   */
  lemma HighSalesOfSubsetExample(rows: seq<MergedRow>)
    requires |rows| == 4
    requires rows[0].day.sales == 10 && rows[1].day.sales == 20
    requires rows[2].day.sales == 30 && rows[3].day.sales == 40
    ensures HighSales(rows)[2] == 1 && HighSales(rows[2..])[0] == 0
  {
    HighSalesExample(rows);
    var sub := SalesColumn(rows[2..]);
    SortOfSorted(sub);
    MedianOfSorted(sub, sub, 1);
  }

  /** In X, a present value is kept and a missing one becomes 0, column by column, row by row. */
  lemma ZeroFilledFeaturesMeaning(rows: seq<MergedRow>, i: int)
    requires 0 <= i < |rows|
    ensures rows[i].competitionDistance.Some? ==>
              ZeroFilledFeatures(rows)[i].competitionDistance == rows[i].competitionDistance.value
    ensures rows[i].competitionDistance.None? ==> ZeroFilledFeatures(rows)[i].competitionDistance == 0.0
    ensures rows[i].promo2SinceWeek.Some? ==>
              ZeroFilledFeatures(rows)[i].promo2SinceWeek == rows[i].promo2SinceWeek.value
    ensures rows[i].promo2SinceWeek.None? ==> ZeroFilledFeatures(rows)[i].promo2SinceWeek == 0.0
  {
  }

  /** `[null, 5]` in `Promo2SinceWeek` becomes `[0, 5]`: zero-fill, not median-fill. */
  lemma ZeroFillExample(rows: seq<MergedRow>)
    requires |rows| == 2 && rows[0].promo2SinceWeek == None && rows[1].promo2SinceWeek == Some(5.0)
    ensures ZeroFilledFeatures(rows)[0].promo2SinceWeek == 0.0
    ensures ZeroFilledFeatures(rows)[1].promo2SinceWeek == 5.0
  {
  }

  /**
   * X and y are aligned with the table: same length, and row `i` of each is
   * computed from row `i` of the table alone (given the median of the sales).
   */
  lemma PrepareFeaturesAligned(rows: seq<MergedRow>, i: int)
    requires 0 <= i < |rows|
    ensures PrepareFeatures(rows).0[i] == ZeroFilledFeatures([rows[i]])[0]
    ensures PrepareFeatures(rows).1[i] == 1 <==> rows[i].day.sales as real > Median(SalesColumn(rows)).value
  {
  }
}

/**
 * The Feature Engineering page: it loads the merged table, fills the missing
 * `CompetitionDistance` values in place with the median of the present ones,
 * one-hot encodes `StoreType` and `Assortment`, and zero-fills the two numeric
 * columns that it hands to the scaler.
 */
module FeatureEngineering {
  import opened Wrappers
  import opened Stats
  import opened Records
  import opened DataUtils
  import opened Categories

  // ---------------------------------------------------------------------------
  // Median imputation of CompetitionDistance
  // ---------------------------------------------------------------------------

  /** The rows of `rows` whose `CompetitionDistance` is present and equal to `v`. */
  function RowsWithDistance(rows: seq<MergedRow>, v: real): set<int> {
    set i | 0 <= i < |rows| && rows[i].competitionDistance == Some(v)
  }

  /** The rows of `rows` whose `CompetitionDistance` is present. */
  function RowsWithSomeDistance(rows: seq<MergedRow>): set<int> {
    set i | 0 <= i < |rows| && rows[i].competitionDistance.Some?
  }

  /** Splitting off the last row splits the sets of rows with a present distance. */
  lemma RowsSplitAtLast(rows: seq<MergedRow>)
    requires rows != []
    ensures var n := |rows| - 1;
      && RowsWithSomeDistance(rows) ==
           RowsWithSomeDistance(rows[..n]) + (if rows[n].competitionDistance.Some? then {n} else {})
      && forall v :: RowsWithDistance(rows, v) ==
           RowsWithDistance(rows[..n], v) + (if rows[n].competitionDistance == Some(v) then {n} else {})
  {
  }

  /** What `PresentDistances` promises: `d` holds the present distances of `rows`, each as often as it occurs. */
  ghost predicate HoldsPresentDistances(rows: seq<MergedRow>, d: seq<real>) {
    && (forall v :: multiset(d)[v] == |RowsWithDistance(rows, v)|)
    && |d| == |RowsWithSomeDistance(rows)|
  }

  /** Appending the last row's distance, when present, extends the promise from all rows but the last to all rows. */
  lemma AppendLastDistance(rows: seq<MergedRow>, init: seq<real>)
    requires rows != [] && HoldsPresentDistances(rows[..|rows| - 1], init)
    ensures var last := rows[|rows| - 1].competitionDistance;
      HoldsPresentDistances(rows, if last.Some? then init + [last.value] else init)
  {
    RowsSplitAtLast(rows);
  }

  /** A value is among the present distances exactly when some row holds it. */
  lemma PresentDistancesMembership(rows: seq<MergedRow>, d: seq<real>)
    requires HoldsPresentDistances(rows, d)
    ensures forall v :: v in d <==> exists i :: 0 <= i < |rows| && rows[i].competitionDistance == Some(v)
    ensures (exists i :: 0 <= i < |rows| && rows[i].competitionDistance.Some?) ==> d != []
  {
    forall v ensures v in d <==> exists i :: 0 <= i < |rows| && rows[i].competitionDistance == Some(v) {
      assert v in d <==> multiset(d)[v] > 0;
      if exists i :: 0 <= i < |rows| && rows[i].competitionDistance == Some(v) {
        var i :| 0 <= i < |rows| && rows[i].competitionDistance == Some(v);
        assert i in RowsWithDistance(rows, v);
      }
    }
    if exists i :: 0 <= i < |rows| && rows[i].competitionDistance.Some? {
      var i :| 0 <= i < |rows| && rows[i].competitionDistance.Some?;
      assert i in RowsWithSomeDistance(rows);
    }
  }

  /**
   * The present `CompetitionDistance` values in row order, NaN skipped, as the
   * median sees them: each value occurs as often as there are rows holding it,
   * and there are as many values as rows with a distance.
   */
  function PresentDistances(rows: seq<MergedRow>): (d: seq<real>)
    ensures forall v :: multiset(d)[v] == |RowsWithDistance(rows, v)|
    ensures |d| == |RowsWithSomeDistance(rows)|
    ensures forall v :: v in d <==> exists i :: 0 <= i < |rows| && rows[i].competitionDistance == Some(v)
    ensures (exists i :: 0 <= i < |rows| && rows[i].competitionDistance.Some?) ==> d != []
  {
    if rows == [] then
      PresentDistancesMembership(rows, []);
      []
    else
      var init := PresentDistances(rows[..|rows| - 1]);
      var last := rows[|rows| - 1].competitionDistance;
      var d := if last.Some? then init + [last.value] else init;
      AppendLastDistance(rows, init);
      PresentDistancesMembership(rows, d);
      d
  }

  /** The column's fill value: the median of the present distances, NaN (`None`) when there are none. */
  function DistanceMedian(rows: seq<MergedRow>): Option<real> {
    Median(PresentDistances(rows))
  }

  /**
   * The imputation of pages/03_Feature_Engineering.py:19 as a value: every missing
   * distance becomes the median of the present ones; with no present distance the
   * fill value is NaN and the table is unchanged.
   */
  function MedianImputed(rows: seq<MergedRow>): (r: seq<MergedRow>)
    ensures |r| == |rows|
  {
    match DistanceMedian(rows)
    case None => rows
    case Some(m) =>
      seq(|rows|, i requires 0 <= i < |rows| =>
        rows[i].(competitionDistance := Some(rows[i].competitionDistance.GetOr(m))))
  }

  /** Once any distance is present, none is missing after imputation. */
  lemma MedianImputedLeavesNoMissing(rows: seq<MergedRow>)
    requires exists i :: 0 <= i < |rows| && rows[i].competitionDistance.Some?
    ensures forall i :: 0 <= i < |rows| ==> MedianImputed(rows)[i].competitionDistance.Some?
  {
  }

  /** With every distance missing, the fill value is NaN and imputation changes nothing. */
  lemma MedianImputedAllMissing(rows: seq<MergedRow>)
    requires forall i :: 0 <= i < |rows| ==> rows[i].competitionDistance.None?
    ensures MedianImputed(rows) == rows
  {
    AllMissingHasNoPresent(rows);
  }

  /** With no distance present there is nothing to take the median of: follows from the count of present rows. */
  lemma AllMissingHasNoPresent(rows: seq<MergedRow>)
    requires forall i :: 0 <= i < |rows| ==> rows[i].competitionDistance.None?
    ensures PresentDistances(rows) == []
  {
  }

  /**
   * Imputation touches only the missing distances: each of them becomes the median
   * of the distances present before filling, a present distance keeps its value,
   * and every other column of every row is as it was.
   */
  lemma MedianImputedChangesOnlyMissing(rows: seq<MergedRow>, i: int)
    requires 0 <= i < |rows|
    ensures MedianImputed(rows)[i] == rows[i].(competitionDistance := MedianImputed(rows)[i].competitionDistance)
    ensures rows[i].competitionDistance.Some? ==> MedianImputed(rows)[i].competitionDistance == rows[i].competitionDistance
    ensures rows[i].competitionDistance.None? && DistanceMedian(rows).Some? ==>
              MedianImputed(rows)[i].competitionDistance == DistanceMedian(rows)
  {
  }

  /** Imputing twice is imputing once: after the first pass nothing is missing, or nothing can be filled. */
  lemma MedianImputedIdempotent(rows: seq<MergedRow>)
    ensures MedianImputed(MedianImputed(rows)) == MedianImputed(rows)
  {
  }

  /** `[100, null, 300]` becomes `[100, 200, 300]`. */
  lemma MedianImputedExample(rows: seq<MergedRow>)
    requires |rows| == 3
    requires rows[0].competitionDistance == Some(100.0)
    requires rows[1].competitionDistance == None
    requires rows[2].competitionDistance == Some(300.0)
    ensures MedianImputed(rows)[0].competitionDistance == Some(100.0)
    ensures MedianImputed(rows)[1].competitionDistance == Some(200.0)
    ensures MedianImputed(rows)[2].competitionDistance == Some(300.0)
  {
    var d := PresentDistances(rows);
    assert rows[..2][..1] == rows[..1] && rows[..1][..0] == [];
    assert PresentDistances(rows[..1]) == [100.0];
    assert PresentDistances(rows[..2]) == [100.0];
    assert d == [100.0, 300.0];
    MedianOfPairExample(d);
  }

  /** The page's table, whose columns are updated in place. */
  class Frame {
    var rows: seq<MergedRow>

    constructor (rows: seq<MergedRow>)
      ensures this.rows == rows
    {
      this.rows := rows;
    }

    /**
     * The in-place fill of pages/03_Feature_Engineering.py:19: the missing distances
     * are replaced by the median of the present ones, and nothing else in the table
     * changes.
     */
    method FillCompetitionDistance()
      modifies this
      ensures |rows| == |old(rows)|
      ensures forall i :: 0 <= i < |rows| ==>
                rows[i] == old(rows)[i].(competitionDistance := rows[i].competitionDistance)
      ensures forall i :: 0 <= i < |rows| && old(rows)[i].competitionDistance.Some? ==>
                rows[i].competitionDistance == old(rows)[i].competitionDistance
      ensures forall i :: 0 <= i < |rows| && old(rows)[i].competitionDistance.None? && DistanceMedian(old(rows)).Some? ==>
                rows[i].competitionDistance == DistanceMedian(old(rows))
      ensures DistanceMedian(old(rows)).None? ==> rows == old(rows)
      ensures (exists i :: 0 <= i < |old(rows)| && old(rows)[i].competitionDistance.Some?) ==>
                forall i :: 0 <= i < |rows| ==> rows[i].competitionDistance.Some?
      ensures rows == MedianImputed(old(rows))
    {
      rows := MedianImputed(rows);
    }
  }

  // ---------------------------------------------------------------------------
  // One-hot encoding of StoreType and Assortment
  // ---------------------------------------------------------------------------

  /** The encoded table: column names and one row of 0/1 values per table row. */
  datatype Encoded = Encoded(columns: seq<string>, values: seq<seq<real>>)

  function StoreTypeColumn(rows: seq<MergedRow>): seq<Option<string>> {
    seq(|rows|, i requires 0 <= i < |rows| => rows[i].storeType)
  }

  function AssortmentColumn(rows: seq<MergedRow>): seq<Option<string>> {
    seq(|rows|, i requires 0 <= i < |rows| => rows[i].assortment)
  }

  /** How the encoder spells a category in a column name: the value itself, or `nan` for NaN. */
  function CategoryName(v: Option<string>): string {
    match v
    case Some(x) => x
    case None => "nan"
  }

  /**
   * The encoder's output names for one column: the column name, an underscore,
   * then the category's spelling, one name per category and in category order.
   */
  function FeatureNames(column: string, cats: seq<Option<string>>): (names: seq<string>)
    ensures |names| == |cats|
    ensures forall j :: 0 <= j < |cats| ==>
              |names[j]| > |column| && names[j][..|column| + 1] == column + "_"
    ensures forall j :: 0 <= j < |cats| && cats[j].Some? ==> names[j][|column| + 1..] == cats[j].value
    ensures forall j :: 0 <= j < |cats| && cats[j].None? ==> names[j][|column| + 1..] == "nan"
  {
    seq(|cats|, j requires 0 <= j < |cats| => column + "_" + CategoryName(cats[j]))
  }

  /** The indicator row of value `v` against categories `cats`: 1 at `v`'s category, 0 elsewhere. */
  function Indicator(cats: seq<Option<string>>, v: Option<string>): (bits: seq<real>)
    ensures |bits| == |cats|
  {
    seq(|cats|, j requires 0 <= j < |cats| => if cats[j] == v then 1.0 else 0.0)
  }

  /**
   * The dense encoding of `StoreType` and `Assortment` by an encoder fitted on the
   * same rows, with its output column names: every value has its category. This is
   * the transform alone; `FitOneHot` adds the fit's refusal of an empty table.
   */
  function OneHot(rows: seq<MergedRow>): (e: Encoded)
    ensures |e.values| == |rows|
  {
    var types := CategoriesOf(StoreTypeColumn(rows));
    var assortments := CategoriesOf(AssortmentColumn(rows));
    Encoded(
      FeatureNames("StoreType", types) + FeatureNames("Assortment", assortments),
      seq(|rows|, i requires 0 <= i < |rows| =>
        Indicator(types, rows[i].storeType) + Indicator(assortments, rows[i].assortment)))
  }

  /** The number of entries equal to 1. */
  function Ones(bits: seq<real>): (n: nat)
    ensures n <= |bits|
  {
    if bits == [] then 0 else (if bits[0] == 1.0 then 1 else 0) + Ones(bits[1..])
  }

  /** Against categories without repeats, the indicator of a listed value has exactly one 1. */
  lemma {:induction false} IndicatorHasOneOne(cats: seq<Option<string>>, v: Option<string>)
    requires Ascending(cats) && v in cats
    ensures Ones(Indicator(cats, v)) == 1
  {
    var bits := Indicator(cats, v);
    assert bits[1..] == Indicator(cats[1..], v);
    if cats[0] == v {
      BeforeIsStrictTotalOrder(v, v, v);
      IndicatorOfAbsent(cats[1..], v);
    } else {
      IndicatorHasOneOne(cats[1..], v);
    }
  }

  lemma {:induction false} IndicatorOfAbsent(cats: seq<Option<string>>, v: Option<string>)
    requires v !in cats
    ensures Ones(Indicator(cats, v)) == 0
  {
    if cats != [] {
      assert Indicator(cats, v)[1..] == Indicator(cats[1..], v);
      IndicatorOfAbsent(cats[1..], v);
    }
  }

  /**
   * The encoding of row `i`: as many entries as columns, one block per source
   * column; each block has exactly one 1, at the category of the row's value, and
   * every other entry is 0.
   */
  lemma OneHotRow(rows: seq<MergedRow>, i: int)
    requires 0 <= i < |rows|
    ensures var e, types, assortments := OneHot(rows), CategoriesOf(StoreTypeColumn(rows)), CategoriesOf(AssortmentColumn(rows));
      && |e.values[i]| == |e.columns| == |types| + |assortments|
      && e.values[i] == Indicator(types, rows[i].storeType) + Indicator(assortments, rows[i].assortment)
      && Ones(e.values[i][..|types|]) == 1
      && Ones(e.values[i][|types|..]) == 1
      && (forall j :: 0 <= j < |types| ==> (e.values[i][j] == 1.0 <==> types[j] == rows[i].storeType))
      && (forall j :: 0 <= j < |assortments| ==>
            (e.values[i][|types| + j] == 1.0 <==> assortments[j] == rows[i].assortment))
      && (forall j :: 0 <= j < |e.values[i]| ==> e.values[i][j] == 0.0 || e.values[i][j] == 1.0)
  {
    var types, assortments := CategoriesOf(StoreTypeColumn(rows)), CategoriesOf(AssortmentColumn(rows));
    var row := OneHot(rows).values[i];
    assert StoreTypeColumn(rows)[i] == rows[i].storeType;
    assert AssortmentColumn(rows)[i] == rows[i].assortment;
    assert row[..|types|] == Indicator(types, rows[i].storeType);
    assert row[|types|..] == Indicator(assortments, rows[i].assortment);
    IndicatorHasOneOne(types, rows[i].storeType);
    IndicatorHasOneOne(assortments, rows[i].assortment);
  }

  /**
   * The encoded columns are named block by block: first `StoreType_<category>` for
   * each `StoreType` category in order, then `Assortment_<category>` for each
   * `Assortment` category, NaN spelt `nan`.
   */
  lemma OneHotColumnNames(rows: seq<MergedRow>)
    ensures var e, types, assortments := OneHot(rows), CategoriesOf(StoreTypeColumn(rows)), CategoriesOf(AssortmentColumn(rows));
      && |e.columns| == |types| + |assortments|
      && (forall j :: 0 <= j < |types| ==> e.columns[j] == "StoreType_" + CategoryName(types[j]))
      && (forall j :: 0 <= j < |assortments| ==>
            e.columns[|types| + j] == "Assortment_" + CategoryName(assortments[j]))
  {
  }

  /** The encoded table has one column per distinct `StoreType` value plus one per distinct `Assortment` value. */
  lemma OneHotWidth(rows: seq<MergedRow>)
    ensures |OneHot(rows).columns| ==
              |set i | 0 <= i < |rows| :: rows[i].storeType| + |set i | 0 <= i < |rows| :: rows[i].assortment|
  {
    var st, asm := StoreTypeColumn(rows), AssortmentColumn(rows);
    CategoriesCount(st);
    CategoriesCount(asm);
    assert (set v | v in st) == (set i | 0 <= i < |rows| :: rows[i].storeType) by {
      forall v | v in st ensures v in (set i | 0 <= i < |rows| :: rows[i].storeType) {
        var i :| 0 <= i < |st| && st[i] == v;
      }
      forall i | 0 <= i < |rows| ensures rows[i].storeType in st {
        assert st[i] == rows[i].storeType;
      }
    }
    assert (set v | v in asm) == (set i | 0 <= i < |rows| :: rows[i].assortment) by {
      forall v | v in asm ensures v in (set i | 0 <= i < |rows| :: rows[i].assortment) {
        var i :| 0 <= i < |asm| && asm[i] == v;
      }
      forall i | 0 <= i < |rows| ensures rows[i].assortment in asm {
        assert asm[i] == rows[i].assortment;
      }
    }
  }

  /** Imputing distances does not change the encoding, which reads only the categorical columns. */
  lemma OneHotIgnoresImputation(rows: seq<MergedRow>)
    ensures OneHot(MedianImputed(rows)) == OneHot(rows)
  {
    var r := MedianImputed(rows);
    assert StoreTypeColumn(r) == StoreTypeColumn(rows);
    assert AssortmentColumn(r) == AssortmentColumn(rows);
  }

  /** Why fitting an encoder or a scaler fails: the table has no rows. */
  datatype FitError = NoSamples

  /**
   * Fitting the encoder and transforming (pages/03_Feature_Engineering.py:24-26):
   * it raises on a table without rows; otherwise every row is encoded and each of
   * the two source columns contributes at least one column.
   */
  function FitOneHot(rows: seq<MergedRow>): (r: Result<Encoded, FitError>)
    ensures r.Failure? <==> rows == []
    ensures r.Success? ==> r.value == OneHot(rows)
    ensures r.Success? ==>
              && |r.value.values| == |rows|
              && |r.value.columns| >= 2
              && (forall i :: 0 <= i < |rows| ==> Ones(r.value.values[i]) == 2)
  {
    if rows == [] then Failure(NoSamples)
    else
      OneHotNonEmpty(rows);
      Success(OneHot(rows))
  }

  /** On a non-empty table each block has a category, and each encoded row has two ones. */
  lemma OneHotNonEmpty(rows: seq<MergedRow>)
    requires rows != []
    ensures |OneHot(rows).columns| >= 2
    ensures forall i :: 0 <= i < |rows| ==> Ones(OneHot(rows).values[i]) == 2
  {
    var types, assortments := CategoriesOf(StoreTypeColumn(rows)), CategoriesOf(AssortmentColumn(rows));
    assert StoreTypeColumn(rows)[0] in types;
    assert AssortmentColumn(rows)[0] in assortments;
    forall i | 0 <= i < |rows| ensures Ones(OneHot(rows).values[i]) == 2 {
      OneHotRow(rows, i);
      var row := OneHot(rows).values[i];
      assert row == row[..|types|] + row[|types|..];
      OnesOfConcat(row[..|types|], row[|types|..]);
    }
  }

  lemma {:induction false} OnesOfConcat(a: seq<real>, b: seq<real>)
    ensures Ones(a + b) == Ones(a) + Ones(b)
  {
    if a != [] {
      assert (a + b)[1..] == a[1..] + b;
      OnesOfConcat(a[1..], b);
    } else {
      assert a + b == b;
    }
  }

  // ---------------------------------------------------------------------------
  // Scaler input
  // ---------------------------------------------------------------------------

  /** The two numeric columns, zero-filled, of the page's table after imputation (pages/03_Feature_Engineering.py:32). */
  function ScalerInput(rows: seq<MergedRow>): (x: seq<FeatureRow>)
    ensures |x| == |rows|
  {
    ZeroFilledFeatures(MedianImputed(rows))
  }

  /**
   * The scaler input is the feature matrix of `prepare_features` except where a
   * distance was missing and some distance was present: there it holds the median
   * of the present distances instead of 0. Present values are kept in both.
   */
  lemma ScalerInputVersusPrepareFeatures(rows: seq<MergedRow>, i: int)
    requires 0 <= i < |rows|
    ensures ScalerInput(rows)[i].promo2SinceWeek == PrepareFeatures(rows).0[i].promo2SinceWeek
    ensures rows[i].competitionDistance.Some? || DistanceMedian(rows).None? ==>
              ScalerInput(rows)[i] == PrepareFeatures(rows).0[i]
    ensures rows[i].competitionDistance.None? && DistanceMedian(rows).Some? ==>
              ScalerInput(rows)[i].competitionDistance == DistanceMedian(rows).value
  {
  }

  // ---------------------------------------------------------------------------
  // The page
  // ---------------------------------------------------------------------------

  /** What the page computes: the encoded categorical columns and the scaler's input. */
  datatype PageOutput = PageOutput(encoded: Encoded, scalerInput: seq<FeatureRow>)

  /**
   * The page's steps on the loaded tables: merge, impute in place, encode, and
   * build the scaler input. Without daily records the merged table is empty and
   * the encoder's fit raises, so the page stops before scaling. Otherwise, with
   * unique store ids, both outputs have one row per daily record.
   */
  method RunFeatureEngineering(train: seq<DailyRecord>, stores: seq<StoreRecord>)
    returns (out: Result<PageOutput, FitError>)
    ensures out.Failure? <==> train == []
    ensures out.Success? ==> out.value.encoded == OneHot(LeftMerge(train, stores))
    ensures out.Success? ==> out.value.scalerInput == ScalerInput(LeftMerge(train, stores))
    ensures out.Success? && UniqueStoreIds(stores) ==>
              |out.value.encoded.values| == |train| && |out.value.scalerInput| == |train|
  {
    var df := new Frame(LeftMerge(train, stores));
    df.FillCompetitionDistance();
    var fitted := FitOneHot(df.rows);
    if fitted.Failure? {
      return Failure(fitted.error);
    }
    OneHotIgnoresImputation(LeftMerge(train, stores));
    out := Success(PageOutput(fitted.value, ZeroFilledFeatures(df.rows)));
    if UniqueStoreIds(stores) {
      LeftMergeOneToOne(train, stores);
    }
  }
}

# Rossmann sales dashboard: data-preparation pipeline in Dafny

This project models the data preparation behind a Streamlit dashboard for the
Rossmann store-sales data. It covers three parts:

- **`load_data`** joins the daily sales records to the store metadata. This is a
  left join on `Store` (`scripts/data_utils.py`). `Records.LeftMerge` models it
  over sequences of rows, with pandas' fan-out when a store id appears twice.
- **`prepare_features`** (`scripts/data_utils.py`) works on a copy of the merged
  table. It derives the 0/1 `HighSales` label: 1 when a day's sales are strictly
  above the median sales of the rows passed in. It then selects
  `CompetitionDistance` and `Promo2SinceWeek` as the feature matrix X and
  zero-fills their missing values. The model takes the table as a value, so the
  caller's table cannot change, just as the copy on line 19 guarantees.
  `prepare_features` zero-fills `CompetitionDistance`; it does not impute the
  median. The model follows the code.
- **The Feature Engineering page** (`pages/03_Feature_Engineering.py`) does
  three things:
  - It fills missing `CompetitionDistance` values in place with the median of the
    present ones. This is modelled by the class `FeatureEngineering.Frame`, whose
    method updates the table's rows.
  - It one-hot encodes `StoreType` and `Assortment` with scikit-learn's encoder.
    Categories are the distinct values in ascending code-point order, with NaN as
    the last category. Columns are named `<column>_<category>`. Fitting the
    encoder on a table without rows raises an error, and the page stops there.
  - It zero-fills the two numeric columns it passes to the scaler.

Missing values (pandas NaN) are `Option.None`. Nullable numeric columns are
`Option<real>`, because pandas stores them as floats. pandas' `median()` skips
NaN, and the median of no values is NaN (`Median` returns `None`). Filling with a
NaN median changes nothing, and no sales figure exceeds NaN.

Modules: `Wrappers` (Option), `Stats` (sorting, median, counts above and below a
threshold), `Records` (rows and the left join), `DataUtils` (`prepare_features`),
`Categories` (the encoder's category order), `FeatureEngineering` (the page).

## Model

| member | source | states |
|---|---|---|
| Stats.Sort | scripts/data_utils.py:20 | the result is sorted ascending and is a permutation of the input (same multiset, same length) |
| Stats.Median | scripts/data_utils.py:20 | the median is missing (NaN) exactly when there are no values |
| Stats.MedianSplitsInHalf | scripts/data_utils.py:20 | at most half of the values lie strictly above the median and at most half strictly below it |
| Stats.MedianWithinRange | pages/03_Feature_Engineering.py:19 | the median lies between the smallest and the largest value |
| Stats.MedianOfEvenExample | scripts/data_utils.py:20 | with an even count the two middle values are averaged: 10, 20, 30, 40 give 25 |
| Stats.MedianOfPairExample | pages/03_Feature_Engineering.py:19 | the present distances 100 and 300 have median 200 |
| Records.LeftMerge | scripts/data_utils.py:10 | the left join never has fewer rows than there are daily records |
| Records.LeftMergeOneToOne | scripts/data_utils.py:10 | with unique store ids, row i of the join is daily record i unchanged, joined with its store's metadata, or with all metadata missing when no store has its id |
| Records.DuplicateStoreFansOut | scripts/data_utils.py:10 | two metadata rows with the same id turn one daily record into two merged rows, in metadata order |
| DataUtils.HighSales | scripts/data_utils.py:20 | one label per row |
| DataUtils.HighSalesMeaning | scripts/data_utils.py:20 | every label is 0 or 1, and it is 1 iff the row's sales are strictly above the median sales of the rows passed in, so a row at the median gets 0 |
| DataUtils.HighSalesMonotone | scripts/data_utils.py:20 | a row with at least another row's sales has at least its label |
| DataUtils.HighSalesAtMostHalf | scripts/data_utils.py:20 | at most half of the rows are labelled 1 |
| DataUtils.HighSalesExample | scripts/data_utils.py:20 | sales 10, 20, 30, 40 get labels 0, 0, 1, 1 |
| DataUtils.HighSalesOfSubsetExample | scripts/data_utils.py:20 | the threshold moves with the rows passed in: the day with sales 30 is labelled 1 among all four rows and 0 among the last two |
| DataUtils.ZeroFilledFeatures | scripts/data_utils.py:21 | X has one row per table row, each with exactly the two columns and no missing value |
| DataUtils.ZeroFilledFeaturesMeaning | scripts/data_utils.py:21 | in X a present value is kept and a missing one becomes 0, in both columns |
| DataUtils.ZeroFillExample | scripts/data_utils.py:21 | `Promo2SinceWeek` values null, 5 become 0, 5 |
| DataUtils.PrepareFeatures | scripts/data_utils.py:13-23 | X and y have the same length as the input table |
| DataUtils.PrepareFeaturesAligned | scripts/data_utils.py:19-23 | row i of X comes from row i of the table alone, and y[i] is 1 iff sales[i] exceeds the median |
| Categories.BeforeIsStrictTotalOrder | pages/03_Feature_Engineering.py:25 | the encoder's order on values (strings by code point, NaN last) is irreflexive, transitive and total |
| Categories.CategoriesOf | pages/03_Feature_Engineering.py:25 | the learnt categories are strictly ascending and are exactly the values that occur in the column |
| Categories.CategoriesCount | pages/03_Feature_Engineering.py:25 | there is one category per distinct value of the column |
| Categories.CategoriesExample | pages/03_Feature_Engineering.py:25 | the column b, a, b, NaN has the categories a, b, NaN |
| FeatureEngineering.PresentDistances | pages/03_Feature_Engineering.py:19 | the median sees exactly the present distances: each value occurs as often as rows hold it, there are as many as rows with a distance, a value is there iff some row holds it, and there is at least one whenever some row has a distance |
| FeatureEngineering.MedianImputed | pages/03_Feature_Engineering.py:19 | imputation keeps the row count |
| FeatureEngineering.MedianImputedLeavesNoMissing | pages/03_Feature_Engineering.py:19 | once any distance is present, no distance is missing after imputation |
| FeatureEngineering.MedianImputedAllMissing | pages/03_Feature_Engineering.py:19 | when every distance is missing the fill value is NaN and the table is unchanged |
| FeatureEngineering.MedianImputedChangesOnlyMissing | pages/03_Feature_Engineering.py:19 | each missing distance becomes the median of the distances present before filling; present distances and all other columns are unchanged |
| FeatureEngineering.MedianImputedIdempotent | pages/03_Feature_Engineering.py:19 | imputing a second time changes nothing |
| FeatureEngineering.MedianImputedExample | pages/03_Feature_Engineering.py:19 | distances 100, null, 300 become 100, 200, 300 |
| FeatureEngineering.Frame.FillCompetitionDistance | pages/03_Feature_Engineering.py:19 | the in-place update: same row count, only missing distances change, each to the median of the old present distances; no distance missing afterwards when one was present; nothing changes when none was |
| FeatureEngineering.FeatureNames | pages/03_Feature_Engineering.py:26 | one name per category, each the column name and an underscore followed by the category's value, or by `nan` for NaN |
| FeatureEngineering.OneHotColumnNames | pages/03_Feature_Engineering.py:25-26 | encoded column j is `StoreType_<category j>` for the `StoreType` categories in order, followed by `Assortment_<category j>` for the `Assortment` categories, NaN spelt `nan` |
| FeatureEngineering.OneHot | pages/03_Feature_Engineering.py:24-26 | the encoded table has one row per table row |
| FeatureEngineering.FitOneHot | pages/03_Feature_Engineering.py:24-26 | fitting fails exactly when the table has no rows; otherwise every row is encoded, there are at least two columns, and each encoded row holds exactly two ones |
| FeatureEngineering.OneHotNonEmpty | pages/03_Feature_Engineering.py:25 | on a non-empty table there are at least two encoded columns and every encoded row holds exactly two ones |
| FeatureEngineering.OneHotRow | pages/03_Feature_Engineering.py:24-26 | every encoded row has one entry per column; each entry is 0 or 1; the `StoreType_*` block and the `Assortment_*` block each hold exactly one 1, at the category of the row's own value |
| FeatureEngineering.OneHotWidth | pages/03_Feature_Engineering.py:25-26 | the number of encoded columns is the number of distinct `StoreType` values plus the number of distinct `Assortment` values |
| FeatureEngineering.OneHotIgnoresImputation | pages/03_Feature_Engineering.py:19-26 | encoding after the imputation gives the same table as encoding before it |
| FeatureEngineering.ScalerInput | pages/03_Feature_Engineering.py:32 | the scaler input has one row per table row and no missing value |
| FeatureEngineering.ScalerInputVersusPrepareFeatures | pages/03_Feature_Engineering.py:32 | the scaler input equals X from `prepare_features`, except that a distance that was missing, when some distance was present, holds the median instead of 0 |
| FeatureEngineering.RunFeatureEngineering | pages/03_Feature_Engineering.py:14-32 | the page stops with an error exactly when there are no daily records; otherwise its steps (merge, impute in place, encode, zero-fill) give the encoding and scaler input of the merged table, and with unique store ids both have one row per daily record |

## Left out

- Reading `train.csv` and `store.csv` and parsing the `Date` column are file I/O. The model starts from sequences of parsed rows (`Records.DailyRecord`, `Records.StoreRecord`).
- Streamlit rendering and the `@st.cache_data` memoization are not modelled: they are presentation and framework code.
- `StandardScaler` z-scoring on page 03 (lines 31-33) is floating-point arithmetic. Only its zero-filled input is modelled.
- The other pages are not modelled: KMeans, logistic regression, train/test split, metrics and ROC curves are scikit-learn numerics, and geographic simulation uses randomness and polygon geometry.
- pandas' copy-on-write behaviour, under which the chained `fillna(..., inplace=True)` on page 03 line 19 would not reach the table, is not modelled. The model performs the intended in-place column update.
- FeatureEngineering.OneHot: is the encoder's transform alone and is defined on an empty table as well. The fit's refusal of an empty table is stated by `FeatureEngineering.FitOneHot`, which the page model uses.
- The scaler's own refusal of an empty table (line 32) is not modelled separately: the encoder's fit at line 25 fails first on the same table, so the page never reaches the scaler with no rows.
- Numbers are exact reals rather than 64-bit floats, so rounding in the median's average is not modelled.
- DataUtils.ZeroFilledFeatures: "no missing values" holds by the result's type (`FeatureRow` has two non-nullable reals), not as a separate clause.
- DataUtils.PrepareFeatures: the `HighSales` column written into the private copy is not modelled as a column; only the returned `y` is, and the caller's table is a value the function cannot change.

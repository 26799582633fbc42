/**
 * The Rossmann tables: one daily record per store and day, one metadata record
 * per store, and the merged table that `load_data` builds by a left join of the
 * daily records to the store metadata on the `Store` column.
 */
module Records {
  import opened Wrappers

  /** A calendar date, as parsed from the `Date` column. */
  datatype Date = Date(year: int, month: int, day: int)

  /** One row of the daily sales table. */
  datatype DailyRecord = DailyRecord(
    store: int,
    dayOfWeek: int,
    date: Date,
    sales: int,
    customers: int,
    open: int,
    promo: int,
    stateHoliday: string,
    schoolHoliday: int)

  /** One row of the store metadata table; numeric columns that may be blank are nullable. */
  datatype StoreRecord = StoreRecord(
    store: int,
    storeType: string,
    assortment: string,
    competitionDistance: Option<real>,
    competitionOpenSinceMonth: Option<real>,
    competitionOpenSinceYear: Option<real>,
    promo2: int,
    promo2SinceWeek: Option<real>,
    promo2SinceYear: Option<real>,
    promoInterval: Option<string>)

  /**
   * One row of the merged table: the daily record's columns, then the metadata
   * columns, each missing when no metadata row matched (or when it was blank).
   */
  datatype MergedRow = MergedRow(
    day: DailyRecord,
    storeType: Option<string>,
    assortment: Option<string>,
    competitionDistance: Option<real>,
    competitionOpenSinceMonth: Option<real>,
    competitionOpenSinceYear: Option<real>,
    promo2: Option<int>,
    promo2SinceWeek: Option<real>,
    promo2SinceYear: Option<real>,
    promoInterval: Option<string>)

  /** The merged row for a daily record and the metadata row it matched. */
  function Matched(d: DailyRecord, s: StoreRecord): MergedRow {
    MergedRow(d, Some(s.storeType), Some(s.assortment), s.competitionDistance,
              s.competitionOpenSinceMonth, s.competitionOpenSinceYear, Some(s.promo2),
              s.promo2SinceWeek, s.promo2SinceYear, s.promoInterval)
  }

  /** The merged row for a daily record that matched no metadata row: every metadata column missing. */
  function Unmatched(d: DailyRecord): MergedRow {
    MergedRow(d, None, None, None, None, None, None, None, None, None)
  }

  /** The metadata rows whose `Store` equals `id`, in table order. */
  function MatchesOf(stores: seq<StoreRecord>, id: int): (r: seq<StoreRecord>)
    ensures forall s :: s in r <==> s in stores && s.store == id
    ensures r == [] <==> forall s :: s in stores ==> s.store != id
  {
    if stores == [] then []
    else if stores[0].store == id then [stores[0]] + MatchesOf(stores[1..], id)
    else MatchesOf(stores[1..], id)
  }

  /** The rows a left join makes of one daily record: one per matching metadata row, or one unmatched row. */
  function JoinRecord(d: DailyRecord, stores: seq<StoreRecord>): (r: seq<MergedRow>)
  {
    var ms := MatchesOf(stores, d.store);
    if ms == [] then [Unmatched(d)]
    else seq(|ms|, i requires 0 <= i < |ms| => Matched(d, ms[i]))
  }

  /**
   * The left join on `Store` of scripts/data_utils.py:10: daily records in order,
   * each joined in turn. No daily record is dropped; duplicate store ids can only
   * add rows.
   */
  function LeftMerge(train: seq<DailyRecord>, stores: seq<StoreRecord>): (r: seq<MergedRow>)
    ensures |r| >= |train|
  {
    if train == [] then [] else JoinRecord(train[0], stores) + LeftMerge(train[1..], stores)
  }

  /** No two metadata rows share a `Store` id (the store table has one row per store). */
  predicate UniqueStoreIds(stores: seq<StoreRecord>) {
    forall i, j :: 0 <= i < j < |stores| ==> stores[i].store != stores[j].store
  }

  lemma {:induction false} MatchesOfUnique(stores: seq<StoreRecord>, id: int)
    requires UniqueStoreIds(stores)
    ensures |MatchesOf(stores, id)| <= 1
  {
    if stores != [] {
      MatchesOfUnique(stores[1..], id);
      if stores[0].store == id {
        forall s | s in stores[1..] ensures s.store != id {
          var k :| 0 <= k < |stores[1..]| && stores[1..][k] == s;
          assert stores[k + 1] == s;
        }
      }
    }
  }

  /**
   * With unique store ids the left join keeps the daily records one to one, in
   * order: row `i` carries daily record `i` unchanged, together with the metadata
   * of the store that has its id, or with every metadata column missing when no
   * store has it.
   */
  lemma {:induction false} LeftMergeOneToOne(train: seq<DailyRecord>, stores: seq<StoreRecord>)
    requires UniqueStoreIds(stores)
    ensures |LeftMerge(train, stores)| == |train|
    ensures forall i :: 0 <= i < |train| ==> LeftMerge(train, stores)[i].day == train[i]
    ensures forall i, s :: 0 <= i < |train| && s in stores && s.store == train[i].store ==>
              LeftMerge(train, stores)[i] == Matched(train[i], s)
    ensures forall i :: 0 <= i < |train| && (forall s :: s in stores ==> s.store != train[i].store) ==>
              LeftMerge(train, stores)[i] == Unmatched(train[i])
  {
    if train != [] {
      LeftMergeOneToOne(train[1..], stores);
      MatchesOfUnique(stores, train[0].store);
      var head, rest := JoinRecord(train[0], stores), LeftMerge(train[1..], stores);
      assert |head| == 1;
      assert LeftMerge(train, stores) == head + rest;
      forall s | s in stores && s.store == train[0].store
        ensures head[0] == Matched(train[0], s)
      {
        assert s in MatchesOf(stores, train[0].store);
      }
    }
  }

  /** Without unique ids the join fans out: one daily record and two rows for its store give two merged rows. */
  lemma DuplicateStoreFansOut(d: DailyRecord, s1: StoreRecord, s2: StoreRecord)
    requires s1.store == d.store && s2.store == d.store
    ensures LeftMerge([d], [s1, s2]) == [Matched(d, s1), Matched(d, s2)]
  {
    assert [s1, s2][1..] == [s2];
    assert MatchesOf([s1, s2], d.store) == [s1, s2];
    assert [d][1..] == [];
  }
}

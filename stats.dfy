/**
 * The median of a numeric column as pandas computes it (`Series.median()` with
 * missing values skipped): the middle value of the sorted values, or the mean of
 * the two middle values when their number is even; NaN (here `None`) when there
 * are no values at all.
 */
module Stats {
  import opened Wrappers

  predicate Sorted(s: seq<real>) {
    forall i, j :: 0 <= i < j < |s| ==> s[i] <= s[j]
  }

  /** Inserts `x` into the sorted sequence `s`, before the first element not below it. */
  function Insert(x: real, s: seq<real>): (r: seq<real>)
    requires Sorted(s)
    ensures Sorted(r)
    ensures multiset(r) == multiset(s) + multiset{x}
    ensures |r| == |s| + 1 && r[0] == (if s == [] || x <= s[0] then x else s[0])
  {
    if s == [] || x <= s[0] then
      [x] + s
    else
      assert s == [s[0]] + s[1..];
      [s[0]] + Insert(x, s[1..])
  }

  /** The values of `s` in ascending order. */
  function Sort(s: seq<real>): (r: seq<real>)
    ensures Sorted(r)
    ensures multiset(r) == multiset(s)
    ensures |r| == |s|
  {
    if s == [] then
      []
    else
      assert s == [s[0]] + s[1..];
      Insert(s[0], Sort(s[1..]))
  }

  /** The median of the values `s`; `None` (NaN) when `s` is empty. */
  function Median(s: seq<real>): (m: Option<real>)
    ensures m.None? <==> s == []
  {
    if s == [] then
      None
    else
      var t := Sort(s);
      var k := |t| / 2;
      if |t| % 2 == 1 then Some(t[k]) else Some((t[k - 1] + t[k]) / 2.0)
  }

  /** The number of values in `s` strictly above `m`. */
  function CountAbove(s: seq<real>, m: real): (n: nat)
    ensures n <= |s|
  {
    if s == [] then 0 else (if s[0] > m then 1 else 0) + CountAbove(s[1..], m)
  }

  /** The number of values in `s` strictly below `m`. */
  function CountBelow(s: seq<real>, m: real): (n: nat)
    ensures n <= |s|
  {
    if s == [] then 0 else (if s[0] < m then 1 else 0) + CountBelow(s[1..], m)
  }

  lemma {:induction false} CountsOfInsert(x: real, s: seq<real>, m: real)
    requires Sorted(s)
    ensures CountAbove(Insert(x, s), m) == CountAbove(s, m) + (if x > m then 1 else 0)
    ensures CountBelow(Insert(x, s), m) == CountBelow(s, m) + (if x < m then 1 else 0)
  {
    if s == [] || x <= s[0] {
      assert ([x] + s)[1..] == s;
    } else {
      CountsOfInsert(x, s[1..], m);
      assert ([s[0]] + Insert(x, s[1..]))[1..] == Insert(x, s[1..]);
    }
  }

  /** Sorting does not change how many values lie above or below a threshold. */
  lemma {:induction false} CountsOfSort(s: seq<real>, m: real)
    ensures CountAbove(Sort(s), m) == CountAbove(s, m)
    ensures CountBelow(Sort(s), m) == CountBelow(s, m)
  {
    if s != [] {
      CountsOfSort(s[1..], m);
      CountsOfInsert(s[0], Sort(s[1..]), m);
    }
  }

  /** In a sorted sequence whose first `k` values are at most `m`, at most `|t| - k` values exceed `m`. */
  lemma {:induction false} CountAboveOfSortedPrefix(t: seq<real>, m: real, k: nat)
    requires k <= |t|
    requires forall j :: 0 <= j < k ==> t[j] <= m
    ensures CountAbove(t, m) <= |t| - k
  {
    if k > 0 {
      CountAboveOfSortedPrefix(t[1..], m, k - 1);
    }
  }

  /** If every value from position `k` on is at least `m`, at most `k` values are below `m`. */
  lemma {:induction false} CountBelowOfSortedSuffix(t: seq<real>, m: real, k: nat)
    requires k <= |t|
    requires forall j :: k <= j < |t| ==> t[j] >= m
    ensures CountBelow(t, m) <= k
  {
    if t != [] {
      if k == 0 {
        CountBelowOfSortedSuffix(t[1..], m, 0);
      } else {
        CountBelowOfSortedSuffix(t[1..], m, k - 1);
      }
    }
  }

  /** The median of a nonempty sequence, read off its sorted values `t`. */
  lemma MedianOfSorted(s: seq<real>, t: seq<real>, k: nat)
    requires s != [] && t == Sort(s) && k == |t| / 2
    ensures |t| % 2 == 1 ==> Median(s).value == t[k]
    ensures |t| % 2 == 0 ==> Median(s).value == (t[k - 1] + t[k]) / 2.0
  {
  }

  /** The middle value (or the mean of the two middle values) of sorted `t` splits `t` in half. */
  lemma {:induction false} MiddleSplitsSorted(t: seq<real>, m: real)
    requires Sorted(t) && t != []
    requires |t| % 2 == 1 ==> m == t[|t| / 2]
    requires |t| % 2 == 0 ==> m == (t[|t| / 2 - 1] + t[|t| / 2]) / 2.0
    ensures CountAbove(t, m) <= |t| / 2
    ensures CountBelow(t, m) <= |t| / 2
  {
    var k := |t| / 2;
    var lo := if |t| % 2 == 1 then k + 1 else k;
    assert t[lo - 1] <= m <= t[k];
    forall j | 0 <= j < lo ensures t[j] <= m {
      assert t[j] <= t[lo - 1];
    }
    forall j | k <= j < |t| ensures t[j] >= m {
      assert t[k] <= t[j];
    }
    CountAboveOfSortedPrefix(t, m, lo);
    CountBelowOfSortedSuffix(t, m, k);
  }

  /**
   * The median splits the values in half: at most half of them lie strictly
   * above it and at most half strictly below it.
   */
  lemma MedianSplitsInHalf(s: seq<real>)
    requires s != []
    ensures CountAbove(s, Median(s).value) <= |s| / 2
    ensures CountBelow(s, Median(s).value) <= |s| / 2
  {
    var t, m := Sort(s), Median(s).value;
    MedianOfSorted(s, t, |t| / 2);
    MiddleSplitsSorted(t, m);
    CountsOfSort(s, m);
  }

  /** The median lies between the smallest and the largest value. */
  lemma MedianWithinRange(s: seq<real>)
    requires s != []
    ensures exists i :: 0 <= i < |s| && s[i] <= Median(s).value
    ensures exists j :: 0 <= j < |s| && Median(s).value <= s[j]
  {
    var t, m := Sort(s), Median(s).value;
    var k := |t| / 2;
    var lo := if |t| % 2 == 1 then k else k - 1;
    assert t[lo] <= m <= t[k];
    assert t[lo] in multiset(s) && t[k] in multiset(s);
  }

  /** Sorting a sequence that is already sorted leaves it as it is. */
  lemma {:induction false} SortOfSorted(s: seq<real>)
    requires Sorted(s)
    ensures Sort(s) == s
  {
    if s != [] {
      SortOfSorted(s[1..]);
      assert s == [s[0]] + s[1..];
    }
  }

  /** The even-length case: `[10, 20, 30, 40]` has median 25. */
  lemma MedianOfEvenExample(s: seq<real>)
    requires |s| == 4 && s[0] == 10.0 && s[1] == 20.0 && s[2] == 30.0 && s[3] == 40.0
    ensures Median(s) == Some(25.0)
  {
    SortOfSorted(s);
    MedianOfSorted(s, s, 2);
  }

  /** `[100, 300]` has median 200. */
  lemma MedianOfPairExample(s: seq<real>)
    requires |s| == 2 && s[0] == 100.0 && s[1] == 300.0
    ensures Median(s) == Some(200.0)
  {
    SortOfSorted(s);
    MedianOfSorted(s, s, 1);
  }
}

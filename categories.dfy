/**
 * The categories a one-hot encoder learns from a column: its distinct values in
 * ascending order, strings compared character by character (code point order),
 * with a missing value (NaN) as the last category.
 */
module Categories {
  import opened Wrappers

  /** Lexicographic order on strings: `a` comes strictly before `b`. */
  predicate StringBefore(a: string, b: string) {
    if a == [] then b != []
    else if b == [] then false
    else if a[0] != b[0] then a[0] < b[0]
    else StringBefore(a[1..], b[1..])
  }

  /** The encoder's order on a column's values: strings lexicographically, then the missing value. */
  predicate Before(a: Option<string>, b: Option<string>) {
    match (a, b)
    case (Some(x), Some(y)) => StringBefore(x, y)
    case (Some(_), None) => true
    case (None, _) => false
  }

  lemma {:induction false} StringBeforeIrreflexive(a: string)
    ensures !StringBefore(a, a)
  {
    if a != [] {
      StringBeforeIrreflexive(a[1..]);
    }
  }

  lemma {:induction false} StringBeforeTransitive(a: string, b: string, c: string)
    requires StringBefore(a, b) && StringBefore(b, c)
    ensures StringBefore(a, c)
  {
    if a != [] && b != [] && c != [] && a[0] == b[0] == c[0] {
      StringBeforeTransitive(a[1..], b[1..], c[1..]);
    }
  }

  lemma {:induction false} StringBeforeTotal(a: string, b: string)
    requires a != b
    ensures StringBefore(a, b) || StringBefore(b, a)
  {
    if a != [] && b != [] && a[0] == b[0] {
      assert a == [a[0]] + a[1..] && b == [b[0]] + b[1..];
      StringBeforeTotal(a[1..], b[1..]);
    }
  }

  /** `Before` is a strict total order on column values. */
  lemma BeforeIsStrictTotalOrder(a: Option<string>, b: Option<string>, c: Option<string>)
    ensures !Before(a, a)
    ensures Before(a, b) && Before(b, c) ==> Before(a, c)
    ensures a != b ==> Before(a, b) || Before(b, a)
  {
    if a.Some? {
      StringBeforeIrreflexive(a.value);
    }
    if a.Some? && b.Some? && c.Some? && Before(a, b) && Before(b, c) {
      StringBeforeTransitive(a.value, b.value, c.value);
    }
    if a.Some? && b.Some? && a != b {
      StringBeforeTotal(a.value, b.value);
    }
  }

  /** Strictly ascending, hence without repeats. */
  predicate Ascending(cats: seq<Option<string>>) {
    forall i, j :: 0 <= i < j < |cats| ==> Before(cats[i], cats[j])
  }

  /** Adds `v` to the ascending categories `cats`, unless it is already there. */
  function AddCategory(v: Option<string>, cats: seq<Option<string>>): (r: seq<Option<string>>)
    requires Ascending(cats)
    ensures Ascending(r)
    ensures forall w :: w in r <==> w == v || w in cats
    ensures r != [] && (r[0] == v || (cats != [] && r[0] == cats[0]))
  {
    if cats == [] then
      [v]
    else if v == cats[0] then
      cats
    else if Before(v, cats[0]) then
      BeforeAscendingHead(v, cats);
      [v] + cats
    else
      BeforeIsStrictTotalOrder(v, cats[0], cats[0]);
      var rest := AddCategory(v, cats[1..]);
      assert forall w :: w in rest ==> Before(cats[0], w) by {
        forall w | w in rest ensures Before(cats[0], w) {
          if w != v {
            var k :| 1 <= k < |cats| && cats[k] == w;
          }
        }
      }
      [cats[0]] + rest
  }

  lemma BeforeAscendingHead(v: Option<string>, cats: seq<Option<string>>)
    requires Ascending(cats) && cats != [] && Before(v, cats[0])
    ensures Ascending([v] + cats)
  {
    forall j | 1 <= j < |cats| ensures Before(v, cats[j]) {
      BeforeIsStrictTotalOrder(v, cats[0], cats[j]);
    }
  }

  /** The categories learnt from `column`: its distinct values, ascending, missing last. */
  function CategoriesOf(column: seq<Option<string>>): (cats: seq<Option<string>>)
    ensures Ascending(cats)
    ensures forall w :: w in cats <==> w in column
  {
    if column == [] then [] else AddCategory(column[0], CategoriesOf(column[1..]))
  }

  /** Ascending categories have no repeats, so there are as many as there are distinct values. */
  lemma {:induction false} AscendingDistinct(cats: seq<Option<string>>)
    requires Ascending(cats)
    ensures |set w | w in cats| == |cats|
  {
    if cats != [] {
      AscendingDistinct(cats[1..]);
      BeforeIsStrictTotalOrder(cats[0], cats[0], cats[0]);
      assert cats[0] !in cats[1..];
      assert (set w | w in cats) == {cats[0]} + (set w | w in cats[1..]);
    }
  }

  /** One category per distinct value of the column. */
  lemma CategoriesCount(column: seq<Option<string>>)
    ensures |CategoriesOf(column)| == |set v | v in column|
  {
    var cats := CategoriesOf(column);
    AscendingDistinct(cats);
    assert (set w | w in cats) == (set v | v in column);
  }

  /** A column `b, a, b, NaN` has the categories `a, b, NaN`. */
  lemma CategoriesExample(column: seq<Option<string>>)
    requires column == [Some("b"), Some("a"), Some("b"), None]
    ensures CategoriesOf(column) == [Some("a"), Some("b"), None]
  {
    var a, b := Some("a"), Some("b");
    assert Before(a, b) && Before(a, None) && Before(b, None);
    assert column[1..] == [a, b, None] && column[2..] == [b, None] && column[3..] == [None];
    assert CategoriesOf([None]) == [None];
    assert CategoriesOf([b, None]) == AddCategory(b, [None]) == [b, None];
    assert CategoriesOf([a, b, None]) == AddCategory(a, [b, None]) == [a, b, None];
    assert CategoriesOf(column) == AddCategory(b, [a, b, None]);
    assert [a, b, None][1..] == [b, None];
    assert AddCategory(b, [b, None]) == [b, None];
  }
}

/**
 * The group-by mean of the peso price (`price_aprox_local_currency`): one row per
 * distinct key, in ascending key order (pandas' default `sort=True`), holding the mean
 * peso price of the listings with that key.
 */
module GroupBy {
  import opened Seqs
  import opened Listings

  /** The column grouped on: `property_type` for view 2, `places` for view 3. */
  datatype GroupKey = ByPropertyType | ByPlaces

  function KeyOf(r: Row, g: GroupKey): string
  {
    match g
    case ByPropertyType => r.propertyType
    case ByPlaces => r.places
  }

  /** Python's `<` on strings: lexicographic by code point, a proper prefix first. */
  predicate LexLess(a: string, b: string)
  {
    if a == [] then b != []
    else if b == [] then false
    else if a[0] != b[0] then a[0] < b[0]
    else LexLess(a[1..], b[1..])
  }

  lemma {:induction false} LexLessIrreflexive(a: string)
    ensures !LexLess(a, a)
  {
    if a != [] {
      LexLessIrreflexive(a[1..]);
    }
  }

  lemma {:induction false} LexLessTrans(a: string, b: string, c: string)
    requires LexLess(a, b) && LexLess(b, c)
    ensures LexLess(a, c)
  {
    if a != [] && a[0] == b[0] && b[0] == c[0] {
      LexLessTrans(a[1..], b[1..], c[1..]);
    }
  }

  lemma {:induction false} LexLessTotal(a: string, b: string)
    ensures a == b || LexLess(a, b) || LexLess(b, a)
  {
    if a != [] && b != [] && a[0] == b[0] {
      LexLessTotal(a[1..], b[1..]);
      if a[1..] == b[1..] {
        assert a == [a[0]] + a[1..] && b == [b[0]] + b[1..];
      }
    }
  }

  /** Ascending without repetition. */
  predicate StrictlyIncreasing(s: seq<string>)
  {
    forall i, j :: 0 <= i < j < |s| ==> LexLess(s[i], s[j])
  }

  /** Adds `k` to an ascending sequence of distinct keys, unless it is already there. */
  function InsertKey(k: string, s: seq<string>): (r: seq<string>)
    requires StrictlyIncreasing(s)
    ensures StrictlyIncreasing(r)
    ensures forall x :: x in r <==> x in s || x == k
    ensures |r| <= |s| + 1
    ensures r != [] && (r[0] == k || (s != [] && r[0] == s[0]))
  {
    if s == [] then [k]
    else if k == s[0] then s
    else if LexLess(k, s[0]) then
      assert forall j :: 0 <= j < |s| ==> LexLess(k, s[j]) by {
        forall j | 0 < j < |s| ensures LexLess(k, s[j]) {
          LexLessTrans(k, s[0], s[j]);
        }
      }
      [k] + s
    else
      LexLessTotal(k, s[0]);
      var tail := InsertKey(k, s[1..]);
      assert forall j :: 0 <= j < |tail| ==> LexLess(s[0], tail[j]) by {
        forall j | 0 <= j < |tail| ensures LexLess(s[0], tail[j]) {
          assert tail[j] in tail;
          if tail[j] != k {
            var m :| 0 <= m < |s[1..]| && s[1..][m] == tail[j];
            assert s[m + 1] == tail[j];
          }
        }
      }
      assert s == [s[0]] + s[1..];
      [s[0]] + tail
  }

  /** The distinct keys of the table, in ascending order. */
  function SortedKeys(rows: seq<Row>, g: GroupKey): (r: seq<string>)
    ensures StrictlyIncreasing(r)
    ensures forall k :: k in r <==> exists i :: 0 <= i < |rows| && KeyOf(rows[i], g) == k
    ensures |r| <= |rows|
  {
    if rows == [] then []
    else
      var rest := SortedKeys(rows[1..], g);
      assert forall i :: 1 <= i < |rows| ==> rows[i] == rows[1..][i - 1];
      InsertKey(KeyOf(rows[0], g), rest)
  }

  /** The listings whose key is `k`, in table order. */
  function GroupRows(rows: seq<Row>, g: GroupKey, k: string): seq<Row>
  {
    Filter(rows, (r: Row) => KeyOf(r, g) == k)
  }

  /** `price_aprox_local_currency` of each row. */
  function LocalPrices(rows: seq<Row>): seq<real>
  {
    seq(|rows|, i requires 0 <= i < |rows| => rows[i].priceLocal)
  }

  /** A listing is in the group of `k`, with all its copies, exactly when it is in the table with key `k`. */
  lemma GroupRowsMembership(rows: seq<Row>, g: GroupKey, k: string, x: Row)
    ensures x in GroupRows(rows, g, k) <==> x in rows && KeyOf(x, g) == k
    ensures multiset(GroupRows(rows, g, k))[x] == if KeyOf(x, g) == k then multiset(rows)[x] else 0
  {
    FilterMembership(rows, (r: Row) => KeyOf(r, g) == k, x);
    FilterCount(rows, (r: Row) => KeyOf(r, g) == k, x);
  }

  lemma KeyHasRows(rows: seq<Row>, g: GroupKey, k: string)
    requires k in SortedKeys(rows, g)
    ensures |GroupRows(rows, g, k)| > 0
  {
    var i :| 0 <= i < |rows| && KeyOf(rows[i], g) == k;
    GroupRowsMembership(rows, g, k, rows[i]);
  }

  /** The aggregated rows, one per key of `keys`, each with its group's mean peso price. */
  function MeansOf(rows: seq<Row>, g: GroupKey, keys: seq<string>): seq<(string, real)>
    requires forall j :: 0 <= j < |keys| ==> |GroupRows(rows, g, keys[j])| > 0
  {
    seq(|keys|, j requires 0 <= j < |keys| => (keys[j], Mean(LocalPrices(GroupRows(rows, g, keys[j])))))
  }

  /** The aggregated table: the distinct keys in ascending order, each with its group's mean peso price. */
  function GroupMeans(rows: seq<Row>, g: GroupKey): seq<(string, real)>
  {
    var keys := SortedKeys(rows, g);
    assert forall j :: 0 <= j < |keys| ==> |GroupRows(rows, g, keys[j])| > 0 by {
      forall j | 0 <= j < |keys| ensures |GroupRows(rows, g, keys[j])| > 0 {
        assert keys[j] in keys;
        KeyHasRows(rows, g, keys[j]);
      }
    }
    MeansOf(rows, g, keys)
  }

  lemma GroupMeansKeys(rows: seq<Row>, g: GroupKey)
    ensures |GroupMeans(rows, g)| == |SortedKeys(rows, g)|
    ensures forall j :: 0 <= j < |GroupMeans(rows, g)| ==> GroupMeans(rows, g)[j].0 == SortedKeys(rows, g)[j]
  {
  }

  /** At most one aggregated row per listing, keys strictly ascending: sorted and without repetition. */
  lemma GroupMeansOrdered(rows: seq<Row>, g: GroupKey)
    ensures |GroupMeans(rows, g)| <= |rows|
    ensures forall i, j :: 0 <= i < j < |GroupMeans(rows, g)| ==>
              LexLess(GroupMeans(rows, g)[i].0, GroupMeans(rows, g)[j].0)
  {
    GroupMeansKeys(rows, g);
  }

  /** Every key present in the table has its aggregated row. */
  lemma GroupMeansCoversKeys(rows: seq<Row>, g: GroupKey, i: nat)
    requires i < |rows|
    ensures exists j :: 0 <= j < |GroupMeans(rows, g)| && GroupMeans(rows, g)[j].0 == KeyOf(rows[i], g)
  {
    var r := GroupMeans(rows, g);
    var keys := SortedKeys(rows, g);
    GroupMeansKeys(rows, g);
    assert KeyOf(rows[i], g) in keys;
    var j :| 0 <= j < |keys| && keys[j] == KeyOf(rows[i], g);
    assert r[j].0 == KeyOf(rows[i], g);
  }

  /**
   * Every aggregated row belongs to a key present in the table, and holds the mean peso
   * price over exactly the listings with that key.
   */
  lemma GroupMeansRow(rows: seq<Row>, g: GroupKey, j: nat)
    requires j < |GroupMeans(rows, g)|
    ensures exists i :: 0 <= i < |rows| && KeyOf(rows[i], g) == GroupMeans(rows, g)[j].0
    ensures var group := GroupRows(rows, g, GroupMeans(rows, g)[j].0);
            |group| > 0 && GroupMeans(rows, g)[j].1 == Mean(LocalPrices(group))
  {
    var keys := SortedKeys(rows, g);
    GroupMeansKeys(rows, g);
    assert keys[j] in keys;
    KeyHasRows(rows, g, keys[j]);
  }

  /** Each group's mean lies between the cheapest and the dearest listing of that group. */
  lemma GroupMeanBetween(rows: seq<Row>, g: GroupKey, j: nat, lo: real, hi: real)
    requires j < |GroupMeans(rows, g)|
    requires forall i :: 0 <= i < |rows| ==> lo <= rows[i].priceLocal <= hi
    ensures lo <= GroupMeans(rows, g)[j].1 <= hi
  {
    var m := GroupMeans(rows, g);
    GroupMeansRow(rows, g, j);
    var group := GroupRows(rows, g, m[j].0);
    var keep := (x: Row) => KeyOf(x, g) == m[j].0;
    forall i | 0 <= i < |group| ensures lo <= LocalPrices(group)[i] <= hi {
      FilterMembership(rows, keep, group[i]);
    }
    MeanBetween(LocalPrices(group), lo, hi);
  }

  /** A table whose listings all share one key aggregates to that key alone, with the overall mean. */
  lemma SingleGroup(rows: seq<Row>, g: GroupKey, k: string)
    requires |rows| > 0
    requires forall i :: 0 <= i < |rows| ==> KeyOf(rows[i], g) == k
    ensures GroupMeans(rows, g) == [(k, Mean(LocalPrices(rows)))]
  {
    var m := GroupMeans(rows, g);
    GroupMeansCoversKeys(rows, g, 0);
    GroupMeansOrdered(rows, g);
    if |m| > 1 {
      GroupMeansRow(rows, g, 0);
      GroupMeansRow(rows, g, 1);
      LexLessIrreflexive(k);
      assert false;
    }
    GroupMeansRow(rows, g, 0);
    FilterKeepsAll(rows, (x: Row) => KeyOf(x, g) == k);
  }
}

/**
 Sorted runs of key-value rows, the maps they list, and the reference range scan
 every store in the repository answers with (`build_next` and `build_prev` of the
 B-tree store).
 */
module Rows {
  import opened Keys
  import opened Wrappers

  datatype Row<+V> = Row(key: Key, value: V)

  datatype Direction = Next | Prev

  type Cursor = (Option<Key>, Option<Key>)

  // ---------------------------------------------------------------------------
  // Sorted runs
  // ---------------------------------------------------------------------------

  ghost predicate Sorted<V>(rows: seq<Row<V>>)
  {
    forall i, j :: 0 <= i < j < |rows| ==> Lt(rows[i].key, rows[j].key)
  }

  lemma SortedPart<V>(rows: seq<Row<V>>, lo: nat, hi: nat)
    requires Sorted(rows) && lo <= hi <= |rows|
    ensures Sorted(rows[lo..hi])
  {
  }

  /** `rows` is the ascending listing of `m`. */
  ghost predicate Lists<V>(rows: seq<Row<V>>, m: map<Key, V>)
  {
    && Sorted(rows)
    && (forall i :: 0 <= i < |rows| ==> rows[i].key in m && m[rows[i].key] == rows[i].value)
    && (forall k :: k in m ==> Row(k, m[k]) in rows)
  }

  /** The map a sorted run lists. */
  ghost function AsMap<V>(rows: seq<Row<V>>): (m: map<Key, V>)
    requires Sorted(rows)
  {
    StrictTotalOrder();
    map r | r in rows :: r.key := r.value
  }

  lemma AsMapLists<V>(rows: seq<Row<V>>)
    requires Sorted(rows)
    ensures Lists(rows, AsMap(rows))
  {
    StrictTotalOrder();
    var m := AsMap(rows);
    forall i | 0 <= i < |rows|
      ensures rows[i].key in m && m[rows[i].key] == rows[i].value
    {
      assert rows[i] in rows;
    }
  }

  lemma SameFirst<V>(s: seq<Row<V>>, t: seq<Row<V>>, m: map<Key, V>)
    requires Lists(s, m) && Lists(t, m) && s != []
    ensures t != [] && s[0] == t[0]
  {
    hide Lt;
    assert Row(s[0].key, m[s[0].key]) in t;
    assert Row(t[0].key, m[t[0].key]) in s;
    Asymmetric(s[0].key, t[0].key);
  }

  /** A map has at most one ascending listing. */
  lemma {:induction false} ListsUnique<V>(s: seq<Row<V>>, t: seq<Row<V>>, m: map<Key, V>)
    requires Lists(s, m) && Lists(t, m)
    ensures s == t
    decreases |s|
  {
    if s == [] {
    } else {
      SameFirst(s, t, m);
      ListsTail(s, m);
      ListsTail(t, m);
      ListsUnique(s[1..], t[1..], m - {s[0].key});
      assert s == [s[0]] + s[1..] && t == [t[0]] + t[1..];
    }
  }

  lemma ListsTail<V>(rows: seq<Row<V>>, m: map<Key, V>)
    requires Lists(rows, m) && rows != []
    ensures Lists(rows[1..], m - {rows[0].key})
  {
    StrictTotalOrder();
    var m' := m - {rows[0].key};
    forall k | k in m'
      ensures Row(k, m'[k]) in rows[1..]
    {
      assert Row(k, m[k]) in rows;
      var i :| 0 <= i < |rows| && rows[i] == Row(k, m[k]);
      assert rows[1..][i - 1] == rows[i];
    }
  }

  /** A listing has one row per key. */
  lemma {:induction false} ListsCount<V>(rows: seq<Row<V>>, m: map<Key, V>)
    requires Lists(rows, m)
    ensures |rows| == |m|
    decreases |rows|
  {
    if rows == [] {
      assert m.Keys == {};
    } else {
      ListsTail(rows, m);
      ListsCount(rows[1..], m - {rows[0].key});
      assert (m - {rows[0].key}).Keys == m.Keys - {rows[0].key};
    }
  }

  lemma ListsCons<V>(row: Row<V>, rows: seq<Row<V>>, m: map<Key, V>)
    requires row.key in m && m[row.key] == row.value
    requires Lists(rows, m - {row.key})
    requires forall k :: k in m ==> Le(row.key, k)
    ensures Lists([row] + rows, m)
  {
    var all := [row] + rows;
    forall k | k in m
      ensures Row(k, m[k]) in all
    {
      if k == row.key {
        assert all[0] == Row(k, m[k]);
      } else {
        assert Row(k, (m - {row.key})[k]) in rows;
      }
    }
  }

  // ---------------------------------------------------------------------------
  // Listing a map
  // ---------------------------------------------------------------------------

  ghost predicate IsMin(k: Key, s: set<Key>)
  {
    k in s && forall x :: x in s ==> Le(k, x)
  }

  lemma {:induction false} MinExists(s: set<Key>) returns (k: Key)
    requires s != {}
    ensures IsMin(k, s)
    decreases |s|
  {
    var y :| y in s;
    if s == {y} {
      k := y;
    } else {
      assert s == {y} + (s - {y});
      var m := MinExists(s - {y});
      StrictTotalOrder();
      k := if Lt(y, m) then y else m;
      forall x | x in s
        ensures Le(k, x)
      {
        assert x == y || Le(m, x);
      }
    }
  }

  ghost function MinKey(s: set<Key>): (k: Key)
    requires s != {}
    ensures IsMin(k, s)
  {
    assert exists k :: IsMin(k, s) by {
      var _ := MinExists(s);
    }
    var k :| IsMin(k, s);
    k
  }

  /** The rows of `m` in ascending key order, as iterating a `BTreeMap` yields them. */
  ghost function Listing<V>(m: map<Key, V>): (rows: seq<Row<V>>)
    decreases |m|
  {
    if m == map[] then [] else
      var k := MinKey(m.Keys);
      [Row(k, m[k])] + Listing(m - {k})
  }

  lemma {:induction false} ListingLists<V>(m: map<Key, V>)
    ensures Lists(Listing(m), m)
    decreases |m|
  {
    if m != map[] {
      var k := MinKey(m.Keys);
      ListingLists(m - {k});
      ListsCons(Row(k, m[k]), Listing(m - {k}), m);
    }
  }

  lemma ListingIs<V>(rows: seq<Row<V>>, m: map<Key, V>)
    requires Lists(rows, m)
    ensures rows == Listing(m)
  {
    ListingLists(m);
    ListsUnique(rows, Listing(m), m);
  }

  lemma MinUnique(s: set<Key>, k: Key)
    requires IsMin(k, s)
    ensures k == MinKey(s)
  {
    hide Lt;
    Asymmetric(k, MinKey(s));
  }

  /** Walks a map in ascending key order. */
  method InOrder<V>(m: map<Key, V>) returns (rows: seq<Row<V>>)
    ensures rows == Listing(m)
  {
    rows := [];
    var left := m;
    while left != map[]
      invariant rows + Listing(left) == Listing(m)
      decreases |left|
    {
      ghost var min := MinExists(left.Keys);
      assert min in left && forall x :: x in left ==> Le(min, x);
      var k :| k in left && forall x :: x in left ==> Le(k, x);
      MinUnique(left.Keys, k);
      rows := rows + [Row(k, left[k])];
      left := left - {k};
    }
  }

  // ---------------------------------------------------------------------------
  // The reference scan
  // ---------------------------------------------------------------------------

  /** Inclusive bounds; a missing bound is open. */
  predicate InRange(k: Key, lower: Option<Key>, upper: Option<Key>)
  {
    && (lower.None? || !Lt(k, lower.value))
    && (upper.None? || !Lt(upper.value, k))
  }

  function Lower(direction: Direction, cursor: Cursor): (k: Option<Key>)
  {
    if direction.Next? then cursor.0 else cursor.1
  }

  function Upper(direction: Direction, cursor: Cursor): (k: Option<Key>)
  {
    if direction.Next? then cursor.1 else cursor.0
  }

  ghost function Restrict<V>(m: map<Key, V>, lower: Option<Key>, upper: Option<Key>): map<Key, V>
  {
    map k | k in m && InRange(k, lower, upper) :: m[k]
  }

  function Take<T>(rows: seq<T>, limit: Option<nat>): (r: seq<T>)
  {
    if limit.Some? && limit.value < |rows| then rows[..limit.value] else rows
  }

  function Reverse<T>(rows: seq<T>): (r: seq<T>)
    ensures |r| == |rows|
    ensures forall i :: 0 <= i < |r| ==> r[i] == rows[|rows| - 1 - i]
  {
    if rows == [] then [] else Reverse(rows[1..]) + [rows[0]]
  }

  /** A descending scan needs a starting point. */
  predicate NoStart(direction: Direction, cursor: Cursor)
  {
    direction.Prev? && cursor.0.None?
  }

  /** The rows of `m` in the window, in scan order. */
  ghost function Window<V>(m: map<Key, V>, direction: Direction, cursor: Cursor): (rows: seq<Row<V>>)
  {
    var rows := Listing(Restrict(m, Lower(direction, cursor), Upper(direction, cursor)));
    if NoStart(direction, cursor) then [] else if direction.Next? then rows else Reverse(rows)
  }

  /** What `gets_bytes` promises: the first `limit` rows of the window. */
  ghost function Scan<V>(m: map<Key, V>, limit: Option<nat>, direction: Direction, cursor: Cursor): (rows: seq<Row<V>>)
  {
    Take(Window(m, direction, cursor), limit)
  }

  // ---------------------------------------------------------------------------
  // Filtering a run
  // ---------------------------------------------------------------------------

  function FilterRange<V(!new)>(rows: seq<Row<V>>, lower: Option<Key>, upper: Option<Key>): (r: seq<Row<V>>)
    ensures forall row :: row in r <==> row in rows && InRange(row.key, lower, upper)
  {
    if rows == [] then [] else
      assert forall row :: row in rows <==> row == rows[0] || row in rows[1..];
      var rest := FilterRange(rows[1..], lower, upper);
      if InRange(rows[0].key, lower, upper) then [rows[0]] + rest else rest
  }

  lemma {:induction false} FilterSorted<V(!new)>(rows: seq<Row<V>>, lower: Option<Key>, upper: Option<Key>)
    requires Sorted(rows)
    ensures Sorted(FilterRange(rows, lower, upper))
  {
    if rows != [] {
      FilterSorted(rows[1..], lower, upper);
      var rest := FilterRange(rows[1..], lower, upper);
      forall row | row in rest
        ensures Lt(rows[0].key, row.key)
      {
        assert row in rows[1..];
        var i :| 0 <= i < |rows[1..]| && rows[1..][i] == row;
        assert rows[i + 1] == row;
      }
    }
  }

  /** Filtering the listing of a map lists the restricted map. */
  lemma FilterLists<V(!new)>(rows: seq<Row<V>>, m: map<Key, V>, lower: Option<Key>, upper: Option<Key>)
    requires Lists(rows, m)
    ensures Lists(FilterRange(rows, lower, upper), Restrict(m, lower, upper))
  {
    FilterSorted(rows, lower, upper);
    var r := FilterRange(rows, lower, upper);
    forall i | 0 <= i < |r|
      ensures r[i].key in m && m[r[i].key] == r[i].value
    {
      assert r[i] in rows;
    }
  }

  /** Filtering the whole listing, reversing it for `Prev` and truncating is the reference scan. */
  lemma FilterIsScan<V(!new)>(m: map<Key, V>, limit: Option<nat>, direction: Direction, cursor: Cursor)
    ensures var rows := FilterRange(Listing(m), Lower(direction, cursor), Upper(direction, cursor));
            Scan(m, limit, direction, cursor) ==
            Take(if NoStart(direction, cursor) then [] else if direction.Next? then rows else Reverse(rows), limit)
  {
    ListingLists(m);
    FilterLists(Listing(m), m, Lower(direction, cursor), Upper(direction, cursor));
    ListingIs(FilterRange(Listing(m), Lower(direction, cursor), Upper(direction, cursor)),
              Restrict(m, Lower(direction, cursor), Upper(direction, cursor)));
  }
}

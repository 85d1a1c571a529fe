/**
 Inclusive-cursor paging: the page a scan returns, and the filtered scan `gets` built on
 pages (`GetSetExt::gets` in `src/store/mod.rs`). Whether a value matches the query is an
 arbitrary predicate.
 */
module Paging {
  import opened Keys
  import opened Wrappers
  import opened Rows
  import opened Merge

  // ---------------------------------------------------------------------------
  // Pages are slices of one window
  // ---------------------------------------------------------------------------

  /** A scan of a store that holds `m`. */
  method GetsBytes<V(!new)>(m: map<Key, V>, limit: Option<nat>, direction: Direction, cursor: Cursor)
    returns (rows: seq<Row<V>>)
    ensures rows == Scan(m, limit, direction, cursor)
  {
    FilterIsScan(m, limit, direction, cursor);
    if NoStart(direction, cursor) {
      return [];
    }
    var all := InOrder(m);
    rows := FilterRange(all, Lower(direction, cursor), Upper(direction, cursor));
    if direction.Prev? {
      rows := Reverse(rows);
    }
    rows := Take(rows, limit);
  }

  /** Narrowing one bound to a key inside the range. */
  lemma Narrowed(k: Key, pivot: Key, lower: Option<Key>, upper: Option<Key>)
    requires InRange(pivot, lower, upper)
    ensures InRange(k, Some(pivot), upper) || InRange(k, lower, Some(pivot)) ==> InRange(k, lower, upper)
  {
    hide Lt;
    Total(k, pivot);
    if lower.Some? && Lt(k, lower.value) && Lt(pivot, k) {
      Transitive(pivot, k, lower.value);
    }
    if upper.Some? && Lt(upper.value, k) && Lt(k, pivot) {
      Transitive(upper.value, k, pivot);
    }
  }

  lemma ListsFrom(rows: seq<Row<Value>>, m: map<Key, Value>, lower: Option<Key>, upper: Option<Key>, i: nat)
    requires Lists(rows, Restrict(m, lower, upper)) && i < |rows|
    ensures Lists(rows[i..], Restrict(m, Some(rows[i].key), upper))
  {
    hide Lt;
    var above := Restrict(m, Some(rows[i].key), upper);
    forall k | k in above
      ensures Row(k, above[k]) in rows[i..]
    {
      FoundFrom(rows, m, lower, upper, i, k);
    }
    var part := rows[i..];
    forall j | 0 <= j < |part|
      ensures part[j].key in above && above[part[j].key] == part[j].value
    {
      Asymmetric(rows[i + j].key, rows[i].key);
    }
  }

  lemma FoundFrom(rows: seq<Row<Value>>, m: map<Key, Value>, lower: Option<Key>, upper: Option<Key>, i: nat, k: Key)
    requires Lists(rows, Restrict(m, lower, upper)) && i < |rows| && k in m && InRange(k, Some(rows[i].key), upper)
    ensures Row(k, m[k]) in rows[i..]
  {
    hide Lt;
    var all := Restrict(m, lower, upper);
    Narrowed(k, rows[i].key, lower, upper);
    assert k in all;
    var j :| 0 <= j < |rows| && rows[j] == Row(k, all[k]);
    assert rows[i..][j - i] == rows[j];
  }

  lemma ListsUpTo(rows: seq<Row<Value>>, m: map<Key, Value>, lower: Option<Key>, upper: Option<Key>, i: nat)
    requires Lists(rows, Restrict(m, lower, upper)) && i < |rows|
    ensures Lists(rows[..i + 1], Restrict(m, lower, Some(rows[i].key)))
  {
    hide Lt;
    var all, below := Restrict(m, lower, upper), Restrict(m, lower, Some(rows[i].key));
    forall k | k in below
      ensures Row(k, below[k]) in rows[..i + 1]
    {
      Narrowed(k, rows[i].key, lower, upper);
      assert k in all;
      var j :| 0 <= j < |rows| && rows[j] == Row(k, all[k]);
      assert rows[..i + 1][j] == rows[j];
    }
    var part := rows[..i + 1];
    forall j | 0 <= j < |part|
      ensures part[j].key in below && below[part[j].key] == part[j].value
    {
      Asymmetric(rows[j].key, rows[i].key);
    }
  }

  /** Restarting a scan at the key of its i-th row gives the rows from the i-th on. */
  lemma WindowFrom(m: map<Key, Value>, direction: Direction, start: Option<Key>, end: Option<Key>, i: nat)
    requires i < |Window(m, direction, (start, end))|
    ensures var w := Window(m, direction, (start, end));
            Window(m, direction, (Some(w[i].key), end)) == w[i..]
  {
    hide Listing, Restrict, Lists;
    var lower, upper := Lower(direction, (start, end)), Upper(direction, (start, end));
    var rows := Listing(Restrict(m, lower, upper));
    if direction.Next? {
      ListingFrom(m, lower, upper, i);
    } else {
      ListingFrom(m, lower, upper, |rows| - 1 - i);
      ReverseFrom(rows, i);
    }
  }

  lemma ReverseFrom<T>(rows: seq<T>, i: nat)
    requires i < |rows|
    ensures Reverse(rows)[i..] == Reverse(rows[..|rows| - i])
  {
    hide Reverse;
    var part := rows[..|rows| - i];
    assert forall k :: 0 <= k < |part| ==> part[k] == rows[k];
  }

  lemma ListingFrom(m: map<Key, Value>, lower: Option<Key>, upper: Option<Key>, i: nat)
    requires i < |Listing(Restrict(m, lower, upper))|
    ensures var rows := Listing(Restrict(m, lower, upper));
            && Listing(Restrict(m, Some(rows[i].key), upper)) == rows[i..]
            && Listing(Restrict(m, lower, Some(rows[i].key))) == rows[..i + 1]
  {
    hide Listing, Restrict, Lists;
    var rows := Listing(Restrict(m, lower, upper));
    ListingLists(Restrict(m, lower, upper));
    ListsFrom(rows, m, lower, upper, i);
    ListingIs(rows[i..], Restrict(m, Some(rows[i].key), upper));
    ListsUpTo(rows, m, lower, upper, i);
    ListingIs(rows[..i + 1], Restrict(m, lower, Some(rows[i].key)));
  }

  /** No key appears twice in a window. */
  lemma WindowDistinct(m: map<Key, Value>, direction: Direction, cursor: Cursor)
    ensures var w := Window(m, direction, cursor);
            forall i, j :: 0 <= i < j < |w| ==> w[i].key != w[j].key
  {
    StrictTotalOrder();
    ListingLists(Restrict(m, Lower(direction, cursor), Upper(direction, cursor)));
  }

  /** Only the first row of a window can carry its start key. */
  lemma StartFirst(m: map<Key, Value>, direction: Direction, cursor: Cursor)
    ensures var w := Window(m, direction, cursor);
            forall i :: 0 < i < |w| ==> cursor.0 != Some(w[i].key)
  {
    var lower, upper := Lower(direction, cursor), Upper(direction, cursor);
    var rows := Listing(Restrict(m, lower, upper));
    ListingLists(Restrict(m, lower, upper));
    hide Lt, Listing;
    var w := Window(m, direction, cursor);
    forall i | 0 < i < |w|
      ensures cursor.0 != Some(w[i].key)
    {
      assert InRange(w[0].key, lower, upper);
      Asymmetric(w[0].key, w[i].key);
    }
  }

  // ---------------------------------------------------------------------------
  // The filtered scan
  // ---------------------------------------------------------------------------

  function Matching(rows: seq<Row<Value>>, matches: Value -> bool): (r: seq<Row<Value>>)
  {
    if rows == [] then [] else
      Matching(rows[..|rows| - 1], matches) + if matches(rows[|rows| - 1].value) then [rows[|rows| - 1]] else []
  }

  lemma {:induction false} MatchingConcat(a: seq<Row<Value>>, b: seq<Row<Value>>, matches: Value -> bool)
    ensures Matching(a + b, matches) == Matching(a, matches) + Matching(b, matches)
    decreases |b|
  {
    if b == [] {
      assert a + b == a;
    } else {
      MatchingConcat(a, b[..|b| - 1], matches);
      assert (a + b)[..|a + b| - 1] == a + b[..|b| - 1];
    }
  }

  /** The rows of the window after the start key itself. */
  ghost function PastStart(w: seq<Row<Value>>, start: Option<Key>): (r: seq<Row<Value>>)
  {
    if w != [] && start == Some(w[0].key) then w[1..] else w
  }

  /** Rows `lo` to `hi` of the window have been tested and the limit not reached. */
  ghost predicate Tested(w: seq<Row<Value>>, lo: nat, hi: nat, matches: Value -> bool, results: seq<Row<Value>>)
  {
    lo <= hi <= |w| && results == Matching(w[lo..hi], matches)
  }

  lemma TestOne(w: seq<Row<Value>>, lo: nat, hi: nat, matches: Value -> bool, results: seq<Row<Value>>)
    requires Tested(w, lo, hi, matches, results) && hi < |w|
    ensures Tested(w, lo, hi + 1, matches, if matches(w[hi].value) then results + [w[hi]] else results)
  {
    assert w[lo..hi + 1][..hi - lo] == w[lo..hi];
  }

  lemma FirstReached(w: seq<Row<Value>>, lo: nat, hi: nat, matches: Value -> bool, results: seq<Row<Value>>, limit: Option<nat>)
    requires Tested(w, lo, hi, matches, results)
    requires (limit.Some? && |results| == limit.value) || (hi == |w| && (limit.Some? ==> |results| <= limit.value))
    ensures results == Take(Matching(w[lo..], matches), limit)
  {
    assert w[lo..] == w[lo..hi] + w[hi..];
    MatchingConcat(w[lo..hi], w[hi..], matches);
  }

  const BATCH_SIZE: nat := 256

  /** One page, tested row by row; stops at the limit. */
  method TestPage(batch: seq<Row<Value>>, skip: Option<Key>, limit: Option<nat>, matches: Value -> bool, before: seq<Row<Value>>,
                  ghost w: seq<Row<Value>>, ghost lo: nat, ghost at: nat)
    returns (results: seq<Row<Value>>, ghost hi: nat)
    requires at + |batch| <= |w| && batch == w[at..at + |batch|]
    requires var from := if batch != [] && skip == Some(batch[0].key) then at + 1 else at;
             Tested(w, lo, from, matches, before)
    requires forall i :: 0 < i < |batch| ==> skip != Some(batch[i].key)
    requires limit.Some? ==> |before| < limit.value
    ensures Tested(w, lo, hi, matches, results)
    ensures limit.Some? ==> |results| <= limit.value
    ensures (limit.Some? && |results| == limit.value) || hi == at + |batch|
  {
    hide Tested;
    results := before;
    hi := if batch != [] && skip == Some(batch[0].key) then at + 1 else at;
    for i := 0 to |batch|
      invariant hi == if batch != [] && skip == Some(batch[0].key) && i == 0 then at + 1 else at + i
      invariant Tested(w, lo, hi, matches, results)
      invariant limit.Some? ==> |results| < limit.value
    {
      var kv := batch[i];
      if skip == Some(kv.key) {
        continue;
      }
      TestOne(w, lo, hi, matches, results);
      hi := hi + 1;
      if matches(kv.value) {
        results := results + [kv];
        if limit.Some? && |results| >= limit.value {
          return;
        }
      }
    }
  }

  /**
   The first `limit` matches of the window, in scan order, over as many pages as it takes.
   A key equal to the start cursor is taken as already seen.
   */
  method Gets(m: map<Key, Value>, limit: Option<nat>, direction: Direction, cursor: Cursor, matches: Value -> bool)
    returns (results: seq<Row<Value>>)
    ensures results == Take(Matching(PastStart(Window(m, direction, cursor), cursor.0), matches), limit)
  {
    hide Window, Matching, Tested, Scan, Take, PastStart;
    if limit == Some(0) {
      NoneTaken(Matching(PastStart(Window(m, direction, cursor), cursor.0), matches));
      return [];
    }
    results := [];
    var pageCursor := cursor.0;
    ghost var w := Window(m, direction, cursor);
    ghost var lo := if w != [] && cursor.0 == Some(w[0].key) then 1 else 0;
    ghost var at := 0;
    WindowDistinct(m, direction, cursor);
    StartFirst(m, direction, cursor);
    assert w[0..] == w;
    StartTested(w, lo, matches);
    while true
      invariant at <= |w| && Window(m, direction, (pageCursor, cursor.1)) == w[at..]
      invariant at > 0 ==> at < |w| && pageCursor == Some(w[at].key)
      invariant at == 0 ==> pageCursor == cursor.0
      invariant Tested(w, lo, if at == 0 then lo else at + 1, matches, results)
      invariant limit.Some? ==> |results| < limit.value
      decreases |w| - at
    {
      var batch := GetsBytes(m, Some(BATCH_SIZE), direction, (pageCursor, cursor.1));
      PageSlice(m, direction, pageCursor, cursor.1, w, at);
      if batch == [] {
        assert at == 0;
        FirstReached(w, lo, lo, matches, results, limit);
        break;
      }
      var last := batch[|batch| - 1].key;
      var isLast := |batch| < BATCH_SIZE;
      ghost var hi;
      results, hi := TestPage(batch, pageCursor, limit, matches, results, w, lo, at);
      if isLast || (limit.Some? && |results| >= limit.value) {
        FirstReached(w, lo, hi, matches, results, limit);
        break;
      }
      WindowFrom(m, direction, cursor.0, cursor.1, at + BATCH_SIZE - 1);
      pageCursor := Some(last);
      at := at + BATCH_SIZE - 1;
    }
    PastStartIs(w, cursor.0, lo);
  }

  lemma NoneTaken(rows: seq<Row<Value>>)
    ensures Take(rows, Some(0)) == []
  {
  }

  lemma PastStartIs(w: seq<Row<Value>>, start: Option<Key>, lo: nat)
    requires lo == if w != [] && start == Some(w[0].key) then 1 else 0
    ensures PastStart(w, start) == w[lo..]
  {
  }

  /** A page is the part of the window from its start on. */
  lemma PageSlice(m: map<Key, Value>, direction: Direction, start: Option<Key>, end: Option<Key>, w: seq<Row<Value>>, at: nat)
    requires at <= |w| && Window(m, direction, (start, end)) == w[at..]
    ensures var batch := Scan(m, Some(BATCH_SIZE), direction, (start, end));
            && at + |batch| <= |w| && batch == w[at..at + |batch|]
            && (|batch| < BATCH_SIZE ==> at + |batch| == |w|) && |batch| <= BATCH_SIZE
  {
    hide Window;
  }

  lemma StartTested(w: seq<Row<Value>>, lo: nat, matches: Value -> bool)
    requires lo <= |w|
    ensures Tested(w, lo, lo, matches, [])
  {
  }

  // ---------------------------------------------------------------------------
  // The start cursor
  // ---------------------------------------------------------------------------

  /** With no start the filtered scan is the first `limit` matches of the whole window. */
  lemma NoStartIsWhole(m: map<Key, Value>, direction: Direction, end: Option<Key>)
    ensures PastStart(Window(m, direction, (None, end)), None) == Window(m, direction, (None, end))
  {
  }

  /**
   The unfiltered scan includes its start key. The filtered one agrees with it, for a
   positive limit, exactly when the start is not a matching key of the window.
   */
  lemma StartIsSkipped(w: seq<Row<Value>>, start: Option<Key>, matches: Value -> bool, limit: Option<nat>)
    requires limit != Some(0)
    requires forall i, j :: 0 <= i < j < |w| ==> w[i].key != w[j].key
    ensures Take(Matching(PastStart(w, start), matches), limit) == Take(Matching(w, matches), limit) <==>
            !(w != [] && start == Some(w[0].key) && matches(w[0].value))
  {
    hide Matching, Take;
    if w != [] && start == Some(w[0].key) {
      MatchingCons(w, matches);
      var rest := Matching(w[1..], matches);
      assert PastStart(w, start) == w[1..];
      if matches(w[0].value) {
        assert w[0] !in rest by {
          MatchingFrom(w[1..], matches);
        }
        FirstDiffers(w[0], rest, limit);
      } else {
        assert [] + rest == rest;
      }
    }
  }

  /** One matching key, asked for from that key on: the filtered scan misses it, the inclusive one does not. */
  method StartKeyIsMissed(k: Key, v: Value, limit: Option<nat>, direction: Direction, matches: Value -> bool)
    returns (filtered: seq<Row<Value>>, inclusive: seq<Row<Value>>)
    requires limit != Some(0) && matches(v)
    ensures filtered == [] && inclusive == [Row(k, v)]
  {
    OneRowWindow(k, v, direction);
    hide Window, Matching;
    filtered := Gets(map[k := v], limit, direction, (Some(k), None), matches);
    inclusive := GetsBytes(map[k := v], limit, direction, (Some(k), None));
    NoneMatching(matches);
    assert PastStart([Row(k, v)], Some(k)) == [];
  }

  lemma NoneMatching(matches: Value -> bool)
    ensures Matching([], matches) == []
  {
  }

  lemma OneRowWindow(k: Key, v: Value, direction: Direction)
    ensures Window(map[k := v], direction, (Some(k), None)) == [Row(k, v)]
  {
    Irreflexive(k);
    var m, rows := map[k := v], [Row(k, v)];
    var part := Restrict(m, Lower(direction, (Some(k), None)), Upper(direction, (Some(k), None)));
    assert part == m;
    assert rows[0] == Row(k, m[k]);
    assert Lists(rows, part);
    ListingLists(part);
    ListsUnique(rows, Listing(part), part);
    assert Reverse(rows) == rows;
  }

  lemma MatchingCons(w: seq<Row<Value>>, matches: Value -> bool)
    requires w != []
    ensures Matching(w, matches) == (if matches(w[0].value) then [w[0]] else []) + Matching(w[1..], matches)
  {
    assert w == [w[0]] + w[1..];
    MatchingConcat([w[0]], w[1..], matches);
    MatchingOne(w[0], matches);
  }

  lemma FirstDiffers(row: Row<Value>, rest: seq<Row<Value>>, limit: Option<nat>)
    requires row !in rest && limit != Some(0)
    ensures Take(rest, limit) != Take([row] + rest, limit)
  {
    var a, b := Take(rest, limit), Take([row] + rest, limit);
    assert b[0] == row;
    if a != [] {
      assert a[0] in rest;
    }
  }

  lemma MatchingOne(row: Row<Value>, matches: Value -> bool)
    ensures Matching([row], matches) == if matches(row.value) then [row] else []
  {
    assert [row][..0] == [];
  }

  lemma {:induction false} MatchingFrom(rows: seq<Row<Value>>, matches: Value -> bool)
    ensures forall row :: row in Matching(rows, matches) ==> row in rows
    decreases |rows|
  {
    if rows != [] {
      MatchingFrom(rows[..|rows| - 1], matches);
    }
  }
}

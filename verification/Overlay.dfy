/**
 Scans of a map under staged writes: the lazy two-way merge of the B-tree transaction
 (`merge_sides` in `src/store/btree.rs`) and the collect, sort and truncate of the cached
 transaction (`merge_staged` in `src/store/lsm/cached.rs`).
 */
module Overlay {
  import opened Keys
  import opened Wrappers
  import opened Rows
  import opened Merge
  import opened Paging

  /** The map with a table of operations applied. */
  ghost function Overlaid(m: map<Key, Value>, t: Table): (r: map<Key, Value>)
  {
    map k | k in m.Keys + t.Keys && (k in t ==> t[k].Some?) :: if k in t then t[k].value else m[k]
  }

  /** Staged writes put or deleted one by one. */
  method ApplyTable(m: map<Key, Value>, staged: Table) returns (r: map<Key, Value>)
    ensures r == Overlaid(m, staged)
  {
    hide Overlaid;
    r := m;
    var left := staged.Keys;
    PartNone(m, staged);
    while left != {}
      invariant left <= staged.Keys && r == Overlaid(m, PartOf(staged, left))
      decreases |left|
    {
      var k :| k in left;
      PartStep(m, staged, left, k);
      if staged[k].Some? {
        r := r[k := staged[k].value];
      } else {
        r := r - {k};
      }
      left := left - {k};
    }
    assert PartOf(staged, left) == staged;
  }

  /** The entries already applied. */
  ghost function PartOf(t: Table, left: set<Key>): (r: Table)
  {
    map k | k in t && k !in left :: t[k]
  }

  lemma PartNone(m: map<Key, Value>, t: Table)
    ensures Overlaid(m, PartOf(t, t.Keys)) == m
  {
  }

  lemma PartStep(m: map<Key, Value>, t: Table, left: set<Key>, k: Key)
    requires k in left && left <= t.Keys
    ensures var r := Overlaid(m, PartOf(t, left));
            Overlaid(m, PartOf(t, left - {k})) == if t[k].Some? then r[k := t[k].value] else r - {k}
  {
  }

  // ---------------------------------------------------------------------------
  // Rows in scan order
  // ---------------------------------------------------------------------------

  predicate Precedes(direction: Direction, a: Key, b: Key)
  {
    if direction.Next? then Lt(a, b) else Lt(b, a)
  }

  ghost predicate Ordered<V>(direction: Direction, rows: seq<Row<V>>)
  {
    forall i, j :: 0 <= i < j < |rows| ==> Precedes(direction, rows[i].key, rows[j].key)
  }

  /** `in_window`. */
  predicate InWindow(k: Key, direction: Direction, cursor: Cursor)
  {
    !NoStart(direction, cursor) && InRange(k, Lower(direction, cursor), Upper(direction, cursor))
  }

  ghost predicate RowOf<V>(m: map<Key, V>, direction: Direction, cursor: Cursor, row: Row<V>)
  {
    row.key in m && m[row.key] == row.value && InWindow(row.key, direction, cursor)
  }

  /** Exactly the rows of `m` in the window, in any order. */
  ghost predicate Members<V(!new)>(rows: seq<Row<V>>, m: map<Key, V>, direction: Direction, cursor: Cursor)
  {
    forall row :: row in rows <==> RowOf(m, direction, cursor, row)
  }

  lemma WindowOrdered<V(!new)>(m: map<Key, V>, direction: Direction, cursor: Cursor)
    ensures Ordered(direction, Window(m, direction, cursor))
    ensures Members(Window(m, direction, cursor), m, direction, cursor)
  {
    hide Lt, Listing;
    var part := Restrict(m, Lower(direction, cursor), Upper(direction, cursor));
    var rows := Listing(part);
    ListingLists(part);
    var w := Window(m, direction, cursor);
    forall row
      ensures row in w <==> RowOf(m, direction, cursor, row)
    {
      if RowOf(m, direction, cursor, row) {
        assert Row(row.key, part[row.key]) in rows;
        var i :| 0 <= i < |rows| && rows[i] == row;
        assert direction.Prev? ==> w[|rows| - 1 - i] == row;
      }
    }
  }

  /** Two ordered runs with the same rows are equal. */
  lemma {:induction false} OrderedUnique<V(!new)>(direction: Direction, a: seq<Row<V>>, b: seq<Row<V>>)
    requires Ordered(direction, a) && Ordered(direction, b) && forall row :: row in a <==> row in b
    ensures a == b
    decreases |a|
  {
    hide Lt;
    if a == [] {
      if b != [] {
        HasRow(b);
      }
    } else {
      assert a[0] in a && b != [];
      FirstRow(direction, a, b);
      OrderedTail(direction, a);
      OrderedTail(direction, b);
      OrderedUnique(direction, a[1..], b[1..]);
    }
  }

  lemma HasRow<V(!new)>(rows: seq<Row<V>>)
    requires rows != []
    ensures exists row :: row in rows
  {
    assert rows[0] in rows;
  }

  lemma FirstRow<V(!new)>(direction: Direction, a: seq<Row<V>>, b: seq<Row<V>>)
    requires Ordered(direction, a) && Ordered(direction, b) && (forall row :: row in a <==> row in b) && a != [] && b != []
    ensures a[0] == b[0]
  {
    hide Lt;
    assert a[0] in b && b[0] in a;
    var i :| 0 <= i < |b| && b[i] == a[0];
    var j :| 0 <= j < |a| && a[j] == b[0];
    Asymmetric(a[0].key, b[0].key);
  }

  lemma OrderedTail<V(!new)>(direction: Direction, a: seq<Row<V>>)
    requires Ordered(direction, a) && a != []
    ensures Ordered(direction, a[1..]) && forall row :: row in a[1..] <==> row in a && row != a[0]
  {
    hide Lt;
    Irreflexive(a[0].key);
    forall row | row in a && row != a[0]
      ensures row in a[1..]
    {
      var i :| 0 <= i < |a| && a[i] == row;
      assert a[1..][i - 1] == row;
    }
  }

  lemma WindowIs<V(!new)>(rows: seq<Row<V>>, m: map<Key, V>, direction: Direction, cursor: Cursor)
    requires Ordered(direction, rows) && Members(rows, m, direction, cursor)
    ensures rows == Window(m, direction, cursor)
  {
    hide Window, Ordered, RowOf;
    WindowOrdered(m, direction, cursor);
    OrderedUnique(direction, rows, Window(m, direction, cursor));
  }

  // ---------------------------------------------------------------------------
  // The two sides
  // ---------------------------------------------------------------------------

  /** Store rows the overlay does not mention. */
  function StoreSide(rows: seq<Row<Value>>, overlay: Table): (r: seq<Row<Value>>)
  {
    if rows == [] then [] else
      (if rows[0].key in overlay then [] else [rows[0]]) + StoreSide(rows[1..], overlay)
  }

  /** Overlay rows without the deletions. */
  function OverlaySide(rows: seq<Row<Slot>>): (r: seq<Row<Value>>)
  {
    if rows == [] then [] else
      (if rows[0].value.Some? then [Row(rows[0].key, rows[0].value.value)] else []) + OverlaySide(rows[1..])
  }

  lemma {:induction false} StoreSideOrdered(direction: Direction, rows: seq<Row<Value>>, overlay: Table)
    requires Ordered(direction, rows)
    ensures Ordered(direction, StoreSide(rows, overlay))
    decreases |rows|
  {
    hide Precedes;
    if rows != [] {
      StoreSideOrdered(direction, rows[1..], overlay);
      StoreSideMembers(rows[1..], overlay);
      var rest := StoreSide(rows[1..], overlay);
      forall i | 0 <= i < |rest|
        ensures Precedes(direction, rows[0].key, rest[i].key)
      {
        assert rest[i] in rest && rest[i] in rows[1..];
      }
    }
  }

  lemma {:induction false} StoreSideMembers(rows: seq<Row<Value>>, overlay: Table)
    ensures forall row :: row in StoreSide(rows, overlay) <==> row in rows && row.key !in overlay
    decreases |rows|
  {
    if rows != [] {
      StoreSideMembers(rows[1..], overlay);
      assert rows == [rows[0]] + rows[1..];
    }
  }

  lemma {:induction false} OverlaySideOrdered(direction: Direction, rows: seq<Row<Slot>>)
    requires Ordered(direction, rows)
    ensures Ordered(direction, OverlaySide(rows))
    ensures forall row :: row in OverlaySide(rows) <==> Row(row.key, Some(row.value)) in rows
    decreases |rows|
  {
    hide Precedes;
    if rows != [] {
      OverlaySideOrdered(direction, rows[1..]);
      assert rows == [rows[0]] + rows[1..];
      forall row | row in OverlaySide(rows[1..])
        ensures Precedes(direction, rows[0].key, row.key)
      {
        var s := Row(row.key, Some(row.value));
        assert s in rows[1..];
        var i :| 0 <= i < |rows[1..]| && rows[1..][i] == s;
        assert rows[i + 1] == s;
      }
    }
  }

  // ---------------------------------------------------------------------------
  // The lazy merge
  // ---------------------------------------------------------------------------

  /** `store` comes first when it precedes or the overlay side is used up. */
  predicate TakeStore(direction: Direction, store: seq<Row<Value>>, overlay: seq<Row<Value>>)
    requires store != [] || overlay != []
  {
    if store == [] then false else if overlay == [] then true else
      store[0].key == overlay[0].key || Precedes(direction, store[0].key, overlay[0].key)
  }

  function Merging(direction: Direction, store: seq<Row<Value>>, overlay: seq<Row<Value>>): (r: seq<Row<Value>>)
    decreases |store| + |overlay|
  {
    if store == [] && overlay == [] then [] else
    if TakeStore(direction, store, overlay) then [store[0]] + Merging(direction, store[1..], overlay)
    else [overlay[0]] + Merging(direction, store, overlay[1..])
  }

  ghost predicate Apart(a: seq<Row<Value>>, b: seq<Row<Value>>)
  {
    forall i, j :: 0 <= i < |a| && 0 <= j < |b| ==> a[i].key != b[j].key
  }

  /** Every row comes after `k`. */
  ghost predicate AllAfter(direction: Direction, k: Key, rows: seq<Row<Value>>)
  {
    forall i :: 0 <= i < |rows| ==> Precedes(direction, k, rows[i].key)
  }

  lemma PrecedesAll(direction: Direction, a: Key, rows: seq<Row<Value>>)
    requires Ordered(direction, rows) && rows != [] && Precedes(direction, a, rows[0].key)
    ensures AllAfter(direction, a, rows)
  {
    hide Lt;
    forall i | 0 <= i < |rows|
      ensures Precedes(direction, a, rows[i].key)
    {
      if i > 0 {
        if direction.Next? {
          Transitive(a, rows[0].key, rows[i].key);
        } else {
          Transitive(rows[i].key, rows[0].key, a);
        }
      }
    }
  }

  lemma {:induction false} MergingMembers(direction: Direction, store: seq<Row<Value>>, overlay: seq<Row<Value>>)
    ensures forall row :: row in Merging(direction, store, overlay) <==> row in store || row in overlay
    decreases |store| + |overlay|
  {
    if store != [] || overlay != [] {
      if TakeStore(direction, store, overlay) {
        MergingMembers(direction, store[1..], overlay);
        assert store == [store[0]] + store[1..];
      } else {
        MergingMembers(direction, store, overlay[1..]);
        assert overlay == [overlay[0]] + overlay[1..];
      }
    }
  }

  lemma ConsOrdered(direction: Direction, row: Row<Value>, a: seq<Row<Value>>, b: seq<Row<Value>>, rest: seq<Row<Value>>)
    requires Ordered(direction, rest) && AllAfter(direction, row.key, a) && AllAfter(direction, row.key, b)
    requires forall r :: r in rest <==> r in a || r in b
    ensures Ordered(direction, [row] + rest)
  {
    hide Precedes;
    forall i | 0 <= i < |rest|
      ensures Precedes(direction, row.key, rest[i].key)
    {
      assert rest[i] in a || rest[i] in b;
    }
  }

  lemma {:induction false} MergingOrdered(direction: Direction, store: seq<Row<Value>>, overlay: seq<Row<Value>>)
    requires Ordered(direction, store) && Ordered(direction, overlay) && Apart(store, overlay)
    ensures Ordered(direction, Merging(direction, store, overlay))
    decreases |store| + |overlay|
  {
    if store != [] || overlay != [] {
      NextIsFirst(direction, store, overlay);
      hide Precedes, Lt;
      if TakeStore(direction, store, overlay) {
        MergingOrdered(direction, store[1..], overlay);
        MergingMembers(direction, store[1..], overlay);
        ConsOrdered(direction, store[0], store[1..], overlay, Merging(direction, store[1..], overlay));
      } else {
        MergingOrdered(direction, store, overlay[1..]);
        MergingMembers(direction, store, overlay[1..]);
        ConsOrdered(direction, overlay[0], store, overlay[1..], Merging(direction, store, overlay[1..]));
      }
    }
  }

  /** The row taken comes before all the others. */
  lemma NextIsFirst(direction: Direction, store: seq<Row<Value>>, overlay: seq<Row<Value>>)
    requires Ordered(direction, store) && Ordered(direction, overlay) && Apart(store, overlay) && (store != [] || overlay != [])
    ensures if TakeStore(direction, store, overlay)
            then AllAfter(direction, store[0].key, store[1..]) && AllAfter(direction, store[0].key, overlay)
            else AllAfter(direction, overlay[0].key, store) && AllAfter(direction, overlay[0].key, overlay[1..])
  {
    hide Lt;
    if store != [] && overlay != [] {
      assert store[0].key != overlay[0].key;
      Total(store[0].key, overlay[0].key);
      if TakeStore(direction, store, overlay) {
        PrecedesAll(direction, store[0].key, overlay);
      } else {
        PrecedesAll(direction, overlay[0].key, store);
      }
    }
  }

  lemma MergingUnfold(direction: Direction, store: seq<Row<Value>>, overlay: seq<Row<Value>>, i: nat, j: nat)
    requires i <= |store| && j <= |overlay|
    ensures Merging(direction, store[i..], overlay[j..]) ==
            if i == |store| && j == |overlay| then []
            else if i < |store| && (j == |overlay| || store[i].key == overlay[j].key ||
                                    Precedes(direction, store[i].key, overlay[j].key))
            then [store[i]] + Merging(direction, store[i + 1..], overlay[j..])
            else [overlay[j]] + Merging(direction, store[i..], overlay[j + 1..])
  {
    hide Precedes;
    if i < |store| {
      assert store[i..][1..] == store[i + 1..];
    }
    if j < |overlay| {
      assert overlay[j..][1..] == overlay[j + 1..];
    }
  }

  lemma PushFirst(out: seq<Row<Value>>, row: Row<Value>, rest: seq<Row<Value>>, all: seq<Row<Value>>)
    requires out + rest == all && rest != [] && rest[0] == row
    ensures (out + [row]) + rest[1..] == all
  {
  }

  lemma TakeIs(all: seq<Row<Value>>, out: seq<Row<Value>>, rest: seq<Row<Value>>, limit: Option<nat>)
    requires out + rest == all && (limit.Some? ==> |out| <= limit.value)
    ensures rest == [] || (limit.Some? && |out| == limit.value) ==> out == Take(all, limit)
  {
  }

  method MergeSides(store: seq<Row<Value>>, overlay: seq<Row<Value>>, limit: Option<nat>, direction: Direction)
    returns (out: seq<Row<Value>>)
    ensures out == Take(Merging(direction, store, overlay), limit)
  {
    hide Precedes, Merging, TakeStore, Take;
    out := [];
    var i, j := 0, 0;
    assert store[0..] == store && overlay[0..] == overlay;
    ghost var all := Merging(direction, store, overlay);
    ghost var rest := all;
    while true
      invariant i <= |store| && j <= |overlay|
      invariant rest == Merging(direction, store[i..], overlay[j..])
      invariant out + rest == all
      invariant limit.Some? ==> |out| <= limit.value
      decreases |store| - i + |overlay| - j
    {
      MergingUnfold(direction, store, overlay, i, j);
      if (limit.Some? && |out| >= limit.value) || (i == |store| && j == |overlay|) {
        TakeIs(all, out, rest, limit);
        break;
      }
      var takeStore := if i == |store| then false else if j == |overlay| then true else
        store[i].key == overlay[j].key || Precedes(direction, store[i].key, overlay[j].key);
      if takeStore {
        PushFirst(out, store[i], rest, all);
        out := out + [store[i]];
        i := i + 1;
      } else {
        PushFirst(out, overlay[j], rest, all);
        out := out + [overlay[j]];
        j := j + 1;
      }
      rest := rest[1..];
    }
  }

  /** The transaction's scan: the reference scan of the overlaid map, in either direction. */
  method BuildOverlay(m: map<Key, Value>, overlay: Table, limit: Option<nat>, direction: Direction, cursor: Cursor)
    returns (out: seq<Row<Value>>)
    ensures out == Scan(Overlaid(m, overlay), limit, direction, cursor)
  {
    hide Window, Merging, StoreSide, OverlaySide;
    var base := GetsBytes(m, None, direction, cursor);
    var staged := GetsBytes(overlay, None, direction, cursor);
    SidesMerge(m, overlay, direction, cursor);
    out := MergeSides(StoreSide(base, overlay), OverlaySide(staged), limit, direction);
  }

  lemma SidesMerge(m: map<Key, Value>, overlay: Table, direction: Direction, cursor: Cursor)
    ensures Merging(direction, StoreSide(Window(m, direction, cursor), overlay), OverlaySide(Window(overlay, direction, cursor))) ==
            Window(Overlaid(m, overlay), direction, cursor)
  {
    hide Window, Merging, StoreSide, OverlaySide, InWindow, Ordered;
    WindowOrdered(m, direction, cursor);
    WindowOrdered(overlay, direction, cursor);
    var a, b := StoreSide(Window(m, direction, cursor), overlay), OverlaySide(Window(overlay, direction, cursor));
    StoreSideOrdered(direction, Window(m, direction, cursor), overlay);
    StoreSideMembers(Window(m, direction, cursor), overlay);
    OverlaySideOrdered(direction, Window(overlay, direction, cursor));
    assert Apart(a, b) by {
      forall i, j | 0 <= i < |a| && 0 <= j < |b|
        ensures a[i].key != b[j].key
      {
        assert a[i] in a && b[j] in b;
        assert RowOf(overlay, direction, cursor, Row(b[j].key, Some(b[j].value)));
      }
    }
    MergingOrdered(direction, a, b);
    MergingMembers(direction, a, b);
    var all := Merging(direction, a, b);
    forall row
      ensures row in all <==> RowOf(Overlaid(m, overlay), direction, cursor, row)
    {
      assert row in Window(m, direction, cursor) <==> RowOf(m, direction, cursor, row);
      var s := Row(row.key, Some(row.value));
      assert s in Window(overlay, direction, cursor) <==> RowOf(overlay, direction, cursor, s);
    }
    WindowIs(all, Overlaid(m, overlay), direction, cursor);
  }

  // ---------------------------------------------------------------------------
  // Collect, sort and truncate
  // ---------------------------------------------------------------------------

  function WithoutRow(rows: seq<Row<Value>>, k: Key): (r: seq<Row<Value>>)
    ensures forall row :: row in r <==> row in rows && row.key != k
  {
    if rows == [] then [] else
      assert forall row :: row in rows <==> row == rows[0] || row in rows[1..];
      (if rows[0].key == k then [] else [rows[0]]) + WithoutRow(rows[1..], k)
  }

  ghost predicate DistinctRows(rows: seq<Row<Value>>)
  {
    forall i, j :: 0 <= i < j < |rows| ==> rows[i].key != rows[j].key
  }

  lemma {:induction false} WithoutDistinct(rows: seq<Row<Value>>, k: Key)
    requires DistinctRows(rows)
    ensures DistinctRows(WithoutRow(rows, k))
    decreases |rows|
  {
    if rows != [] {
      WithoutDistinct(rows[1..], k);
      var rest := WithoutRow(rows[1..], k);
      forall i | 0 <= i < |rest|
        ensures rest[i].key != rows[0].key
      {
        assert rest[i] in rest && rest[i] in rows[1..];
      }
    }
  }

  /** The row put where the order wants it. */
  function InsertRow(direction: Direction, row: Row<Value>, rows: seq<Row<Value>>): (r: seq<Row<Value>>)
  {
    if rows == [] || Precedes(direction, row.key, rows[0].key) then [row] + rows
    else [rows[0]] + InsertRow(direction, row, rows[1..])
  }

  /** `sort_by` on the key. */
  function SortRows(direction: Direction, rows: seq<Row<Value>>): (r: seq<Row<Value>>)
  {
    if rows == [] then [] else InsertRow(direction, rows[0], SortRows(direction, rows[1..]))
  }

  lemma {:induction false} InsertMembers(direction: Direction, row: Row<Value>, rows: seq<Row<Value>>)
    ensures forall x :: x in InsertRow(direction, row, rows) <==> x == row || x in rows
  {
    if rows != [] {
      InsertMembers(direction, row, rows[1..]);
      assert rows == [rows[0]] + rows[1..];
    }
  }

  lemma {:induction false} InsertOrdered(direction: Direction, row: Row<Value>, rows: seq<Row<Value>>)
    requires Ordered(direction, rows) && forall x :: x in rows ==> x.key != row.key
    ensures Ordered(direction, InsertRow(direction, row, rows))
    decreases |rows|
  {
    hide Lt;
    if rows == [] {
    } else if Precedes(direction, row.key, rows[0].key) {
      PrecedesAll(direction, row.key, rows);
    } else {
      assert rows[0] in rows;
      Total(row.key, rows[0].key);
      InsertOrdered(direction, row, rows[1..]);
      InsertMembers(direction, row, rows[1..]);
      ConsOrdered(direction, rows[0], rows[1..], [row], InsertRow(direction, row, rows[1..]));
    }
  }

  lemma {:induction false} SortMembers(direction: Direction, rows: seq<Row<Value>>)
    ensures forall x :: x in SortRows(direction, rows) <==> x in rows
    decreases |rows|
  {
    hide InsertRow;
    if rows != [] {
      SortMembers(direction, rows[1..]);
      InsertMembers(direction, rows[0], SortRows(direction, rows[1..]));
      assert rows == [rows[0]] + rows[1..];
    }
  }

  lemma {:induction false} SortOrdered(direction: Direction, rows: seq<Row<Value>>)
    requires DistinctRows(rows)
    ensures Ordered(direction, SortRows(direction, rows))
    decreases |rows|
  {
    hide InsertRow, Precedes;
    if rows != [] {
      SortOrdered(direction, rows[1..]);
      SortMembers(direction, rows[1..]);
      InsertOrdered(direction, rows[0], SortRows(direction, rows[1..]));
    }
  }

  function Staged(rows: seq<Row<Value>>, k: Key, v: Slot, direction: Direction, cursor: Cursor): (r: seq<Row<Value>>)
  {
    if !InWindow(k, direction, cursor) then rows
    else if v.Some? then WithoutRow(rows, k) + [Row(k, v.value)]
    else WithoutRow(rows, k)
  }

  /** One staged write in the window replaces, adds or removes its row. */
  lemma StagedStep(rows: seq<Row<Value>>, m: map<Key, Value>, direction: Direction, cursor: Cursor, k: Key, v: Slot)
    requires Members(rows, m, direction, cursor) && DistinctRows(rows)
    ensures var next := Staged(rows, k, v, direction, cursor);
            Members(next, Overlaid(m, map[k := v]), direction, cursor) && DistinctRows(next)
  {
    hide InWindow, WithoutRow;
    WithoutDistinct(rows, k);
    var kept, u := WithoutRow(rows, k), Overlaid(m, map[k := v]);
    forall row
      ensures RowOf(u, direction, cursor, row) <==>
              (if row.key == k then InWindow(k, direction, cursor) && v == Some(row.value) else RowOf(m, direction, cursor, row))
    {
    }
    if InWindow(k, direction, cursor) {
      assert forall i :: 0 <= i < |kept| ==> kept[i] in kept && kept[i].key != k;
    }
  }

  /** Merges staged writes over an unlimited base scan. */
  method MergeStaged(base: seq<Row<Value>>, staged: Table, direction: Direction, cursor: Cursor, limit: Option<nat>,
                     ghost m: map<Key, Value>)
    returns (rows: seq<Row<Value>>)
    requires base == Window(m, direction, cursor)
    ensures rows == Scan(Overlaid(m, staged), limit, direction, cursor)
  {
    hide Window, Members, DistinctRows, SortRows, Ordered, Overlaid, Listing, Lists, Rest, Staged;
    WindowOrdered(m, direction, cursor);
    OrderedDistinct(direction, base);
    var writes := InOrder(staged);
    ListingLists(staged);
    RestAll(staged, writes);
    OverlaidNone(m, writes);
    rows := base;
    for i := 0 to |writes|
      invariant Members(rows, Overlaid(m, Rest(writes, i)), direction, cursor) && DistinctRows(rows)
    {
      StagedStep(rows, Overlaid(m, Rest(writes, i)), direction, cursor, writes[i].key, writes[i].value);
      RestStep(m, writes, i);
      rows := StageOne(rows, writes[i].key, writes[i].value, direction, cursor);
    }
    SortOrdered(direction, rows);
    SortedIsWindow(rows, Overlaid(m, staged), direction, cursor);
    rows := SortRows(direction, rows);
    rows := Take(rows, limit);
  }

  /** The loop body. */
  method StageOne(rows: seq<Row<Value>>, k: Key, v: Slot, direction: Direction, cursor: Cursor) returns (r: seq<Row<Value>>)
    ensures r == Staged(rows, k, v, direction, cursor)
  {
    if !InWindow(k, direction, cursor) {
      return rows;
    }
    r := WithoutRow(rows, k);
    if v.Some? {
      r := r + [Row(k, v.value)];
    }
  }

  /** The first `n` staged writes as a table. */
  ghost function Rest(writes: Run, n: nat): (t: Table)
    requires n <= |writes|
  {
    if n == 0 then map[] else Rest(writes, n - 1)[writes[n - 1].key := writes[n - 1].value]
  }

  lemma OverlaidNone(m: map<Key, Value>, writes: Run)
    ensures Overlaid(m, Rest(writes, 0)) == m
  {
  }

  lemma RestStep(m: map<Key, Value>, writes: Run, i: nat)
    requires i < |writes|
    ensures Overlaid(m, Rest(writes, i + 1)) == Overlaid(Overlaid(m, Rest(writes, i)), map[writes[i].key := writes[i].value])
  {
  }

  lemma {:induction false} RestHas(writes: Run, n: nat)
    requires n <= |writes| && Sorted(writes)
    ensures forall i :: 0 <= i < n ==> writes[i].key in Rest(writes, n) && Rest(writes, n)[writes[i].key] == writes[i].value
    ensures forall k :: k in Rest(writes, n) ==> exists i :: 0 <= i < n && writes[i].key == k
  {
    if n > 0 {
      RestHas(writes, n - 1);
      Irreflexive(writes[n - 1].key);
      forall k | k in Rest(writes, n)
        ensures exists i :: 0 <= i < n && writes[i].key == k
      {
        if k != writes[n - 1].key {
          assert k in Rest(writes, n - 1);
          var i :| 0 <= i < n - 1 && writes[i].key == k;
        }
      }
    }
  }

  lemma RestAll(staged: Table, writes: Run)
    requires Lists(writes, staged)
    ensures Rest(writes, |writes|) == staged
  {
    RestHas(writes, |writes|);
    forall k | k in staged
      ensures k in Rest(writes, |writes|) && Rest(writes, |writes|)[k] == staged[k]
    {
      assert Row(k, staged[k]) in writes;
    }
  }

  lemma OrderedDistinct(direction: Direction, rows: seq<Row<Value>>)
    requires Ordered(direction, rows)
    ensures DistinctRows(rows)
  {
    hide Lt;
    forall i, j | 0 <= i < j < |rows|
      ensures rows[i].key != rows[j].key
    {
      assert Precedes(direction, rows[i].key, rows[j].key);
      Irreflexive(rows[i].key);
    }
  }

  lemma SortedIsWindow(rows: seq<Row<Value>>, m: map<Key, Value>, direction: Direction, cursor: Cursor)
    requires Members(rows, m, direction, cursor) && Ordered(direction, SortRows(direction, rows))
    ensures SortRows(direction, rows) == Window(m, direction, cursor)
  {
    hide Window, Ordered, RowOf;
    SortMembers(direction, rows);
    WindowIs(SortRows(direction, rows), m, direction, cursor);
  }

  /** Overlaying twice is overlaying once, so a base that already holds the staged writes scans the same. */
  lemma OverlaidAgain(m: map<Key, Value>, t: Table)
    ensures Overlaid(Overlaid(m, t), t) == Overlaid(m, t)
  {
  }
}

/**
 Point lookups and range scans of the LSM engine implement one logical map: the newest
 slot of every key across the in-memory layers and the SST tables, with tombstones
 suppressed and blob pointers dereferenced.
 */
module LogicalMap {
  import opened Keys
  import opened Wrappers
  import opened Rows
  import opened Merge
  import opened Read
  import opened RangeRead

  ghost predicate SortedStack(layers: seq<Run>, tables: seq<Run>)
  {
    AllSorted(layers) && AllSorted(tables)
  }

  lemma StackSorted(layers: seq<Run>, tables: seq<Run>)
    requires SortedStack(layers, tables)
    ensures AllSorted(layers + Newest(tables)) && AllSorted(Newest(tables))
  {
  }

  ghost function StackTable(layers: seq<Run>, tables: seq<Run>): (t: Table)
    requires SortedStack(layers, tables)
  {
    StackSorted(layers, tables);
    Merged(layers + Newest(tables))
  }

  ghost function DerefMap(ctx: ReadCtx, m: map<Key, Value>): map<Key, Value>
  {
    map k | k in m :: Deref(ctx, m[k])
  }

  ghost function Logical(ctx: ReadCtx, layers: seq<Run>, tables: seq<Run>): (m: map<Key, Value>)
    requires SortedStack(layers, tables)
  {
    DerefMap(ctx, Live(StackTable(layers, tables)))
  }

  // ---------------------------------------------------------------------------
  // Point lookups
  // ---------------------------------------------------------------------------

  lemma {:induction false} FirstSlotConcat(a: seq<Run>, b: seq<Run>, key: Key)
    ensures FirstSlot(a + b, key) == if FirstSlot(a, key).Some? then FirstSlot(a, key) else FirstSlot(b, key)
  {
    if a == [] {
      assert a + b == b;
    } else {
      FirstSlotConcat(a[1..], b, key);
      assert (a + b)[1..] == a[1..] + b;
    }
  }

  /** A lookup staged with the newest layers' hit answers from the logical map. */
  lemma PointIsLogical(ctx: ReadCtx, layers: seq<Run>, tables: seq<Run>, key: Key)
    requires SortedStack(layers, tables)
    ensures var staged, m := FirstSlot(layers, key), Logical(ctx, layers, tables);
            var raw := Live(StackTable(layers, tables));
            Outcome(ctx, if staged.Some? then staged else FirstSlot(Newest(tables), key)) ==
            if key in raw && ctx.resolve(raw[key]).Err? then Err(ctx.resolve(raw[key]).error)
            else Ok(if key in m then Some(m[key]) else None)
  {
    hide FirstSlot, Merged, Sorted, Newest;
    StackSorted(layers, tables);
    FirstSlotConcat(layers, Newest(tables), key);
    FirstSlotIsMerged(layers + Newest(tables), key);
  }

  // ---------------------------------------------------------------------------
  // Range scans
  // ---------------------------------------------------------------------------

  lemma ListingDeref(ctx: ReadCtx, m: map<Key, Value>)
    ensures DerefRows(ctx, Listing(m)) == Listing(DerefMap(ctx, m))
  {
    hide Listing;
    ListingLists(m);
    var rows, n := DerefRows(ctx, Listing(m)), DerefMap(ctx, m);
    assert Sorted(rows) by {
      assert forall i :: 0 <= i < |rows| ==> rows[i].key == Listing(m)[i].key;
    }
    forall k | k in n
      ensures Row(k, n[k]) in rows
    {
      assert Row(k, m[k]) in Listing(m);
      var i :| 0 <= i < |rows| && Listing(m)[i] == Row(k, m[k]);
      assert rows[i] == Row(k, n[k]);
    }
    ListingIs(rows, n);
  }

  lemma FilterRunsConcat(a: seq<Run>, b: seq<Run>, lower: Option<Key>, upper: Option<Key>)
    ensures FilterRuns(a + b, lower, upper) == FilterRuns(a, lower, upper) + FilterRuns(b, lower, upper)
  {
    hide FilterRange;
    var r, s := FilterRuns(a + b, lower, upper), FilterRuns(a, lower, upper) + FilterRuns(b, lower, upper);
    forall i | 0 <= i < |a + b|
      ensures r[i] == s[i]
    {
      assert r[i] == FilterRange((a + b)[i], lower, upper);
    }
  }

  /** The windowed stack is the stack's table restricted to the window. */
  lemma WindowTable(layers: seq<Run>, tables: seq<Run>, lower: Option<Key>, upper: Option<Key>)
    requires SortedStack(layers, tables)
    ensures AllSorted(FilterRuns(layers, lower, upper))
    ensures AllSorted(FilterRuns(layers, lower, upper) + FilterRuns(Newest(tables), lower, upper))
    ensures Merged(FilterRuns(layers, lower, upper) + FilterRuns(Newest(tables), lower, upper)) ==
            Restrict(StackTable(layers, tables), lower, upper)
  {
    hide Merged, Sorted, FilterRuns, Restrict, Newest;
    StackSorted(layers, tables);
    FilterRunsConcat(layers, Newest(tables), lower, upper);
    FilterRunsMerged(layers + Newest(tables), lower, upper);
    FilterRunsSorted(layers, lower, upper);
  }

  lemma RestrictLive(ctx: ReadCtx, t: Table, lower: Option<Key>, upper: Option<Key>)
    ensures DerefMap(ctx, Live(Restrict(t, lower, upper))) == Restrict(DerefMap(ctx, Live(t)), lower, upper)
  {
    hide InRange, Deref;
  }

  /** Forward: the lazy merge over windowed layers and file scans is the reference scan of the logical map. */
  lemma NextIsScan(ctx: ReadCtx, layers: seq<Run>, tables: seq<Run>, limit: Option<nat>, cursor: Cursor)
    requires SortedStack(layers, tables)
    ensures AllSorted(FilterRuns(layers, cursor.0, cursor.1))
    ensures DerefRows(ctx, Take(WindowRows(FilterRuns(layers, cursor.0, cursor.1), tables, cursor.0, cursor.1), limit)) ==
            Scan(Logical(ctx, layers, tables), limit, Next, cursor)
  {
    hide Merged, Sorted, FilterRuns, Restrict, Live, Listing, DerefMap, Newest;
    var t := StackTable(layers, tables);
    WindowTable(layers, tables, cursor.0, cursor.1);
    var m := Live(Restrict(t, cursor.0, cursor.1));
    ListingDeref(ctx, m);
    RestrictLive(ctx, t, cursor.0, cursor.1);
    DerefTake(ctx, Listing(m), limit);
  }

  lemma DerefTake(ctx: ReadCtx, rows: seq<Row<Value>>, limit: Option<nat>)
    ensures DerefRows(ctx, Take(rows, limit)) == Take(DerefRows(ctx, rows), limit)
  {
  }

  lemma MergedCons(runs: seq<Run>)
    requires AllSorted(runs) && runs != []
    ensures Merged(runs) == Merged(runs[1..]) + AsMap(runs[0])
  {
  }

  lemma {:induction false} MergedConcat(a: seq<Run>, b: seq<Run>)
    requires AllSorted(a) && AllSorted(b)
    ensures AllSorted(a + b)
    ensures Merged(a + b) == Merged(b) + Merged(a)
  {
    hide AsMap, Sorted;
    if a == [] {
      assert a + b == b;
    } else {
      MergedConcat(a[1..], b);
      MergedCons(a);
      assert (a + b)[1..] == a[1..] + b && (a + b)[0] == a[0];
      MergedCons(a + b);
      hide Merged;
      PlusAssoc(Merged(b), Merged(a[1..]), AsMap(a[0]));
    }
  }

  ghost function DerefTable(ctx: ReadCtx, t: Table): Table
  {
    map k | k in t :: DerefSlot(ctx, t[k])
  }

  lemma AsMapDeref(ctx: ReadCtx, run: Run)
    requires Sorted(run)
    ensures Sorted(DerefRun(ctx, run)) && AsMap(DerefRun(ctx, run)) == DerefTable(ctx, AsMap(run))
  {
    hide AsMap, DerefSlot;
    var r, t := DerefRun(ctx, run), DerefTable(ctx, AsMap(run));
    assert forall j :: 0 <= j < |run| ==> r[j].key == run[j].key;
    AsMapLists(run);
    AsMapLists(r);
    forall k | k in t
      ensures Row(k, t[k]) in r
    {
      assert Row(k, AsMap(run)[k]) in run;
      var i :| 0 <= i < |run| && run[i] == Row(k, AsMap(run)[k]);
      assert r[i] == Row(k, t[k]);
    }
    SameListing(r, AsMap(r), t);
  }

  lemma {:induction false} DerefRunsMerged(ctx: ReadCtx, runs: seq<Run>)
    requires AllSorted(runs)
    ensures AllSorted(DerefRuns(ctx, runs))
    ensures Merged(DerefRuns(ctx, runs)) == DerefTable(ctx, Merged(runs))
  {
    hide AsMap, Sorted, DerefRun, DerefSlot;
    DerefRunsSorted(ctx, runs);
    if runs != [] {
      DerefRunsMerged(ctx, runs[1..]);
      assert DerefRuns(ctx, runs)[1..] == DerefRuns(ctx, runs[1..]);
      AsMapDeref(ctx, runs[0]);
    }
  }

  /** What the in-memory layers decide inside a window. */
  ghost function LayerWindow(layers: seq<Run>, lower: Option<Key>, upper: Option<Key>): (t: Table)
    requires AllSorted(layers)
  {
    Restrict(Merged(layers), lower, upper)
  }

  /**
   None of the first `limit` rows of the window, as stored, is a layer value that
   dereferencing changes.
   */
  ghost predicate FirstUntagged(ctx: ReadCtx, layers: seq<Run>, tables: seq<Run>, limit: Option<nat>, cursor: Cursor)
    requires SortedStack(layers, tables)
  {
    forall row :: row in Scan(Live(StackTable(layers, tables)), limit, Prev, cursor) && row.key in Merged(layers) ==>
      Deref(ctx, row.value) == row.value
  }

  /** The map the backward scan lists, next to the window of the logical map. */
  lemma PrevMap(ctx: ReadCtx, layers: seq<Run>, tables: seq<Run>, lower: Option<Key>, upper: Option<Key>)
    requires SortedStack(layers, tables)
    ensures AllSorted(FilterRuns(layers, lower, upper))
    ensures var a, b := LayerWindow(layers, lower, upper), Restrict(StackTable([], tables), lower, upper);
            && PrevTable(ctx, FilterRuns(layers, lower, upper), tables, lower, upper) == DerefTable(ctx, b) + a
            && Restrict(Logical(ctx, layers, tables), lower, upper) == DerefMap(ctx, Live(b + a))
  {
    hide Merged, Sorted, FilterRuns, Restrict, Live, DerefMap, DerefTable, Newest, DerefRuns;
    var fl, ft := FilterRuns(layers, lower, upper), FilterRuns(Newest(tables), lower, upper);
    StackSorted(layers, tables);
    assert [] + Newest(tables) == Newest(tables);
    FilterRunsMerged(layers, lower, upper);
    FilterRunsMerged(Newest(tables), lower, upper);
    DerefRunsMerged(ctx, ft);
    MergedConcat(fl, DerefRuns(ctx, ft));
    MergedConcat(fl, ft);
    WindowTable(layers, tables, lower, upper);
    RestrictLive(ctx, StackTable(layers, tables), lower, upper);
  }

  /** The two maps have the keys of the stored one and differ exactly at changed layer values. */
  lemma PrevMapsAgree(ctx: ReadCtx, a: Table, b: Table)
    ensures var p, q, raw := Live(DerefTable(ctx, b) + a), DerefMap(ctx, Live(b + a)), Live(b + a);
            && p.Keys == raw.Keys && q.Keys == raw.Keys
            && forall k :: k in raw ==> (p[k] == q[k] <==> (k in a ==> Deref(ctx, raw[k]) == raw[k]))
  {
    hide Deref;
  }

  /** The backward merge lists only keys of the window. */
  lemma PrevInWindow(ctx: ReadCtx, a: Table, b: Table, lower: Option<Key>, upper: Option<Key>)
    ensures var p := Live(DerefTable(ctx, Restrict(b, lower, upper)) + Restrict(a, lower, upper)); Restrict(p, lower, upper) == p
  {
    hide InRange;
  }

  /** Maps with the same keys list them at the same places. */
  lemma SameKeysListing(p: map<Key, Value>, q: map<Key, Value>)
    requires p.Keys == q.Keys
    ensures |Listing(p)| == |Listing(q)|
    ensures forall i :: 0 <= i < |Listing(p)| ==>
              Listing(p)[i].key in p && Listing(p)[i] == Row(Listing(q)[i].key, p[Listing(p)[i].key])
  {
    hide Lt, Listing;
    ListingLists(p);
    var rows := Listing(p);
    var other := seq(|rows|, i requires 0 <= i < |rows| => Row(rows[i].key, q[rows[i].key]));
    forall k | k in q
      ensures Row(k, q[k]) in other
    {
      assert Row(k, p[k]) in rows;
      var i :| 0 <= i < |rows| && rows[i] == Row(k, p[k]);
      assert other[i] == Row(k, q[k]);
    }
    ListingIs(other, q);
  }

  /** So their scans agree exactly when the maps agree at the keys scanned. */
  lemma SameKeysScan(p: map<Key, Value>, q: map<Key, Value>, raw: map<Key, Value>, limit: Option<nat>)
    requires p.Keys == raw.Keys && q.Keys == raw.Keys
    ensures Take(Reverse(Listing(p)), limit) == Take(Reverse(Listing(q)), limit) <==>
            forall row :: row in Take(Reverse(Listing(raw)), limit) ==> row.key in p && p[row.key] == q[row.key]
  {
    SameKeysTaken(p, raw, limit);
    SameKeysTaken(q, raw, limit);
    hide Listing, Reverse, Take;
    RowsAgree(p, q, Take(Reverse(Listing(p)), limit), Take(Reverse(Listing(q)), limit), Take(Reverse(Listing(raw)), limit));
  }

  lemma SameKeysTaken(p: map<Key, Value>, raw: map<Key, Value>, limit: Option<nat>)
    requires p.Keys == raw.Keys
    ensures var x, z := Take(Reverse(Listing(p)), limit), Take(Reverse(Listing(raw)), limit);
            |x| == |z| && forall i :: 0 <= i < |z| ==> z[i].key in p && x[i] == Row(z[i].key, p[z[i].key])
  {
    hide Listing, Reverse, Take;
    TakeLength(Listing(p), limit);
    TakeLength(Listing(raw), limit);
    SameCount(p, raw);
    var x, z := Take(Reverse(Listing(p)), limit), Take(Reverse(Listing(raw)), limit);
    forall i | 0 <= i < |z|
      ensures z[i].key in p && x[i] == Row(z[i].key, p[z[i].key])
    {
      SameKeyAt(p, raw, limit, i);
    }
  }

  lemma SameCount(p: map<Key, Value>, raw: map<Key, Value>)
    requires p.Keys == raw.Keys
    ensures |Listing(p)| == |Listing(raw)|
  {
    SameKeysListing(p, raw);
  }

  lemma SameKeyAt(p: map<Key, Value>, raw: map<Key, Value>, limit: Option<nat>, i: nat)
    requires p.Keys == raw.Keys && i < |Take(Reverse(Listing(raw)), limit)| && i < |Take(Reverse(Listing(p)), limit)|
    ensures var x, z := Take(Reverse(Listing(p)), limit), Take(Reverse(Listing(raw)), limit);
            z[i].key in p && x[i] == Row(z[i].key, p[z[i].key])
  {
    hide Listing, Reverse, Take;
    TakeReversed(Listing(p), limit, i);
    TakeReversed(Listing(raw), limit, i);
    SameCount(p, raw);
    SameRowAt(p, raw, |Listing(p)| - 1 - i);
  }

  lemma SameRowAt(p: map<Key, Value>, raw: map<Key, Value>, j: nat)
    requires p.Keys == raw.Keys && j < |Listing(p)| && j < |Listing(raw)|
    ensures Listing(raw)[j].key in p && Listing(p)[j] == Row(Listing(raw)[j].key, p[Listing(raw)[j].key])
  {
    SameKeysListing(p, raw);
    hide Listing;
    assert Listing(p)[j] == Row(Listing(raw)[j].key, p[Listing(p)[j].key]);
  }

  lemma TakeLength(rows: seq<Row<Value>>, limit: Option<nat>)
    ensures |Take(Reverse(rows), limit)| == if limit.Some? && limit.value < |rows| then limit.value else |rows|
  {
    hide Reverse;
  }

  lemma TakeReversed(rows: seq<Row<Value>>, limit: Option<nat>, i: nat)
    requires i < |Take(Reverse(rows), limit)|
    ensures i < |rows| && Take(Reverse(rows), limit)[i] == rows[|rows| - 1 - i]
  {
    hide Reverse;
  }

  lemma RowsAgree(p: map<Key, Value>, q: map<Key, Value>, x: seq<Row<Value>>, y: seq<Row<Value>>, z: seq<Row<Value>>)
    requires p.Keys == q.Keys && |x| == |y| == |z|
    requires forall i :: 0 <= i < |z| ==> z[i].key in p && x[i] == Row(z[i].key, p[z[i].key])
    requires forall i :: 0 <= i < |z| ==> z[i].key in q && y[i] == Row(z[i].key, q[z[i].key])
    ensures x == y <==> forall row :: row in z ==> row.key in p && p[row.key] == q[row.key]
  {
    if x == y {
      forall row | row in z
        ensures p[row.key] == q[row.key]
      {
        var i :| 0 <= i < |z| && z[i] == row;
        assert x[i] == y[i];
      }
    } else {
      var i :| 0 <= i < |z| && x[i] != y[i];
      assert z[i] in z;
    }
  }

  /**
   Backward: for every limit the scan is the reference scan of the logical map if and only
   if none of the first `limit` rows of the window is a layer value that dereferencing
   changes.
   */
  lemma PrevIsScan(ctx: ReadCtx, layers: seq<Run>, tables: seq<Run>, limit: Option<nat>, cursor: Cursor)
    requires SortedStack(layers, tables)
    ensures AllSorted(FilterRuns(layers, cursor.1, cursor.0))
    ensures var p := Live(PrevTable(ctx, FilterRuns(layers, cursor.1, cursor.0), tables, cursor.1, cursor.0));
            Scan(p, limit, Prev, cursor) == Scan(Logical(ctx, layers, tables), limit, Prev, cursor) <==>
            FirstUntagged(ctx, layers, tables, limit, cursor)
  {
    hide Merged, Sorted, FilterRuns, Restrict, Live, DerefMap, DerefTable, Listing, PrevTable, Reverse, Deref, Logical;
    PrevMap(ctx, layers, tables, cursor.1, cursor.0);
    var a, b := LayerWindow(layers, cursor.1, cursor.0), Restrict(StackTable([], tables), cursor.1, cursor.0);
    PrevMapsAgree(ctx, a, b);
    PrevInWindow(ctx, Merged(layers), StackTable([], tables), cursor.1, cursor.0);
    var p, q, raw := Live(DerefTable(ctx, b) + a), DerefMap(ctx, Live(b + a)), Live(b + a);
    StoredWindow(layers, tables, cursor.1, cursor.0);
    if cursor.0.Some? {
      SameKeysScan(p, q, raw, limit);
      forall row | row in Scan(raw, limit, Prev, cursor)
        ensures row.key in raw && raw[row.key] == row.value
        ensures row.key in a <==> row.key in Merged(layers)
      {
        ScannedRow(layers, raw, limit, cursor, row);
      }
      assert Scan(raw, limit, Prev, cursor) == Take(Reverse(Listing(raw)), limit);
    }
  }

  /** The stored rows of the window, and which of them the layers decide. */
  lemma StoredWindow(layers: seq<Run>, tables: seq<Run>, lower: Option<Key>, upper: Option<Key>)
    requires SortedStack(layers, tables)
    ensures var raw := Live(Restrict(StackTable([], tables), lower, upper) + LayerWindow(layers, lower, upper));
            Restrict(Live(StackTable(layers, tables)), lower, upper) == raw && Restrict(raw, lower, upper) == raw
  {
    hide Merged, Sorted, Newest, InRange;
    StackSorted(layers, tables);
    assert [] + Newest(tables) == Newest(tables);
    MergedConcat(layers, Newest(tables));
  }

  lemma ScannedRow(layers: seq<Run>, raw: map<Key, Value>, limit: Option<nat>, cursor: Cursor, row: Row<Value>)
    requires AllSorted(layers) && Restrict(raw, cursor.1, cursor.0) == raw && row in Scan(raw, limit, Prev, cursor)
    ensures row.key in raw && raw[row.key] == row.value
    ensures row.key in LayerWindow(layers, cursor.1, cursor.0) <==> row.key in Merged(layers)
  {
    hide Merged, Listing, InRange, Reverse, Lt;
    ListingLists(raw);
    TakenRow(Listing(raw), limit, row);
    assert row.key in Restrict(raw, cursor.1, cursor.0);
  }

  lemma TakenRow(rows: seq<Row<Value>>, limit: Option<nat>, row: Row<Value>)
    requires row in Take(Reverse(rows), limit)
    ensures row in rows
  {
    hide Reverse;
    var taken := Take(Reverse(rows), limit);
    var i :| 0 <= i < |taken| && taken[i] == row;
    assert rows[|rows| - 1 - i] == row;
  }

  /** A blob pointer in a layer: the backward scan returns the pointer, the logical map holds what it points to. */
  lemma TaggedLayerFails(ctx: ReadCtx, k: Key, v: Value, u: Value)
    requires ctx.resolve(v) == Ok(u) && u != v
    ensures var layers: seq<Run> := [[Row(k, Some(v))]];
            && SortedStack(layers, []) && AllSorted(FilterRuns(layers, None, Some(k)))
            && Scan(Live(PrevTable(ctx, FilterRuns(layers, None, Some(k)), [], None, Some(k))), Some(1), Prev, (Some(k), None)) !=
               Scan(Logical(ctx, layers, []), Some(1), Prev, (Some(k), None))
  {
    var layers: seq<Run> := [[Row(k, Some(v))]];
    OneLayer(k, v);
    PrevIsScan(ctx, layers, [], Some(1), (Some(k), None));
    hide Merged, Scan, Live, StackTable, PrevTable, FilterRuns;
    assert Row(k, v) in Scan(Live(StackTable(layers, [])), Some(1), Prev, (Some(k), None));
  }

  lemma OneLayer(k: Key, v: Value)
    ensures var layers: seq<Run> := [[Row(k, Some(v))]];
            && SortedStack(layers, []) && k in Merged(layers)
            && Scan(Live(StackTable(layers, [])), Some(1), Prev, (Some(k), None)) == [Row(k, v)]
  {
    var run: Run := [Row(k, Some(v))];
    var layers: seq<Run> := [run];
    OneRun(k, v, run);
    MergedCons(layers);
    NothingMerged(layers[1..]);
    assert layers + Newest([]) == layers;
    hide Lt, Merged, AsMap, Listing, Scan;
    assert Merged(layers) == map[k := Some(v)];
    assert Live(map[k := Some(v)]) == map[k := v];
    OneRowScan(k, v);
  }

  lemma OneRun(k: Key, v: Value, run: Run)
    requires run == [Row(k, Some(v))]
    ensures Sorted(run) && AsMap(run) == map[k := Some(v)]
  {
    AsMapLists(run);
    assert run[0] in run;
    assert forall x :: x in AsMap(run) ==> Row(x, AsMap(run)[x]) in run;
  }

  lemma NothingMerged(runs: seq<Run>)
    requires runs == []
    ensures Merged(runs) == map[]
  {
  }

  lemma OneRowScan(k: Key, v: Value)
    ensures Scan(map[k := v], Some(1), Prev, (Some(k), None)) == [Row(k, v)]
  {
    var m: map<Key, Value> := map[k := v];
    Irreflexive(k);
    hide Lt, Listing;
    assert Restrict(m, None, Some(k)) == m;
    assert Lists([Row(k, v)], m) by {
      assert Row(k, v) in [Row(k, v)];
    }
    ListingIs([Row(k, v)], m);
    assert Reverse([Row(k, v)]) == [Row(k, v)];
  }
}

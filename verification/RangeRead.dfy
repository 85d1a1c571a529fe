/** Range scans of the lookup engine (`scan_manifest` and `filter_rows` in `src/store/lsm/read.rs`). */
module RangeRead {
  import opened Keys
  import opened Wrappers
  import opened Rows
  import opened Merge
  import opened PullMerge
  import opened SstRead
  import opened SstScan
  import opened Read

  // ---------------------------------------------------------------------------
  // Windows of runs
  // ---------------------------------------------------------------------------

  function FilterRuns(runs: seq<Run>, lower: Option<Key>, upper: Option<Key>): (r: seq<Run>)
    ensures |r| == |runs|
    ensures forall i :: 0 <= i < |r| ==> r[i] == FilterRange(runs[i], lower, upper)
  {
    if runs == [] then [] else [FilterRange(runs[0], lower, upper)] + FilterRuns(runs[1..], lower, upper)
  }

  lemma FilterRunsSorted(runs: seq<Run>, lower: Option<Key>, upper: Option<Key>)
    requires AllSorted(runs)
    ensures AllSorted(FilterRuns(runs, lower, upper))
  {
    hide Sorted, FilterRange;
    forall i | 0 <= i < |runs|
      ensures Sorted(FilterRange(runs[i], lower, upper))
    {
      FilterSorted(runs[i], lower, upper);
    }
  }

  lemma RestrictUnion(older: Table, newer: Table, lower: Option<Key>, upper: Option<Key>)
    ensures Restrict(older + newer, lower, upper) == Restrict(older, lower, upper) + Restrict(newer, lower, upper)
  {
    hide InRange;
  }

  lemma AsMapFilter(run: Run, lower: Option<Key>, upper: Option<Key>)
    requires Sorted(run)
    ensures Sorted(FilterRange(run, lower, upper))
    ensures AsMap(FilterRange(run, lower, upper)) == Restrict(AsMap(run), lower, upper)
  {
    hide AsMap, FilterRange, Restrict, Sorted, Lists;
    AsMapLists(run);
    FilterSorted(run, lower, upper);
    AsMapLists(FilterRange(run, lower, upper));
    FilterLists(run, AsMap(run), lower, upper);
    SameListing(FilterRange(run, lower, upper), AsMap(FilterRange(run, lower, upper)), Restrict(AsMap(run), lower, upper));
  }

  /** Filtering every run restricts the merged table. */
  lemma {:induction false} FilterRunsMerged(runs: seq<Run>, lower: Option<Key>, upper: Option<Key>)
    requires AllSorted(runs)
    ensures AllSorted(FilterRuns(runs, lower, upper))
    ensures Merged(FilterRuns(runs, lower, upper)) == Restrict(Merged(runs), lower, upper)
  {
    hide AsMap, Sorted, FilterRange, InRange;
    FilterRunsSorted(runs, lower, upper);
    var r := FilterRuns(runs, lower, upper);
    if runs != [] {
      FilterRunsMerged(runs[1..], lower, upper);
      assert r[1..] == FilterRuns(runs[1..], lower, upper);
      AsMapFilter(runs[0], lower, upper);
      RestrictUnion(Merged(runs[1..]), AsMap(runs[0]), lower, upper);
    }
  }

  /** A layer snapshot: the rows of a table in the window. */
  method FilterRows(t: Table, direction: Direction, cursor: Cursor) returns (rows: Run)
    ensures rows == FilterRange(Listing(t), Lower(direction, cursor), Upper(direction, cursor))
  {
    rows := InOrder(t);
    rows := FilterRange(rows, Lower(direction, cursor), Upper(direction, cursor));
  }

  // ---------------------------------------------------------------------------
  // Dereferencing
  // ---------------------------------------------------------------------------

  function Deref(ctx: ReadCtx, v: Value): (r: Value)
  {
    var x := ctx.resolve(v);
    if x.Ok? then x.value else v
  }

  ghost predicate RunResolves(ctx: ReadCtx, run: Run)
  {
    forall i :: 0 <= i < |run| && run[i].value.Some? ==> ctx.resolve(run[i].value.value).Ok?
  }

  ghost predicate Resolves(ctx: ReadCtx, runs: seq<Run>)
  {
    forall i :: 0 <= i < |runs| ==> RunResolves(ctx, runs[i])
  }

  function DerefSlot(ctx: ReadCtx, slot: Slot): (r: Slot)
  {
    if slot.Some? then Some(Deref(ctx, slot.value)) else None
  }

  function DerefRun(ctx: ReadCtx, run: Run): (r: Run)
    ensures |r| == |run|
    ensures forall i :: 0 <= i < |r| ==> r[i] == Row(run[i].key, DerefSlot(ctx, run[i].value))
  {
    if run == [] then [] else [Row(run[0].key, DerefSlot(ctx, run[0].value))] + DerefRun(ctx, run[1..])
  }

  function DerefRows(ctx: ReadCtx, rows: seq<Row<Value>>): (r: seq<Row<Value>>)
    ensures |r| == |rows|
    ensures forall i :: 0 <= i < |r| ==> r[i] == Row(rows[i].key, Deref(ctx, rows[i].value))
  {
    if rows == [] then [] else [Row(rows[0].key, Deref(ctx, rows[0].value))] + DerefRows(ctx, rows[1..])
  }

  predicate ListedOverlaps(l: Listed, start: Option<Key>, end: Option<Key>)
  {
    (start.None? || !Lt(l.maxKey, start.value)) && (end.None? || !Lt(end.value, l.minKey))
  }

  /** An entry whose manifest range misses the window has no row in it. */
  lemma SkippedIsEmpty(l: Listed, table: Run, start: Option<Key>, end: Option<Key>)
    requires Covers(l, table) && !ListedOverlaps(l, start, end)
    ensures FilterRange(table, start, end) == []
  {
    var r := FilterRange(table, start, end);
    if r != [] {
      var row := r[0];
      assert row in table && InRange(row.key, start, end);
      StrictTotalOrder();
      assert false;
    }
  }

  // ---------------------------------------------------------------------------
  // Forward: the lazy merge over layers and file scans
  // ---------------------------------------------------------------------------

  /** The live raw rows of the window, newest layer first. */
  ghost function WindowRows(layers: seq<Run>, tables: seq<Run>, start: Option<Key>, end: Option<Key>): (rows: seq<Row<Value>>)
    requires AllSorted(layers) && AllSorted(tables)
  {
    Both(layers, tables, start, end);
    Listing(Live(Merged(layers + FilterRuns(Newest(tables), start, end))))
  }

  lemma Both(layers: seq<Run>, tables: seq<Run>, start: Option<Key>, end: Option<Key>)
    requires AllSorted(layers) && AllSorted(tables)
    ensures AllSorted(Newest(tables)) && AllSorted(FilterRuns(Newest(tables), start, end))
    ensures AllSorted(layers + FilterRuns(Newest(tables), start, end))
  {
    hide Sorted;
    FilterRunsSorted(Newest(tables), start, end);
  }

  /** The sources gathered so far stand for the layers and the `n` newest files. */
  ghost predicate Gathered(layers: seq<Run>, newest: seq<Run>, n: nat, sources: seq<Source>)
    requires n <= |newest|
  {
    && AscendingSources(sources) && NoErrors(sources) && AllSorted(layers + newest[..n])
    && Merged(RunsOf(sources)) == Merged(layers + newest[..n])
  }

  lemma GatherNone(layers: seq<Run>, newest: seq<Run>, sources: seq<Source>)
    requires AllSorted(layers)
    requires |sources| == |layers| && forall i :: 0 <= i < |layers| ==> sources[i] == Source(layers[i], None)
    ensures Gathered(layers, newest, 0, sources)
  {
    assert layers + newest[..0] == layers && RunsOf(sources) == layers;
  }

  lemma GatherOne(layers: seq<Run>, newest: seq<Run>, n: nat, sources: seq<Source>)
    requires n < |newest| && Sorted(newest[n]) && Gathered(layers, newest, n, sources)
    ensures Gathered(layers, newest, n + 1, sources + [Source(newest[n], None)])
    ensures newest[n] == [] ==> Gathered(layers, newest, n + 1, sources)
  {
    hide AsMap, Merged;
    var run, more := newest[n], sources + [Source(newest[n], None)];
    assert (layers + newest[..n]) + [run] == layers + newest[..n + 1];
    assert RunsOf(more) == RunsOf(sources) + [run];
    MergedSnoc(layers + newest[..n], run);
    assert AllSorted(RunsOf(sources));
    MergedSnoc(RunsOf(sources), run);
    EmptyRun();
  }

  method ScanManifestNext(ctx: ReadCtx, ssts: seq<Listed>, layers: seq<Run>, limit: Option<nat>, cursor: Cursor, ghost tables: seq<Run>)
    returns (r: Result<seq<Row<Value>>, StoreError>)
    requires Backed(ctx.env, ssts, tables) && AllSorted(layers) && AllSorted(tables)
    ensures r.Ok? ==> r.value == DerefRows(ctx, Take(WindowRows(layers, tables, cursor.0, cursor.1), limit))
    ensures r.Ok? <==> AllResolve(ctx, Take(WindowRows(layers, tables, cursor.0, cursor.1), limit))
    ensures r.Err? ==> FirstFailure(ctx, Take(WindowRows(layers, tables, cursor.0, cursor.1), limit), r.error)
  {
    hide Get, ScanFrom, FilterRange, Sorted, Covers, Merged, Live, Listing, Gathered, NoErrors, Reports, AscendingSources,
         ListedOverlaps, AllReadUpTo, DerefRows, AllResolve, FirstFailure;
    var n := |ssts|;
    ghost var newest := FilterRuns(Newest(tables), cursor.0, cursor.1);
    Both(layers, tables, cursor.0, cursor.1);
    var sources := seq(|layers|, i requires 0 <= i < |layers| => Source(layers[i], None));
    GatherNone(layers, newest, sources);
    for i := 0 to n
      invariant Gathered(layers, newest, i, sources)
    {
      var l := ssts[n - 1 - i];
      ghost var table := tables[n - 1 - i];
      assert newest[i] == FilterRange(table, cursor.0, cursor.1);
      assert Serves(ctx.env, l.file, table) && Covers(l, table);
      GatherOne(layers, newest, i, sources);
      if !ListedOverlaps(l, cursor.0, cursor.1) {
        SkippedIsEmpty(l, table, cursor.0, cursor.1);
        continue;
      }
      sources := sources + [ScanFrom(ctx.env, l.file, cursor.0, cursor.1, 0)];
    }
    AllGathered(layers, newest, sources);
    var merged, _ := PullMergeNext(sources, limit);
    r := ResolveAll(ctx, merged.value);
  }

  lemma AllGathered(layers: seq<Run>, newest: seq<Run>, sources: seq<Source>)
    requires Gathered(layers, newest, |newest|, sources)
    ensures AscendingSources(sources) && NoErrors(sources) && AllSorted(layers + newest)
    ensures MergedRows(sources) == Listing(Live(Merged(layers + newest)))
    ensures forall e :: !Reports(sources, e)
  {
    assert newest[..|newest|] == newest;
  }

  ghost predicate AllResolve(ctx: ReadCtx, rows: seq<Row<Value>>)
  {
    forall i :: 0 <= i < |rows| ==> ctx.resolve(rows[i].value).Ok?
  }

  /** The error is that of the first row that does not resolve. */
  ghost predicate FirstFailure(ctx: ReadCtx, rows: seq<Row<Value>>, e: StoreError)
  {
    exists i :: 0 <= i < |rows| && ctx.resolve(rows[i].value) == Err(e) &&
                forall j :: 0 <= j < i ==> ctx.resolve(rows[j].value).Ok?
  }

  method ResolveAll(ctx: ReadCtx, rows: seq<Row<Value>>) returns (r: Result<seq<Row<Value>>, StoreError>)
    ensures r.Ok? <==> AllResolve(ctx, rows)
    ensures r.Ok? ==> r.value == DerefRows(ctx, rows)
    ensures r.Err? ==> FirstFailure(ctx, rows, r.error)
  {
    var out: seq<Row<Value>> := [];
    for i := 0 to |rows|
      invariant |out| == i
      invariant forall j :: 0 <= j < i ==> ctx.resolve(rows[j].value).Ok?
      invariant forall j :: 0 <= j < i ==> out[j] == Row(rows[j].key, Deref(ctx, rows[j].value))
    {
      var v := ctx.resolve(rows[i].value);
      if v.Err? {
        return Err(v.error);
      }
      out := out + [Row(rows[i].key, v.value)];
    }
    return Ok(out);
  }

  // ---------------------------------------------------------------------------
  // Backward: the materialized merge, with file values dereferenced up front
  // ---------------------------------------------------------------------------

  function DerefRuns(ctx: ReadCtx, runs: seq<Run>): (r: seq<Run>)
    ensures |r| == |runs|
    ensures forall i :: 0 <= i < |r| ==> r[i] == DerefRun(ctx, runs[i])
  {
    if runs == [] then [] else [DerefRun(ctx, runs[0])] + DerefRuns(ctx, runs[1..])
  }

  lemma DerefRunsSorted(ctx: ReadCtx, runs: seq<Run>)
    requires AllSorted(runs)
    ensures AllSorted(DerefRuns(ctx, runs))
  {
    forall i | 0 <= i < |runs|
      ensures Sorted(DerefRun(ctx, runs[i]))
    {
      var run, r := runs[i], DerefRun(ctx, runs[i]);
      assert forall j :: 0 <= j < |run| ==> r[j].key == run[j].key;
    }
  }

  /** The table the backward scan merges: layer values raw, file values dereferenced. */
  ghost function PrevTable(ctx: ReadCtx, layers: seq<Run>, tables: seq<Run>, lower: Option<Key>, upper: Option<Key>): (t: Table)
    requires AllSorted(layers) && AllSorted(tables)
  {
    Both(layers, tables, lower, upper);
    DerefRunsSorted(ctx, FilterRuns(Newest(tables), lower, upper));
    Merged(layers + DerefRuns(ctx, FilterRuns(Newest(tables), lower, upper)))
  }

  /** The first value of the run that does not resolve fails with `e`. */
  ghost predicate RunFails(ctx: ReadCtx, run: Run, e: StoreError)
  {
    exists i :: 0 <= i < |run| && run[i].value.Some? && ctx.resolve(run[i].value.value) == Err(e) &&
                RunResolves(ctx, run[..i])
  }

  /** The first run that does not resolve fails with `e`. */
  ghost predicate FirstRunFails(ctx: ReadCtx, runs: seq<Run>, e: StoreError)
  {
    exists i :: 0 <= i < |runs| && RunFails(ctx, runs[i], e) && Resolves(ctx, runs[..i])
  }

  method ResolveRun(ctx: ReadCtx, run: Run) returns (r: Result<Run, StoreError>)
    ensures r.Ok? <==> RunResolves(ctx, run)
    ensures r.Ok? ==> r.value == DerefRun(ctx, run)
    ensures r.Err? ==> RunFails(ctx, run, r.error)
  {
    var out: Run := [];
    for i := 0 to |run|
      invariant |out| == i && RunResolves(ctx, run[..i])
      invariant forall j :: 0 <= j < i ==> out[j] == Row(run[j].key, DerefSlot(ctx, run[j].value))
    {
      if run[i].value.Some? {
        var v := ctx.resolve(run[i].value.value);
        if v.Err? {
          return Err(v.error);
        }
        out := out + [Row(run[i].key, Some(v.value))];
      } else {
        out := out + [Row(run[i].key, None)];
      }
    }
    return Ok(out);
  }

  /** The runs gathered so far stand for the layers and the `n` newest dereferenced files. */
  ghost predicate Stacked(layers: seq<Run>, newest: seq<Run>, n: nat, runs: seq<Run>)
    requires n <= |newest|
  {
    AllSorted(runs) && AllSorted(layers + newest[..n]) && Merged(runs) == Merged(layers + newest[..n])
  }

  lemma StackOne(layers: seq<Run>, newest: seq<Run>, n: nat, runs: seq<Run>)
    requires n < |newest| && Sorted(newest[n]) && Stacked(layers, newest, n, runs)
    ensures Stacked(layers, newest, n + 1, runs + [newest[n]])
    ensures newest[n] == [] ==> Stacked(layers, newest, n + 1, runs)
  {
    hide AsMap, Merged;
    assert (layers + newest[..n]) + [newest[n]] == layers + newest[..n + 1];
    MergedSnoc(layers + newest[..n], newest[n]);
    MergedSnoc(runs, newest[n]);
    EmptyRun();
  }

  lemma StackEnds(layers: seq<Run>, newest: seq<Run>, runs: seq<Run>)
    requires AllSorted(layers)
    ensures Stacked(layers, newest, 0, layers)
    ensures Stacked(layers, newest, |newest|, runs) ==>
              AllSorted(runs) && AllSorted(layers + newest) && Merged(runs) == Merged(layers + newest)
  {
    assert layers + newest[..0] == layers;
    assert newest[..|newest|] == newest;
  }

  method ScanManifestPrev(ctx: ReadCtx, ssts: seq<Listed>, layers: seq<Run>, limit: Option<nat>, cursor: Cursor, ghost tables: seq<Run>)
    returns (r: Result<seq<Row<Value>>, StoreError>)
    requires Backed(ctx.env, ssts, tables) && AllSorted(layers) && AllSorted(tables)
    ensures r.Ok? ==> r.value == Scan(Live(PrevTable(ctx, layers, tables, cursor.1, cursor.0)), limit, Prev, cursor)
    ensures var windows := FilterRuns(Newest(tables), cursor.1, cursor.0);
            && (r.Ok? <==> cursor.0.None? || Resolves(ctx, windows))
            && (r.Err? ==> FirstRunFails(ctx, windows, r.error))
  {
    hide Get, ScanFrom, FilterRange, Sorted, Covers, Merged, Live, Listing, Stacked, ListedOverlaps, DerefRun, RunResolves, Restrict,
         RunFails, FirstRunFails, Resolves;
    if cursor.0.None? {
      return Ok([]);
    }
    var n := |ssts|;
    ghost var windows := FilterRuns(Newest(tables), cursor.1, cursor.0);
    ghost var newest := DerefRuns(ctx, windows);
    Both(layers, tables, cursor.1, cursor.0);
    DerefRunsSorted(ctx, windows);
    var sources := layers;
    StackEnds(layers, newest, sources);
    ResolvesEnds(ctx, windows);
    for i := 0 to n
      invariant Stacked(layers, newest, i, sources) && Resolves(ctx, windows[..i])
    {
      var l := ssts[n - 1 - i];
      ghost var table := tables[n - 1 - i];
      assert windows[i] == FilterRange(table, cursor.1, cursor.0) && newest[i] == DerefRun(ctx, windows[i]);
      assert Serves(ctx.env, l.file, table) && Covers(l, table);
      StackOne(layers, newest, i, sources);
      if !ListedOverlaps(l, cursor.1, cursor.0) {
        SkippedIsEmpty(l, table, cursor.1, cursor.0);
        ResolvesOne(ctx, windows, i);
        continue;
      }
      var scan := ScanWithTombstones(ctx.env, l.file, cursor.1, cursor.0);
      var resolved := ResolveRun(ctx, scan.value);
      ResolvesOne(ctx, windows, i);
      if resolved.Err? {
        FailsFirst(ctx, windows, i, resolved.error);
        return Err(resolved.error);
      }
      sources := sources + [resolved.value];
    }
    StackEnds(layers, newest, sources);
    var rows := MergedGetsBytes(sources, limit, Prev, cursor);
    return Ok(rows);
  }

  lemma ResolvesOne(ctx: ReadCtx, runs: seq<Run>, i: nat)
    requires i < |runs| && Resolves(ctx, runs[..i])
    ensures runs[i] == [] || RunResolves(ctx, runs[i]) ==> Resolves(ctx, runs[..i + 1])
  {
  }

  lemma ResolvesEnds(ctx: ReadCtx, runs: seq<Run>)
    ensures Resolves(ctx, runs[..0]) && (Resolves(ctx, runs[..|runs|]) <==> Resolves(ctx, runs))
  {
    assert runs[..|runs|] == runs;
  }

  lemma FailsFirst(ctx: ReadCtx, runs: seq<Run>, i: nat, e: StoreError)
    requires i < |runs| && Resolves(ctx, runs[..i]) && RunFails(ctx, runs[i], e)
    ensures FirstRunFails(ctx, runs, e) && !Resolves(ctx, runs)
  {
    assert !RunResolves(ctx, runs[i]);
  }
}

/**
 The lazy k-way merge `pull_merge_next` (`src/store/lsm/merge.rs`). The binary heap is
 represented by the set of its entries, popped in the order its `Ord` gives.
 */
module PullMerge {
  import opened Keys
  import opened Wrappers
  import opened Rows
  import opened Merge

  /** A pull source: the rows it still yields, then an error if it has one. */
  datatype Source = Source(rows: Run, fail: Option<StoreError>)

  type Item = Option<Result<Row<Slot>, StoreError>>

  function NextItem(s: Source): (r: (Item, Source))
  {
    if s.rows != [] then (Some(Ok(s.rows[0])), s.(rows := s.rows[1..]))
    else if s.fail.Some? then (Some(Err(s.fail.value)), s.(fail := None))
    else (None, s)
  }

  datatype HeapEntry = HeapEntry(key: Key, rank: nat, value: Slot, source: nat)

  /** Ascending key, then newest source first. */
  predicate Before(a: HeapEntry, b: HeapEntry)
  {
    Lt(a.key, b.key) || (a.key == b.key && a.rank <= b.rank)
  }

  ghost predicate IsTop(e: HeapEntry, heap: set<HeapEntry>)
  {
    e in heap && forall x :: x in heap ==> Before(e, x)
  }

  lemma {:induction false} TopExists(heap: set<HeapEntry>) returns (e: HeapEntry)
    requires heap != {}
    ensures IsTop(e, heap)
    decreases |heap|
  {
    var y :| y in heap;
    if heap == {y} {
      e := y;
    } else {
      assert heap == {y} + (heap - {y});
      var top := TopExists(heap - {y});
      StrictTotalOrder();
      e := if Before(y, top) then y else top;
      forall x | x in heap
        ensures Before(e, x)
      {
        assert x == y || Before(top, x);
      }
    }
  }

  method Peek(heap: set<HeapEntry>) returns (e: HeapEntry)
    requires heap != {}
    ensures IsTop(e, heap)
  {
    ghost var top := TopExists(heap);
    assert top in heap && forall x :: x in heap ==> Before(top, x);
    e :| e in heap && forall x :: x in heap ==> Before(e, x);
  }

  // ---------------------------------------------------------------------------
  // What is still pending: heap heads in front of the unread rows
  // ---------------------------------------------------------------------------

  ghost function RunsOf(sources: seq<Source>): (runs: seq<Run>)
    ensures |runs| == |sources|
    ensures forall i :: 0 <= i < |runs| ==> runs[i] == sources[i].rows
  {
    seq(|sources|, i requires 0 <= i < |sources| => sources[i].rows)
  }

  function Head(run: Run, i: nat): HeapEntry
    requires run != []
  {
    HeapEntry(run[0].key, i, run[0].value, i)
  }

  /** Source `i` has its head in the heap, or it is exhausted. */
  ghost predicate Fed(heap: set<HeapEntry>, rest: Source, run: Run, i: nat)
  {
    if run == [] then rest == Source([], None)
    else Head(run, i) in heap && rest.rows == run[1..]
  }

  /** `open` are the sources whose head was popped and that were not advanced yet. */
  ghost predicate Pending(heap: set<HeapEntry>, rest: seq<Source>, runs: seq<Run>, open: set<nat>)
  {
    && |runs| == |rest|
    && (forall e :: e in heap ==>
          e.source < |runs| && e.source !in open && runs[e.source] != [] && e == Head(runs[e.source], e.source))
    && (forall i :: 0 <= i < |runs| && i !in open ==> Fed(heap, rest[i], runs[i], i))
    && (forall i :: i in open ==> i < |runs| && runs[i] != [] && rest[i].rows == runs[i][1..])
  }

  ghost function Size(runs: seq<Run>): nat
  {
    if runs == [] then 0 else |runs[0]| + Size(runs[1..])
  }

  lemma {:induction false} SizeUpdate(runs: seq<Run>, i: nat, run: Run)
    requires i < |runs|
    ensures Size(runs[i := run]) == Size(runs) - |runs[i]| + |run|
  {
    if i == 0 {
      assert runs[0 := run][1..] == runs[1..];
    } else {
      SizeUpdate(runs[1..], i - 1, run);
      assert runs[i := run][1..] == runs[1..][i - 1 := run];
    }
  }

  /** The sources still hold the errors they started with. */
  ghost predicate SameErrors(rest: seq<Source>, sources: seq<Source>)
  {
    |rest| == |sources| && forall i :: 0 <= i < |rest| ==> rest[i].fail == sources[i].fail
  }

  ghost predicate NoErrors(sources: seq<Source>)
  {
    forall i :: 0 <= i < |sources| ==> sources[i].fail.None?
  }

  ghost predicate Reports(sources: seq<Source>, e: StoreError)
  {
    exists i :: 0 <= i < |sources| && sources[i].fail == Some(e)
  }

  /** A source without rows reports `e`. */
  ghost predicate ReportsAtOnce(sources: seq<Source>, e: StoreError)
  {
    exists i :: 0 <= i < |sources| && sources[i] == Source([], Some(e))
  }

  /** A source whose only pending row is that of `k` reports `e` next. */
  ghost predicate ReportsAfter(rest: seq<Source>, runs: seq<Run>, k: Key, e: StoreError)
    requires |runs| == |rest|
  {
    exists i :: 0 <= i < |rest| && rest[i].fail == Some(e) && |runs[i]| == 1 && runs[i][0].key == k
  }

  lemma SameAsItself(sources: seq<Source>)
    ensures SameErrors(sources, sources)
  {
  }

  lemma SameErrorsTransitive(a: seq<Source>, b: seq<Source>, c: seq<Source>)
    requires SameErrors(a, b) && SameErrors(b, c)
    ensures SameErrors(a, c)
  {
  }

  lemma ErrorsCarry(rest: seq<Source>, sources: seq<Source>)
    requires SameErrors(rest, sources)
    ensures NoErrors(rest) <==> NoErrors(sources)
    ensures forall e :: Reports(rest, e) ==> Reports(sources, e) && !NoErrors(sources)
  {
  }

  /** Pulls the next row of source `i` into the heap, or reports its error. */
  method Advance(heap: set<HeapEntry>, rest: seq<Source>, i: nat, ghost runs: seq<Run>, ghost open: set<nat>)
    returns (failed: Option<StoreError>, heap': set<HeapEntry>, rest': seq<Source>)
    requires Pending(heap, rest, runs, open) && i in open
    ensures failed.Some? ==> rest[i].fail == failed && |runs[i]| == 1
    ensures failed.None? ==>
              && Pending(heap', rest', runs[i := runs[i][1..]], open - {i})
              && SameErrors(rest', rest)
              && heap <= heap' && (forall e :: e in heap' - heap ==> e.source == i)
    ensures failed.None? && runs[i][1..] == [] ==> rest[i].fail.None?
  {
    var (item, source) := NextItem(rest[i]);
    heap', rest', failed := heap, rest[i := source], None;
    match item {
      case None =>
      case Some(Err(e)) =>
        failed := Some(e);
      case Some(Ok(row)) =>
        heap' := heap + {HeapEntry(row.key, i, row.value, i)};
    }
  }

  lemma PendingNone()
    ensures Pending({}, [], RunsOf([]), {})
  {
  }

  /** One more source with its head loaded. */
  lemma PendingMore(heap: set<HeapEntry>, rest: seq<Source>, runs: seq<Run>, source: Source, run: Run)
    requires Pending(heap, rest, runs, {})
    ensures run != [] && source.rows == run[1..] ==>
              Pending(heap + {Head(run, |runs|)}, rest + [source], runs + [run], {})
    ensures run == [] && source == Source([], None) ==> Pending(heap, rest + [source], runs + [run], {})
  {
    forall i | 0 <= i < |runs|
      ensures Fed(heap, (rest + [source])[i], (runs + [run])[i], i)
    {
      assert Fed(heap, rest[i], runs[i], i);
    }
  }

  /** Loads the head of every source. */
  method Fill(sources: seq<Source>) returns (failed: Option<StoreError>, heap: set<HeapEntry>, rest: seq<Source>)
    ensures failed.Some? ==> ReportsAtOnce(sources, failed.value)
    ensures failed.None? ==> Pending(heap, rest, RunsOf(sources), {})
    ensures failed.None? ==> SameErrors(rest, sources)
  {
    hide Pending;
    heap, rest, failed := {}, [], None;
    var rank := 0;
    PendingNone();
    while rank < |sources|
      invariant 0 <= rank <= |sources| && |rest| == rank
      invariant Pending(heap, rest, RunsOf(sources[..rank]), {})
      invariant forall i :: 0 <= i < rank ==> rest[i].fail == sources[i].fail
    {
      var (item, source) := NextItem(sources[rank]);
      assert RunsOf(sources[..rank + 1]) == RunsOf(sources[..rank]) + [sources[rank].rows];
      PendingMore(heap, rest, RunsOf(sources[..rank]), source, sources[rank].rows);
      match item {
        case None =>
        case Some(Err(e)) =>
          failed := Some(e);
          return;
        case Some(Ok(row)) =>
          heap := heap + {HeapEntry(row.key, rank, row.value, rank)};
      }
      rest := rest + [source];
      rank := rank + 1;
    }
    assert sources[..rank] == sources;
  }

  /** `after` is `before` with key `k` removed from the runs other than `src` that were advanced. */
  ghost predicate Dropping(before: seq<Run>, after: seq<Run>, k: Key, src: nat)
  {
    && |after| == |before| && src < |before| && after[src] == before[src]
    && forall i :: 0 <= i < |before| && i != src ==> after[i] == before[i] || after[i] == DropHead(before[i], k)
  }

  lemma DroppingSorted(before: seq<Run>, after: seq<Run>, k: Key, src: nat)
    requires AllSorted(before) && AtLeast(before, k) && Dropping(before, after, k, src)
    ensures AllSorted(after) && AtLeast(after, k)
  {
    forall i | 0 <= i < |after|
      ensures Sorted(after[i]) && (after[i] != [] ==> Le(k, after[i][0].key))
    {
      if i != src && after[i] != before[i] {
        assert before[i] != [] && after[i] == before[i][1..];
      }
    }
  }

  /** The inner loop: older entries of the decided key are popped and their sources advanced. */
  method DropDuplicates(heap: set<HeapEntry>, rest: seq<Source>, k: Key, ghost runs: seq<Run>, ghost src: nat)
    returns (failed: Option<StoreError>, heap': set<HeapEntry>, rest': seq<Source>, ghost runs': seq<Run>)
    requires Pending(heap, rest, runs, {src})
    requires AllSorted(runs) && AtLeast(runs, k)
    ensures failed.Some? ==> ReportsAfter(rest, runs, k, failed.value)
    ensures failed.None? ==>
              && Pending(heap', rest', runs', {src})
              && Dropping(runs, runs', k, src)
              && (forall i :: 0 <= i < |runs| && i != src ==> runs'[i] == DropHead(runs[i], k))
              && SameErrors(rest', rest)
  {
    heap', rest', runs', failed := heap, rest, runs, None;
    while heap' != {}
      invariant failed.None?
      invariant Pending(heap', rest', runs', {src})
      invariant Dropping(runs, runs', k, src)
      invariant SameErrors(rest', rest)
      decreases Size(runs')
    {
      DroppingSorted(runs, runs', k, src);
      var top := Peek(heap');
      if top.key != k {
        NoneLeft(heap', rest', runs, runs', k, src, top);
        return;
      }
      ghost var i := top.source;
      PopTop(heap', rest', runs', {src}, top);
      SizeUpdate(runs', i, runs'[i][1..]);
      assert runs'[i] == runs[i] by {
        StillThere(runs, runs', k, i);
      }
      failed, heap', rest' := Advance(heap' - {top}, rest', top.source, runs', {src, i});
      if failed.Some? {
        return;
      }
      assert {src, i} - {i} == {src};
      runs' := runs'[i := runs'[i][1..]];
    }
    forall i | 0 <= i < |runs| && i != src
      ensures runs'[i] == DropHead(runs[i], k)
    {
      assert Fed(heap', rest'[i], runs'[i], i);
    }
  }

  lemma PopTop(heap: set<HeapEntry>, rest: seq<Source>, runs: seq<Run>, open: set<nat>, top: HeapEntry)
    requires Pending(heap, rest, runs, open) && top in heap
    ensures Pending(heap - {top}, rest, runs, open + {top.source})
    ensures top.source !in open
  {
    forall i | 0 <= i < |runs| && i !in open + {top.source}
      ensures Fed(heap - {top}, rest[i], runs[i], i)
    {
      assert Fed(heap, rest[i], runs[i], i);
    }
    assert Fed(heap, rest[top.source], runs[top.source], top.source);
  }

  lemma StillThere(runs: seq<Run>, runs': seq<Run>, k: Key, i: nat)
    requires AllSorted(runs) && |runs'| == |runs| && i < |runs|
    requires runs'[i] == runs[i] || runs'[i] == DropHead(runs[i], k)
    requires runs'[i] != [] && runs'[i][0].key == k
    ensures runs'[i] == runs[i]
  {
    StrictTotalOrder();
  }

  lemma NoneLeft(heap: set<HeapEntry>, rest: seq<Source>, runs: seq<Run>, runs': seq<Run>, k: Key, src: nat, top: HeapEntry)
    requires Pending(heap, rest, runs', {src}) && IsTop(top, heap) && top.key != k
    requires Dropping(runs, runs', k, src) && AtLeast(runs', k)
    ensures forall i :: 0 <= i < |runs| && i != src ==> runs'[i] == DropHead(runs[i], k)
  {
    StrictTotalOrder();
    forall i | 0 <= i < |runs| && i != src
      ensures runs'[i] == DropHead(runs[i], k)
    {
      assert Fed(heap, rest[i], runs'[i], i);
      if runs'[i] != [] && runs'[i] == runs[i] {
        assert Before(top, Head(runs'[i], i));
        assert Le(k, runs'[top.source][0].key);
      }
    }
  }

  lemma TopIsNewestMin(heap: set<HeapEntry>, rest: seq<Source>, runs: seq<Run>, top: HeapEntry)
    requires Pending(heap, rest, runs, {}) && IsTop(top, heap)
    ensures AtLeast(runs, top.key)
    ensures runs[top.source] != [] && Row(top.key, top.value) == runs[top.source][0]
    ensures forall j :: 0 <= j < top.source && runs[j] != [] ==> runs[j][0].key != top.key
  {
    StrictTotalOrder();
    forall j | 0 <= j < |runs| && runs[j] != []
      ensures Le(top.key, runs[j][0].key)
      ensures j < top.source ==> runs[j][0].key != top.key
    {
      assert Fed(heap, rest[j], runs[j], j);
      assert Before(top, Head(runs[j], j));
    }
  }

  lemma {:induction false} SizeShrinks(before: seq<Run>, after: seq<Run>, i: nat)
    requires |after| == |before| && i < |before|
    requires forall j :: 0 <= j < |before| ==> |after[j]| <= |before[j]|
    requires |after[i]| < |before[i]|
    ensures Size(after) < Size(before)
  {
    if i == 0 {
      SizeNoMore(before[1..], after[1..]);
    } else {
      SizeShrinks(before[1..], after[1..], i - 1);
    }
  }

  lemma {:induction false} SizeNoMore(before: seq<Run>, after: seq<Run>)
    requires |after| == |before|
    requires forall j :: 0 <= j < |before| ==> |after[j]| <= |before[j]|
    ensures Size(after) <= Size(before)
  {
    if before != [] {
      SizeNoMore(before[1..], after[1..]);
    }
  }

  // ---------------------------------------------------------------------------
  // How far each source was read
  // ---------------------------------------------------------------------------

  /** `left` is what remains of `all` once every row up to `k` has been decided. */
  ghost predicate CutAt(all: Run, left: Run, k: Key)
  {
    && |left| <= |all| && all[|all| - |left|..] == left
    && (forall j :: 0 <= j < |all| - |left| ==> Le(all[j].key, k))
    && (forall j :: 0 <= j < |left| ==> Lt(k, left[j].key))
  }

  /** `left` lacks every row up to `k` and at most one row beyond it. */
  ghost predicate ReadUpTo(all: Run, left: Run, k: Key)
  {
    CutAt(all, left, k) || exists row :: CutAt(all, [row] + left, k)
  }

  ghost predicate AllReadUpTo(sources: seq<Source>, rest: seq<Source>, k: Key)
  {
    |rest| == |sources| && forall i :: 0 <= i < |sources| ==> ReadUpTo(sources[i].rows, rest[i].rows, k)
  }

  ghost predicate Decided(all: seq<Run>, left: seq<Run>, last: Option<Key>)
  {
    && |left| == |all|
    && forall i :: 0 <= i < |all| ==>
         if last.None? then left[i] == all[i] else CutAt(all[i], left[i], last.value)
  }

  lemma CutStep(all: Run, run: Run, last: Option<Key>, k: Key)
    requires Sorted(all)
    requires if last.None? then run == all else CutAt(all, run, last.value)
    requires last.Some? ==> Lt(last.value, k)
    requires run != [] ==> Le(k, run[0].key)
    ensures CutAt(all, DropHead(run, k), k)
  {
    hide Lt, Sorted, DropHead;
    var n := |all| - |run|;
    assert all[n..] == run;
    forall j | 0 <= j < n
      ensures Le(all[j].key, k)
    {
      if all[j].key != last.value {
        Transitive(all[j].key, last.value, k);
      }
    }
    DroppedTail(all, run, k);
    SortedPart(all, n, |all|);
    assert all[n..|all|] == run;
    DroppedAbove(run, k);
  }

  lemma DroppedTail(all: Run, run: Run, k: Key)
    requires |run| <= |all| && all[|all| - |run|..] == run
    ensures var dropped, n := DropHead(run, k), |all| - |run|;
            && |dropped| <= |run| && all[|all| - |dropped|..] == dropped
            && (dropped != run ==> |dropped| == |run| - 1 && all[n].key == k)
  {
    var n := |all| - |run|;
    if DropHead(run, k) != run {
      assert all[n + 1..] == all[n..][1..] && all[n] == all[n..][0];
    }
  }

  lemma DroppedAbove(run: Run, k: Key)
    requires Sorted(run) && (run != [] ==> Le(k, run[0].key))
    ensures var dropped := DropHead(run, k); forall j :: 0 <= j < |dropped| ==> Lt(k, dropped[j].key)
  {
    hide Lt;
    var dropped := DropHead(run, k);
    forall j | 0 <= j < |dropped|
      ensures Lt(k, dropped[j].key)
    {
      if dropped == run && j > 0 {
        Transitive(k, run[0].key, run[j].key);
      }
    }
  }

  lemma NothingDecided(all: seq<Run>)
    ensures Decided(all, all, None)
  {
  }

  lemma DecidedStep(all: seq<Run>, left: seq<Run>, last: Option<Key>, k: Key, src: nat)
    requires AllSorted(all) && Decided(all, left, last)
    requires AtLeast(left, k) && src < |left| && left[src] != [] && left[src][0].key == k
    ensures Decided(all, DropHeads(left, k), Some(k))
  {
    forall i | 0 <= i < |all|
      ensures CutAt(all[i], DropHead(left[i], k), k)
    {
      CutStep(all[i], left[i], last, k);
    }
  }

  // ---------------------------------------------------------------------------
  // The merge
  // ---------------------------------------------------------------------------

  ghost predicate AscendingSources(sources: seq<Source>)
  {
    forall i :: 0 <= i < |sources| ==> Sorted(sources[i].rows)
  }

  /** The live rows of the materialized merge, ascending. */
  ghost function MergedRows(sources: seq<Source>): (rows: seq<Row<Value>>)
    requires AscendingSources(sources)
  {
    Listing(Live(Merged(RunsOf(sources))))
  }

  /** One turn of the outer loop: the smallest pending key is decided and removed everywhere. */
  method Turn(heap: set<HeapEntry>, rest: seq<Source>, ghost runs: seq<Run>)
    returns (failed: Option<StoreError>, entry: HeapEntry, heap': set<HeapEntry>, rest': seq<Source>)
    requires heap != {} && Pending(heap, rest, runs, {}) && AllSorted(runs)
    ensures failed.Some? ==> ReportsAfter(rest, runs, entry.key, failed.value)
    ensures entry.source < |runs| && runs[entry.source] != []
    ensures runs[entry.source][0] == Row(entry.key, entry.value)
    ensures AtLeast(runs, entry.key)
    ensures forall j :: 0 <= j < entry.source && runs[j] != [] ==> runs[j][0].key != entry.key
    ensures failed.None? ==>
              && Pending(heap', rest', DropHeads(runs, entry.key), {})
              && SameErrors(rest', rest)
  {
    entry := Peek(heap);
    ghost var src := entry.source;
    TopIsNewestMin(heap, rest, runs, entry);
    PopTop(heap, rest, runs, {}, entry);
    ghost var dropped;
    failed, heap', rest', dropped := DropDuplicates(heap - {entry}, rest, entry.key, runs, src);
    if failed.Some? {
      return;
    }
    failed, heap', rest' := Advance(heap', rest', entry.source, dropped, {src});
    if failed.Some? {
      return;
    }
    assert dropped[src := dropped[src][1..]] == DropHeads(runs, entry.key);
    assert {src} - {src} == {};
  }

  /** The rows emitted so far, followed by the merge of what is pending, are the whole merge. */
  ghost predicate Emitted(total: seq<Row<Value>>, runs: seq<Run>, out: seq<Row<Value>>)
    requires AllSorted(runs)
  {
    out <= total && total[|out|..] == Listing(Live(Merged(runs)))
  }

  lemma OutStep(total: seq<Row<Value>>, runs: seq<Run>, out: seq<Row<Value>>, entry: HeapEntry)
    requires AllSorted(runs) && Emitted(total, runs, out)
    requires entry.source < |runs| && runs[entry.source] != []
    requires runs[entry.source][0] == Row(entry.key, entry.value)
    requires AtLeast(runs, entry.key)
    requires forall j :: 0 <= j < entry.source && runs[j] != [] ==> runs[j][0].key != entry.key
    ensures AllSorted(DropHeads(runs, entry.key))
    ensures Emitted(total, DropHeads(runs, entry.key),
                    if entry.value.Some? then out + [Row(entry.key, entry.value.value)] else out)
  {
    MergeStep(runs, entry.key, entry.source);
    if entry.value.Some? {
      SplitNext(total, out, Row(entry.key, entry.value.value), Listing(Live(Merged(DropHeads(runs, entry.key)))));
    }
  }

  lemma SplitNext<T>(total: seq<T>, out: seq<T>, x: T, rest: seq<T>)
    requires out <= total && total[|out|..] == [x] + rest
    ensures out + [x] <= total && total[|out| + 1..] == rest
  {
    assert total == out + ([x] + rest);
  }

  // ---------------------------------------------------------------------------
  // Errors
  // ---------------------------------------------------------------------------

  /** The key at which a limited merge stops, if it does not run to the end. */
  ghost function StopKey(sources: seq<Source>, limit: Option<nat>): (k: Option<Key>)
    requires AscendingSources(sources)
  {
    var total := MergedRows(sources);
    if limit.Some? && 0 < limit.value <= |total| then Some(total[limit.value - 1].key) else None
  }

  ghost predicate EndsBy(s: Source, stop: Option<Key>)
  {
    stop.Some? ==> forall j :: 0 <= j < |s.rows| ==> Le(s.rows[j].key, stop.value)
  }

  /** Some failing source has no row beyond the key at which the merge stops. */
  ghost predicate ReachesError(sources: seq<Source>, stop: Option<Key>)
  {
    exists i :: 0 <= i < |sources| && sources[i].fail.Some? && EndsBy(sources[i], stop)
  }

  /** No failing source ends before the one that reports `e`. */
  ghost predicate FirstToFail(sources: seq<Source>, e: StoreError)
  {
    exists i :: 0 <= i < |sources| && sources[i].fail == Some(e) &&
                forall j :: 0 <= j < |sources| && sources[j].fail.Some? ==> NoLater(sources[i].rows, sources[j].rows)
  }

  ghost predicate NoLater(a: Run, b: Run)
  {
    a == [] || (b != [] && Le(a[|a| - 1].key, b[|b| - 1].key))
  }

  lemma FailsAtOnce(sources: seq<Source>, e: StoreError, stop: Option<Key>)
    requires ReportsAtOnce(sources, e)
    ensures ReachesError(sources, stop) && FirstToFail(sources, e)
  {
    var i :| 0 <= i < |sources| && sources[i] == Source([], Some(e));
    assert EndsBy(sources[i], stop);
  }

  /** The key a merge will still stop at lies at or after every pending key's minimum. */
  lemma StopsLater(sources: seq<Source>, limit: Option<nat>, runs: seq<Run>, out: seq<Row<Value>>, k: Key)
    requires AscendingSources(sources) && AllSorted(runs) && Emitted(MergedRows(sources), runs, out)
    requires limit.Some? ==> |out| < limit.value
    requires AtLeast(runs, k)
    ensures StopKey(sources, limit).Some? ==> Le(k, StopKey(sources, limit).value)
  {
    var stop, total := StopKey(sources, limit), MergedRows(sources);
    if stop.Some? {
      var left := Live(Merged(runs));
      var j := limit.value - 1 - |out|;
      ListingLists(left);
      assert total[|out|..][j] == total[limit.value - 1];
      assert stop.value in left;
      MergedAtLeast(runs, k);
    }
  }

  /** A failing source is never out of pending rows. */
  lemma FailingIsPending(heap: set<HeapEntry>, rest: seq<Source>, sources: seq<Source>, runs: seq<Run>, j: nat)
    requires Pending(heap, rest, runs, {}) && SameErrors(rest, sources) && j < |sources| && sources[j].fail.Some?
    ensures j < |runs| && runs[j] != []
  {
    assert Fed(heap, rest[j], runs[j], j);
  }

  lemma FailsInTurn(heap: set<HeapEntry>, rest: seq<Source>, sources: seq<Source>, runs: seq<Run>, last: Option<Key>, k: Key,
                    e: StoreError, stop: Option<Key>)
    requires Pending(heap, rest, runs, {}) && SameErrors(rest, sources) && AllSorted(runs)
    requires Decided(RunsOf(sources), runs, last) && AtLeast(runs, k) && ReportsAfter(rest, runs, k, e)
    requires stop.Some? ==> Le(k, stop.value)
    ensures ReachesError(sources, stop) && FirstToFail(sources, e)
  {
    var i :| 0 <= i < |rest| && rest[i].fail == Some(e) && |runs[i]| == 1 && runs[i][0].key == k;
    hide Lt, Pending, Decided, AtLeast, AllSorted, EndsBy, NoLater;
    EndsByTurn(sources, runs, last, k, i, stop);
    forall j | 0 <= j < |sources| && sources[j].fail.Some?
      ensures NoLater(sources[i].rows, sources[j].rows)
    {
      FailingIsPending(heap, rest, sources, runs, j);
      EndsNoLater(sources, runs, last, k, i, j);
    }
  }

  lemma EndsByTurn(sources: seq<Source>, runs: seq<Run>, last: Option<Key>, k: Key, i: nat, stop: Option<Key>)
    requires Decided(RunsOf(sources), runs, last) && (stop.Some? ==> Le(k, stop.value))
    requires i < |runs| && |runs[i]| == 1 && runs[i][0].key == k
    ensures i < |sources| && EndsBy(sources[i], stop)
  {
    hide Lt, CutAt;
    var rows := sources[i].rows;
    UpToLast(rows, runs[i], last, k);
    forall j | 0 <= j < |rows| && stop.Some?
      ensures Le(rows[j].key, stop.value)
    {
      AtMost(rows[j].key, k, stop.value);
    }
  }

  lemma EndsNoLater(sources: seq<Source>, runs: seq<Run>, last: Option<Key>, k: Key, i: nat, j: nat)
    requires Decided(RunsOf(sources), runs, last) && AllSorted(runs) && AtLeast(runs, k)
    requires i < |runs| && |runs[i]| == 1 && runs[i][0].key == k && j < |runs| && runs[j] != []
    ensures i < |sources| && j < |sources| && NoLater(sources[i].rows, sources[j].rows)
  {
    hide Lt, CutAt;
    LastPending(sources[i].rows, runs[i], last);
    LastPending(sources[j].rows, runs[j], last);
    LastAtLeast(runs[j], k);
  }

  lemma AtMost(a: Key, b: Key, c: Key)
    requires Le(a, b) && Le(b, c)
    ensures Le(a, c)
  {
    hide Lt;
    if a != b && b != c {
      Transitive(a, b, c);
    }
  }

  lemma LastAtLeast(run: Run, k: Key)
    requires Sorted(run) && run != [] && Le(k, run[0].key)
    ensures Le(k, run[|run| - 1].key)
  {
    hide Lt;
    AtMost(k, run[0].key, run[|run| - 1].key);
  }

  lemma LastPending(all: Run, left: Run, last: Option<Key>)
    requires left != [] && if last.None? then left == all else CutAt(all, left, last.value)
    ensures all != [] && all[|all| - 1] == left[|left| - 1]
  {
    hide Lt;
    assert all[|all| - |left|..][|left| - 1] == all[|all| - 1];
  }

  /** With one row left, that of `k`, every row lies at or before `k`. */
  lemma UpToLast(all: Run, left: Run, last: Option<Key>, k: Key)
    requires |left| == 1 && left[0].key == k && if last.None? then left == all else CutAt(all, left, last.value)
    ensures forall j :: 0 <= j < |all| ==> Le(all[j].key, k)
  {
    hide Lt;
    forall j | 0 <= j < |all|
      ensures Le(all[j].key, k)
    {
      if last.Some? {
        if j < |all| - 1 {
          AtMost(all[j].key, last.value, k);
        } else {
          assert all[|all| - 1..][0] == all[j];
        }
      }
    }
  }

  /** When the merge stops at `k` every failing source has a row beyond it. */
  lemma StopsBeforeErrors(heap: set<HeapEntry>, rest: seq<Source>, sources: seq<Source>, runs: seq<Run>, k: Key)
    requires Pending(heap, rest, runs, {}) && SameErrors(rest, sources) && Decided(RunsOf(sources), runs, Some(k))
    ensures !ReachesError(sources, Some(k))
  {
    hide Lt, Pending;
    forall i | 0 <= i < |sources| && sources[i].fail.Some?
      ensures !EndsBy(sources[i], Some(k))
    {
      FailingIsPending(heap, rest, sources, runs, i);
      var all, left := sources[i].rows, runs[i];
      assert CutAt(all, left, k);
      LastPending(all, left, Some(k));
      Asymmetric(k, all[|all| - 1].key);
      Irreflexive(k);
    }
  }

  lemma NothingToReach(sources: seq<Source>, stop: Option<Key>)
    ensures NoErrors(sources) ==> !ReachesError(sources, stop)
    ensures ReachesError(sources, None) <==> !NoErrors(sources)
  {
    if !NoErrors(sources) {
      var i :| 0 <= i < |sources| && sources[i].fail.Some?;
      assert EndsBy(sources[i], None);
    }
  }

  lemma FirstReports(sources: seq<Source>, e: StoreError)
    requires FirstToFail(sources, e)
    ensures Reports(sources, e)
  {
  }

  method PullMergeNext(sources: seq<Source>, limit: Option<nat>)
    returns (r: Result<seq<Row<Value>>, StoreError>, rest: seq<Source>)
    requires AscendingSources(sources)
    ensures r.Ok? ==> r.value == Take(MergedRows(sources), limit)
    ensures r.Err? <==> limit != Some(0) && ReachesError(sources, StopKey(sources, limit))
    ensures r.Err? ==> Reports(sources, r.error) && FirstToFail(sources, r.error)
    ensures limit.None? ==> (r.Ok? <==> NoErrors(sources))
    ensures r.Ok? && r.value != [] && limit == Some(|r.value|) ==>
              AllReadUpTo(sources, rest, r.value[|r.value| - 1].key)
  {
    hide Pending, Listing, Merged, Live, AllReadUpTo, SameErrors, NoErrors, Reports, Decided, AtLeast, Lt, Size, ReachesError,
         FirstToFail, ReportsAtOnce, ReportsAfter;
    ghost var stop := StopKey(sources, limit);
    NothingToReach(sources, stop);
    rest := sources;
    if limit == Some(0) {
      return Ok([]), rest;
    }
    var failed, heap, entry;
    assert SameErrors(sources, sources) by {
      SameAsItself(sources);
    }
    failed, heap, rest := Fill(sources);
    if failed.Some? {
      FailsAtOnce(sources, failed.value, stop);
      FirstReports(sources, failed.value);
      return Err(failed.value), rest;
    }
    ghost var all, total := RunsOf(sources), MergedRows(sources);
    ghost var runs, last: Option<Key> := all, None;
    assert Decided(all, runs, last) by {
      NothingDecided(all);
    }
    var out: seq<Row<Value>> := [];
    while heap != {}
      invariant Pending(heap, rest, runs, {}) && AllSorted(runs)
      invariant Emitted(total, runs, out)
      invariant limit.Some? ==> |out| < limit.value
      invariant SameErrors(rest, sources)
      invariant Decided(all, runs, last)
      decreases Size(runs)
    {
      ghost var before, pending := rest, heap;
      failed, entry, heap, rest := Turn(heap, rest, runs);
      if failed.Some? {
        StopsLater(sources, limit, runs, out, entry.key);
        FailsInTurn(pending, before, sources, runs, last, entry.key, failed.value, stop);
        FirstReports(sources, failed.value);
        return Err(failed.value), rest;
      }
      SameErrorsTransitive(rest, before, sources);
      OutStep(total, runs, out, entry);
      DecidedStep(all, runs, last, entry.key, entry.source);
      SizeShrinks(runs, DropHeads(runs, entry.key), entry.source);
      runs, last := DropHeads(runs, entry.key), Some(entry.key);
      if entry.value.Some? {
        out := out + [Row(entry.key, entry.value.value)];
        if limit.Some? && |out| >= limit.value {
          StoppedAt(heap, rest, sources, runs, entry.key);
          StopsBeforeErrors(heap, rest, sources, runs, entry.key);
          return Ok(out), rest;
        }
      }
    }
    AllDrained(rest, runs);
    ErrorsCarry(rest, sources);
    assert out == total;
    return Ok(out), rest;
  }

  lemma StoppedAt(heap: set<HeapEntry>, rest: seq<Source>, sources: seq<Source>, runs: seq<Run>, k: Key)
    requires Pending(heap, rest, runs, {}) && Decided(RunsOf(sources), runs, Some(k))
    ensures AllReadUpTo(sources, rest, k)
  {
    forall i | 0 <= i < |sources|
      ensures ReadUpTo(sources[i].rows, rest[i].rows, k)
    {
      assert RunsOf(sources)[i] == sources[i].rows;
      assert Fed(heap, rest[i], runs[i], i);
      if runs[i] != [] {
        assert runs[i] == [runs[i][0]] + rest[i].rows;
      }
    }
  }

  lemma AllDrained(rest: seq<Source>, runs: seq<Run>)
    requires Pending({}, rest, runs, {})
    ensures AllSorted(runs) && Listing(Live(Merged(runs))) == []
    ensures NoErrors(rest)
  {
    forall i | 0 <= i < |runs|
      ensures runs[i] == []
    {
      assert Fed({}, rest[i], runs[i], i);
    }
    EmptyRuns(runs);
  }

  lemma {:induction false} EmptyRuns(runs: seq<Run>)
    requires forall i :: 0 <= i < |runs| ==> runs[i] == []
    ensures AllSorted(runs) && Merged(runs) == map[]
  {
    if runs != [] {
      EmptyRuns(runs[1..]);
    }
  }
}

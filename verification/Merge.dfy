/**
 Newest-wins merging of sorted sources (`src/store/lsm/merge.rs`): the table a stack of
 runs stands for and the materialized merge. The lazy merge is in `PullMerge`.
 */
module Merge {
  import opened Keys
  import opened Wrappers
  import opened Rows

  type Value = Bytes

  /** `None` is a tombstone. */
  type Slot = Option<Value>

  type Run = seq<Row<Slot>>

  type Table = map<Key, Slot>

  // ---------------------------------------------------------------------------
  // The logical table a stack of runs stands for
  // ---------------------------------------------------------------------------

  ghost predicate AllSorted(runs: seq<Run>)
  {
    forall i :: 0 <= i < |runs| ==> Sorted(runs[i])
  }

  /** The first run that mentions a key decides it: runs are listed newest first. */
  ghost function Merged(runs: seq<Run>): (t: Table)
    requires AllSorted(runs)
  {
    if runs == [] then map[] else Merged(runs[1..]) + AsMap(runs[0])
  }

  /** Tombstones suppress their key. */
  ghost function Live(t: Table): (m: map<Key, Value>)
  {
    map k | k in t && t[k].Some? :: t[k].value
  }

  lemma PlusAssoc(a: Table, b: Table, c: Table)
    ensures (a + b) + c == a + (b + c)
  {
  }

  lemma {:induction false} MergedAt(runs: seq<Run>, k: Key, i: nat)
    requires AllSorted(runs) && i < |runs|
    requires k in AsMap(runs[i])
    requires forall j :: 0 <= j < i ==> k !in AsMap(runs[j])
    ensures k in Merged(runs) && Merged(runs)[k] == AsMap(runs[i])[k]
  {
    if i > 0 {
      assert k !in AsMap(runs[0]);
      MergedAt(runs[1..], k, i - 1);
    }
  }

  lemma {:induction false} MergedHas(runs: seq<Run>, k: Key) returns (i: nat)
    requires AllSorted(runs) && k in Merged(runs)
    ensures i < |runs| && k in AsMap(runs[i])
  {
    hide AsMap, Sorted;
    if k in AsMap(runs[0]) {
      i := 0;
    } else {
      i := MergedHas(runs[1..], k);
      i := i + 1;
    }
  }

  // ---------------------------------------------------------------------------
  // Removing the smallest key from every run
  // ---------------------------------------------------------------------------

  function DropHead(run: Run, k: Key): (r: Run)
  {
    if run != [] && run[0].key == k then run[1..] else run
  }

  function DropHeads(runs: seq<Run>, k: Key): (r: seq<Run>)
    ensures |r| == |runs|
    ensures forall i :: 0 <= i < |r| ==> r[i] == DropHead(runs[i], k)
  {
    if runs == [] then [] else [DropHead(runs[0], k)] + DropHeads(runs[1..], k)
  }

  /** No run holds a key below `k`. */
  ghost predicate AtLeast(runs: seq<Run>, k: Key)
  {
    forall i :: 0 <= i < |runs| && runs[i] != [] ==> Le(k, runs[i][0].key)
  }

  lemma DropHeadMap(run: Run, k: Key)
    requires Sorted(run)
    requires run != [] ==> Le(k, run[0].key)
    ensures Sorted(DropHead(run, k))
    ensures AsMap(DropHead(run, k)) == AsMap(run) - {k}
    ensures k in AsMap(run) <==> run != [] && run[0].key == k
  {
    StrictTotalOrder();
    var m := AsMap(run);
    AsMapLists(run);
    if k in m {
      assert Row(k, m[k]) in run;
    }
    if run != [] && run[0].key == k {
      AsMapLists(run[1..]);
      ListsTail(run, m);
      SameListing(run[1..], AsMap(run[1..]), m - {k});
    } else {
      assert m - {k} == m;
    }
  }

  lemma SameListing<V>(rows: seq<Row<V>>, m: map<Key, V>, n: map<Key, V>)
    requires Lists(rows, m) && Lists(rows, n)
    ensures m == n
  {
    forall k | k in m
      ensures k in n && n[k] == m[k]
    {
      assert Row(k, m[k]) in rows;
    }
    forall k | k in n
      ensures k in m
    {
      assert Row(k, n[k]) in rows;
    }
  }

  lemma {:induction false} DropHeadsMerged(runs: seq<Run>, k: Key)
    requires AllSorted(runs) && AtLeast(runs, k)
    ensures AllSorted(DropHeads(runs, k))
    ensures Merged(DropHeads(runs, k)) == Merged(runs) - {k}
  {
    var dropped := DropHeads(runs, k);
    if runs != [] {
      DropHeadMap(runs[0], k);
      DropHeadsMerged(runs[1..], k);
      assert dropped[0] == DropHead(runs[0], k);
      assert dropped[1..] == DropHeads(runs[1..], k);
      forall i | 0 <= i < |runs|
        ensures Sorted(dropped[i])
      {
        assert i > 0 ==> dropped[i] == dropped[1..][i - 1];
      }
      WithoutKey(Merged(runs[1..]), AsMap(runs[0]), k);
    }
  }

  lemma WithoutKey(older: Table, newer: Table, k: Key)
    ensures (older - {k}) + (newer - {k}) == (older + newer) - {k}
  {
  }

  lemma MergedAtLeast(runs: seq<Run>, k: Key)
    requires AllSorted(runs) && AtLeast(runs, k)
    ensures forall x :: x in Merged(runs) ==> Le(k, x)
  {
    forall x | x in Merged(runs)
      ensures Le(k, x)
    {
      var i := MergedHas(runs, x);
      var m := AsMap(runs[i]);
      AsMapLists(runs[i]);
      assert Row(x, m[x]) in runs[i];
      StrictTotalOrder();
    }
  }

  /** One turn of the merge: deciding the smallest key `k`, whose newest holder is run `i`. */
  lemma MergeStep(runs: seq<Run>, k: Key, i: nat)
    requires AllSorted(runs) && AtLeast(runs, k)
    requires i < |runs| && runs[i] != [] && runs[i][0].key == k
    requires forall j :: 0 <= j < i && runs[j] != [] ==> runs[j][0].key != k
    ensures AllSorted(DropHeads(runs, k))
    ensures var rest := Listing(Live(Merged(DropHeads(runs, k))));
            Listing(Live(Merged(runs))) ==
            match runs[i][0].value
            case None => rest
            case Some(v) => [Row(k, v)] + rest
  {
    DropHeadsMerged(runs, k);
    MergedAtLeast(runs, k);
    forall j | 0 <= j <= i
      ensures k in AsMap(runs[j]) <==> j == i
    {
      DropHeadMap(runs[j], k);
    }
    MergedAt(runs, k, i);
    AsMapLists(runs[i]);
    ListingStep(Merged(runs), k);
  }

  /** Listing the live rows of a table starts with its smallest key, if that key is live. */
  lemma ListingStep(t: Table, k: Key)
    requires k in t
    requires forall x :: x in t ==> Le(k, x)
    ensures var rest := Listing(Live(t - {k}));
            Listing(Live(t)) == if t[k].Some? then [Row(k, t[k].value)] + rest else rest
  {
    var m := Live(t);
    if t[k].Some? {
      assert m - {k} == Live(t - {k});
      ListingLists(m - {k});
      ListsCons(Row(k, t[k].value), Listing(m - {k}), m);
      ListingIs([Row(k, t[k].value)] + Listing(m - {k}), m);
    } else {
      assert m == Live(t - {k});
    }
  }

  // ---------------------------------------------------------------------------
  // The materialized merge
  // ---------------------------------------------------------------------------

  lemma {:induction false} MergedSnoc(runs: seq<Run>, run: Run)
    requires AllSorted(runs) && Sorted(run)
    ensures AllSorted(runs + [run])
    ensures Merged(runs + [run]) == AsMap(run) + Merged(runs)
  {
    hide AsMap;
    var all := runs + [run];
    if runs == [] {
      assert all == [run] && all[1..] == [];
      assert Merged(all) == Merged([]) + AsMap(run);
    } else {
      MergedSnoc(runs[1..], run);
      assert all[1..] == runs[1..] + [run] && all[0] == runs[0];
      PlusAssoc(AsMap(run), Merged(runs[1..]), AsMap(runs[0]));
    }
  }

  lemma AsMapSnoc(rows: Run, n: nat)
    requires Sorted(rows) && n < |rows|
    ensures Sorted(rows[..n]) && Sorted(rows[..n + 1])
    ensures rows[n].key !in AsMap(rows[..n])
    ensures AsMap(rows[..n + 1]) == AsMap(rows[..n])[rows[n].key := rows[n].value]
  {
    hide AsMap, Lists, Sorted;
    SortedPart(rows, 0, n);
    SortedPart(rows, 0, n + 1);
    assert rows[0..n] == rows[..n] && rows[0..n + 1] == rows[..n + 1];
    var a, b := AsMap(rows[..n]), AsMap(rows[..n + 1]);
    AsMapLists(rows[..n]);
    AsMapLists(rows[..n + 1]);
    assert rows[..n] + [rows[n]] == rows[..n + 1];
    ListsSnoc(rows[..n], rows[n], a);
    SameListing(rows[..n + 1], b, a[rows[n].key := rows[n].value]);
  }

  lemma ListsSnoc<V>(rows: seq<Row<V>>, row: Row<V>, m: map<Key, V>)
    requires Lists(rows, m) && Sorted(rows + [row])
    ensures row.key !in m
    ensures Lists(rows + [row], m[row.key := row.value])
  {
    StrictTotalOrder();
    var all, m' := rows + [row], m[row.key := row.value];
    forall i | 0 <= i < |rows|
      ensures rows[i].key != row.key
    {
      assert Lt(all[i].key, all[|rows|].key);
    }
    forall k | k in m
      ensures k != row.key
    {
      assert Row(k, m[k]) in rows;
    }
    forall k | k in m'
      ensures Row(k, m'[k]) in all
    {
      if k == row.key {
        assert all[|rows|] == row;
      } else {
        assert Row(k, m[k]) in rows;
      }
    }
  }

  lemma EmptyRun()
    ensures Sorted<Slot>([]) && AsMap<Slot>([]) == map[]
  {
  }

  /** Fills one map newest source first, then drops the tombstones. */
  method MergeSources(sources: seq<Run>) returns (r: seq<Row<Value>>)
    requires AllSorted(sources)
    ensures r == Listing(Live(Merged(sources)))
  {
    hide AsMap, Sorted;
    var t: Table := map[];
    for i := 0 to |sources|
      invariant AllSorted(sources[..i]) && t == Merged(sources[..i])
    {
      var src := sources[i];
      ghost var before := t;
      assert src[..0] == [];
      assert Sorted(src[..0]) && AsMap(src[..0]) == map[] by {
        EmptyRun();
      }
      for j := 0 to |src|
        invariant Sorted(src[..j]) && t == AsMap(src[..j]) + before
      {
        AsMapSnoc(src, j);
        ghost var seen := AsMap(src[..j]);
        if src[j].key !in t {
          t := t[src[j].key := src[j].value];
          assert t == seen[src[j].key := src[j].value] + before;
        } else {
          assert t == seen[src[j].key := src[j].value] + before;
        }
      }
      assert src[..|src|] == src && sources[..i + 1] == sources[..i] + [src];
      MergedSnoc(sources[..i], src);
    }
    assert sources[..|sources|] == sources;
    var live := map k | k in t && t[k].Some? :: t[k].value;
    r := InOrder(live);
  }

  /** Range-filtered, direction-aware scan over the materialized merge. */
  method MergedGetsBytes(sources: seq<Run>, limit: Option<nat>, direction: Direction, cursor: Cursor)
    returns (r: seq<Row<Value>>)
    requires AllSorted(sources)
    ensures r == Scan(Live(Merged(sources)), limit, direction, cursor)
  {
    var merged := MergeSources(sources);
    FilterIsScan(Live(Merged(sources)), limit, direction, cursor);
    match direction {
      case Next =>
        r := FilterRange(merged, cursor.0, cursor.1);
      case Prev =>
        if cursor.0.None? {
          return [];
        }
        r := Reverse(FilterRange(merged, cursor.1, cursor.0));
    }
    if limit.Some? && |r| > limit.value {
      r := r[..limit.value];
    }
  }
}

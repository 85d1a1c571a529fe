/**
 The lookup engine shared by writer, transactions and readers
 (`src/store/lsm/read.rs`). A stack of in-memory layers over the SST files of a manifest
 answers like one logical map.
 */
module Read {
  import opened Keys
  import opened Wrappers
  import opened Rows
  import opened Merge
  import opened PullMerge
  import opened Codec
  import opened Sst
  import opened SstRead
  import opened SstScan

  /** `resolve` dereferences a blob pointer and returns any other value unchanged. */
  datatype ReadCtx = ReadCtx(env: Platform, resolve: Value -> Result<Value, StoreError>)

  /** A manifest entry with the file it names. The manifest lists entries oldest first. */
  datatype Listed = Listed(minKey: Key, maxKey: Key, file: SstFile)

  /** `file` answers lookups and scans exactly as `table`. */
  ghost predicate Serves(env: Platform, file: SstFile, table: Run)
  {
    && Sorted(table)
    && (forall key :: Get(env, file, key) == Ok(FindRow(table, key)))
    && (forall start, end :: ScanFrom(env, file, start, end, 0) == Source(FilterRange(table, start, end), None))
  }

  /** Files written by the builder from a clean table serve that table. */
  lemma BuiltServes(env: Platform, file: SstFile, table: Run, chunks: seq<Run>)
    requires Holds(env, file, table, chunks) && Sorted(table) && AllClean(env, table)
    ensures Serves(env, file, table)
  {
    hide Get, ScanFrom, FilterRange, Holds, AllClean, AsMap;
    AsMapLists(table);
    forall key
      ensures Get(env, file, key) == Ok(FindRow(table, key))
    {
      CleanRoundTrip(env, file, table, chunks, key);
      FindIsLookup(table, AsMap(table), key);
    }
    forall start, end
      ensures ScanFrom(env, file, start, end, 0) == Source(FilterRange(table, start, end), None)
    {
      ScanClean(env, file, table, chunks, start, end);
    }
  }

  /** The manifest range of an entry covers its table. */
  ghost predicate Covers(l: Listed, table: Run)
  {
    forall i :: 0 <= i < |table| ==> !Lt(table[i].key, l.minKey) && !Lt(l.maxKey, table[i].key)
  }

  ghost predicate Backed(env: Platform, ssts: seq<Listed>, tables: seq<Run>)
  {
    |ssts| == |tables| && forall i :: 0 <= i < |ssts| ==> Serves(env, ssts[i].file, tables[i]) && Covers(ssts[i], tables[i])
  }

  /** Newest first. */
  ghost function Newest(tables: seq<Run>): (r: seq<Run>)
    ensures |r| == |tables|
    ensures forall i :: 0 <= i < |r| ==> r[i] == tables[|tables| - 1 - i]
  {
    Reverse(tables)
  }

  // ---------------------------------------------------------------------------
  // Point lookups
  // ---------------------------------------------------------------------------

  /** The slot the first run mentioning `key` holds. */
  ghost function FirstSlot(runs: seq<Run>, key: Key): (s: Option<Slot>)
  {
    if runs == [] then None else if FindRow(runs[0], key).Some? then FindRow(runs[0], key) else FirstSlot(runs[1..], key)
  }

  /** First-hit search through sorted runs is lookup in the merged table. */
  lemma {:induction false} FirstSlotIsMerged(runs: seq<Run>, key: Key)
    requires AllSorted(runs)
    ensures FirstSlot(runs, key) == if key in Merged(runs) then Some(Merged(runs)[key]) else None
  {
    hide AsMap, Sorted, FindRow;
    if runs != [] {
      FirstSlotIsMerged(runs[1..], key);
      AsMapLists(runs[0]);
      FindIsLookup(runs[0], AsMap(runs[0]), key);
    }
  }

  /** A tombstone and an absent key read as nothing; a value is dereferenced. */
  function Outcome(ctx: ReadCtx, slot: Option<Slot>): (r: Result<Option<Value>, StoreError>)
  {
    if slot.None? || slot.value.None? then Ok(None) else
    var v := ctx.resolve(slot.value.value);
    if v.Ok? then Ok(Some(v.value)) else Err(v.error)
  }

  lemma {:induction false} FirstSlotSkips(runs: seq<Run>, n: nat, key: Key)
    requires n <= |runs| && forall i :: 0 <= i < n ==> FindRow(runs[i], key).None?
    ensures FirstSlot(runs, key) == FirstSlot(runs[n..], key)
  {
    if n > 0 {
      assert runs[1..][n - 1..] == runs[n..];
      FirstSlotSkips(runs[1..], n - 1, key);
    }
  }

  lemma OutsideRange(l: Listed, table: Run, key: Key)
    requires Covers(l, table) && (Lt(key, l.minKey) || Lt(l.maxKey, key))
    ensures FindRow(table, key).None?
  {
    NotFoundIfAbsent(table, key);
  }

  method PointLookup(ctx: ReadCtx, staged: Option<Slot>, ssts: seq<Listed>, key: Key, ghost tables: seq<Run>)
    returns (r: Result<Option<Value>, StoreError>)
    requires Backed(ctx.env, ssts, tables)
    ensures r == Outcome(ctx, if staged.Some? then staged else FirstSlot(Newest(tables), key))
    ensures var slot := if staged.Some? then staged else FirstSlot(Newest(tables), key);
            if slot.Some? && slot.value.Some? then
              var v := ctx.resolve(slot.value.value);
              (r.Err? <==> v.Err?) && (v.Err? ==> r.error == v.error) && (v.Ok? ==> r.value == Some(v.value))
            else
              r == Ok(None)
  {
    hide Get, ScanFrom, FindRow, FilterRange, Sorted, Covers;
    if staged.Some? {
      if staged.value.None? {
        return Ok(None);
      }
      var v := ctx.resolve(staged.value.value);
      return if v.Ok? then Ok(Some(v.value)) else Err(v.error);
    }
    var n := |ssts|;
    for i := 0 to n
      invariant forall j :: 0 <= j < i ==> FindRow(Newest(tables)[j], key).None?
    {
      var l := ssts[n - 1 - i];
      ghost var table := Newest(tables)[i];
      assert Covers(l, table) && Serves(ctx.env, l.file, table);
      if Lt(key, l.minKey) || Lt(l.maxKey, key) {
        OutsideRange(l, table, key);
        continue;
      }
      var hit := GetOption(ctx.env, l.file, key);
      if hit.value.Some? {
        FirstSlotSkips(Newest(tables), i, key);
        if hit.value.value.None? {
          return Ok(None);
        }
        var v := ctx.resolve(hit.value.value.value);
        return if v.Ok? then Ok(Some(v.value)) else Err(v.error);
      }
    }
    FirstSlotSkips(Newest(tables), n, key);
    return Ok(None);
  }
}

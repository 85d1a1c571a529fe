/**
 Range scans over one SST file (`src/store/lsm/sst.rs`): the eager
 `scan_with_tombstones` without a limit and the lazy iterator `SstScan`. Both are
 described by one pull source, so the iterator can feed the lazy merge.
 */
module SstScan {
  import opened Keys
  import opened Wrappers
  import opened Rows
  import opened Merge
  import opened PullMerge
  import opened Codec
  import opened Wal
  import opened Sst
  import opened SstRead

  predicate Overlaps(meta: BlockMeta, start: Option<Key>, end: Option<Key>)
  {
    && (start.None? || !Lt(meta.maxKey, start.value))
    && (end.None? || !Lt(end.value, meta.minKey))
  }

  /** The rows of decoded records in range, then the error of an invalid key, or else what follows. */
  function ThenRows(p: Parse, start: Option<Key>, end: Option<Key>, rest: Source): (s: Source)
  {
    var rows := FilterRange(p.rows, start, end);
    if p.bad then Source(rows, Some(InvalidUtf8)) else Source(rows + rest.rows, rest.fail)
  }

  /** What a scan yields from block `i` on: rows in file order, then possibly an error. */
  function ScanFrom(env: Platform, file: SstFile, start: Option<Key>, end: Option<Key>, i: nat): (s: Source)
    decreases |file.footer.index| - i
  {
    if i >= |file.footer.index| then Source([], None) else
    var meta := file.footer.index[i];
    if !Overlaps(meta, start, end) then ScanFrom(env, file, start, end, i + 1) else
    var b := BlockBytes(env, file.data, meta);
    if b.Err? then Source([], Some(b.error)) else
    ThenRows(DecodeRows(env, b.value), start, end, ScanFrom(env, file, start, end, i + 1))
  }

  // ---------------------------------------------------------------------------
  // The eager scan
  // ---------------------------------------------------------------------------

  method ScanBlock(env: Platform, bytes: Bytes, start: Option<Key>, end: Option<Key>) returns (rows: Run, bad: bool)
    ensures var p := DecodeRows(env, bytes); rows == FilterRange(p.rows, start, end) && bad == p.bad
  {
    hide DecodeRows, DecodeEntry, InRange, FilterRange;
    FilterNone(start, end);
    rows, bad := [], false;
    var pos := 0;
    assert bytes[0..] == bytes;
    while pos + 4 <= |bytes|
      invariant pos <= |bytes|
      invariant rows + FilterRange(DecodeRows(env, bytes[pos..]).rows, start, end) ==
                FilterRange(DecodeRows(env, bytes).rows, start, end)
      invariant DecodeRows(env, bytes[pos..]).bad == DecodeRows(env, bytes).bad && !bad
      decreases |bytes| - pos
    {
      DecodeStep(env, bytes, pos);
      var d := ReadRecord(env, bytes, pos);
      if !d.Entry? {
        bad := d.BadKey?;
        return;
      }
      FilterCons(d.row, DecodeRows(env, bytes[d.next..]).rows, start, end);
      if InRange(d.row.key, start, end) {
        rows := rows + [d.row];
      }
      pos := d.next;
    }
    TooShort(env, bytes, pos);
  }

  lemma TooShort(env: Platform, bytes: Bytes, pos: nat)
    requires pos <= |bytes| < pos + 4
    ensures DecodeRows(env, bytes[pos..]) == Parse([], false)
  {
    DecodeStep(env, bytes, pos);
  }

  lemma FilterCons(row: Row<Slot>, rows: Run, start: Option<Key>, end: Option<Key>)
    ensures FilterRange([row] + rows, start, end) ==
            (if InRange(row.key, start, end) then [row] else []) + FilterRange(rows, start, end)
  {
    assert ([row] + rows)[1..] == rows;
  }

  /** Pulling one record from the bytes at `pos` pulls one item of the source, or skips a row out of range. */
  lemma YieldStep(env: Platform, b: Bytes, pos: nat, start: Option<Key>, end: Option<Key>, rest: Source)
    requires pos <= |b|
    ensures var d, s := DecodeEntry(env, b, pos), ThenRows(DecodeRows(env, b[pos..]), start, end, rest);
            if d.Truncated? then s == rest
            else if d.BadKey? then s == Source([], Some(InvalidUtf8))
            else
              var t := ThenRows(DecodeRows(env, b[d.next..]), start, end, rest);
              if InRange(d.row.key, start, end) then s == Source([d.row] + t.rows, t.fail) else s == t
  {
    hide DecodeRows, DecodeEntry, FilterRange;
    DecodeStep(env, b, pos);
    FilterNone(start, end);
    var d := DecodeEntry(env, b, pos);
    if d.Entry? {
      FilterCons(d.row, DecodeRows(env, b[d.next..]).rows, start, end);
    }
  }

  lemma FilterNone(start: Option<Key>, end: Option<Key>)
    ensures FilterRange<Slot>([], start, end) == []
  {
  }

  method ScanWithTombstones(env: Platform, file: SstFile, start: Option<Key>, end: Option<Key>)
    returns (r: Result<Run, StoreError>)
    ensures var s := ScanFrom(env, file, start, end, 0);
            r == if s.fail.Some? then Err(s.fail.value) else Ok(s.rows)
  {
    hide DecodeRows, FilterRange, BlockBytes, Overlaps;
    var out: Run, i := [], 0;
    while i < |file.footer.index|
      invariant i <= |file.footer.index|
      invariant var s, t := ScanFrom(env, file, start, end, i), ScanFrom(env, file, start, end, 0);
                out + s.rows == t.rows && s.fail == t.fail
    {
      var meta := file.footer.index[i];
      if Overlaps(meta, start, end) {
        var b := BlockBytes(env, file.data, meta);
        if b.Err? {
          return Err(b.error);
        }
        var rows, bad := ScanBlock(env, b.value, start, end);
        if bad {
          return Err(InvalidUtf8);
        }
        out := out + rows;
      }
      i := i + 1;
    }
    assert out + [] == out;
    return Ok(out);
  }

  // ---------------------------------------------------------------------------
  // The lazy scan
  // ---------------------------------------------------------------------------

  class Scanner {
    const env: Platform
    const file: SstFile
    const start: Option<Key>
    const end: Option<Key>
    var blockIdx: nat
    var block: Option<Bytes>
    var pos: nat
    var done: bool

    constructor (env: Platform, file: SstFile, start: Option<Key>, end: Option<Key>)
      ensures Valid() && Remaining() == ScanFrom(env, file, start, end, 0)
      ensures this.env == env && this.file == file && this.start == start && this.end == end
    {
      this.env, this.file, this.start, this.end := env, file, start, end;
      blockIdx, block, pos, done := 0, None, 0, false;
    }

    ghost predicate Valid()
      reads this
    {
      block.Some? ==> pos <= |block.value|
    }

    /** Everything the iterator will still yield. */
    ghost function Remaining(): (s: Source)
      reads this
      requires Valid()
    {
      if done then Source([], None) else
      var rest := ScanFrom(env, file, start, end, blockIdx);
      if block.None? then rest else ThenRows(DecodeRows(env, block.value[pos..]), start, end, rest)
    }

    /** Each pull yields the next item of the source the iterator stands for. */
    method Next() returns (item: Item)
      requires Valid()
      modifies this
      ensures Valid() && (item, Remaining()) == NextItem(old(Remaining()))
    {
      hide DecodeRows, FilterRange, BlockBytes, Overlaps, InRange, DecodeEntry;
      item := None;
      if done {
        return;
      }
      ghost var s := Remaining();
      while true
        invariant Valid() && !done && Remaining() == s
        decreases if blockIdx <= |file.footer.index| then |file.footer.index| - blockIdx else 0,
                  if block.Some? then 1 + |block.value| - pos else 0
      {
        if block.None? {
          if blockIdx >= |file.footer.index| {
            return;
          }
          var meta := file.footer.index[blockIdx];
          blockIdx := blockIdx + 1;
          if !Overlaps(meta, start, end) {
            continue;
          }
          var b := BlockBytes(env, file.data, meta);
          if b.Err? {
            done := true;
            return Some(Err(b.error));
          }
          block, pos := Some(b.value), 0;
          assert b.value[0..] == b.value;
        }
        YieldStep(env, block.value, pos, start, end, ScanFrom(env, file, start, end, blockIdx));
        match DecodeEntry(env, block.value, pos) {
          case BadKey =>
            done := true;
            return Some(Err(InvalidUtf8));
          case Truncated =>
            block := None;
          case Entry(row, next) =>
            pos := next;
            if InRange(row.key, start, end) {
              return Some(Ok(row));
            }
        }
      }
    }
  }

  /** Everything a source yields when pulled until it ends. */
  ghost function Yielded(s: Source): (items: seq<Result<Row<Slot>, StoreError>>)
    decreases |s.rows|
  {
    if s.rows != [] then [Ok(s.rows[0])] + Yielded(s.(rows := s.rows[1..]))
    else if s.fail.Some? then [Err(s.fail.value)] else []
  }

  lemma YieldedStep(s: Source)
    ensures var (item, rest) := NextItem(s);
            if item.None? then Yielded(s) == [] else
              && Yielded(s) == [item.value] + Yielded(rest)
              && (|rest.rows| < |s.rows| || (rest.rows == s.rows && s.fail.Some? && rest.fail.None?))
  {
  }

  /** The yielded items are the rows in order, then the error if there is one, and nothing after it. */
  lemma {:induction false} YieldedIs(s: Source)
    ensures |Yielded(s)| == |s.rows| + if s.fail.Some? then 1 else 0
    ensures forall i :: 0 <= i < |s.rows| ==> Yielded(s)[i] == Ok(s.rows[i])
    ensures s.fail.Some? ==> Yielded(s)[|s.rows|] == Err(s.fail.value)
    decreases |s.rows|
  {
    if s.rows != [] {
      YieldedIs(s.(rows := s.rows[1..]));
    }
  }

  /** Pulling the iterator dry yields the eager rows, or a prefix of rows and then the eager error. */
  method Drain(env: Platform, file: SstFile, start: Option<Key>, end: Option<Key>)
    returns (items: seq<Result<Row<Slot>, StoreError>>)
    ensures items == Yielded(ScanFrom(env, file, start, end, 0))
  {
    hide ScanFrom, Scanner.Remaining, Scanner.Valid, Yielded, NextItem;
    var it := new Scanner(env, file, start, end);
    items := [];
    ghost var s := it.Remaining();
    while true
      invariant it.Valid() && fresh(it) && it.Remaining() == s
      invariant items + Yielded(s) == Yielded(ScanFrom(env, file, start, end, 0))
      decreases |s.rows|, s.fail.Some?
    {
      YieldedStep(s);
      var item := it.Next();
      s := NextItem(s).1;
      if item.None? {
        return;
      }
      items := items + [item.value];
    }
  }

  // ---------------------------------------------------------------------------
  // Damaged files
  // ---------------------------------------------------------------------------

  /** Block `j` is not opened by the scan, or is intact and its keys are valid. */
  ghost predicate Scans(env: Platform, file: SstFile, start: Option<Key>, end: Option<Key>, j: nat)
    requires j < |file.footer.index|
  {
    var meta := file.footer.index[j];
    !Overlaps(meta, start, end) ||
    (Intact(env, file.data, meta) && !DecodeRows(env, file.data[meta.offset..meta.offset + meta.len]).bad)
  }

  lemma {:induction false} ScanPasses(env: Platform, file: SstFile, start: Option<Key>, end: Option<Key>, i: nat, n: nat)
    requires i <= n <= |file.footer.index| && forall j :: i <= j < n ==> Scans(env, file, start, end, j)
    ensures ScanFrom(env, file, start, end, i).fail == ScanFrom(env, file, start, end, n).fail
    decreases n - i
  {
    hide DecodeRows, Intact, FilterRange, Overlaps, BlockBytes;
    if i < n {
      assert Scans(env, file, start, end, i);
      BlockOpens(env, file.data, file.footer.index[i]);
      ScanPasses(env, file, start, end, i + 1, n);
    }
  }

  /** A scan that comes to a damaged block fails with what is wrong with it. */
  lemma ScanReportsDamage(env: Platform, file: SstFile, start: Option<Key>, end: Option<Key>, i: nat)
    requires i < |file.footer.index| && forall j :: 0 <= j < i ==> Scans(env, file, start, end, j)
    requires Overlaps(file.footer.index[i], start, end) && !Intact(env, file.data, file.footer.index[i])
    ensures ScanFrom(env, file, start, end, 0).fail ==
            Some(if InBounds(file.data, file.footer.index[i]) then BlockCrcMismatch else BlockOutOfBounds)
  {
    hide DecodeRows, Intact, FilterRange, Overlaps, BlockBytes, Scans;
    ScanPasses(env, file, start, end, 0, i);
    BlockOpens(env, file.data, file.footer.index[i]);
  }

  /** A scan succeeds exactly when every block it opens is intact and its keys are valid. */
  lemma ScanSucceedsWhen(env: Platform, file: SstFile, start: Option<Key>, end: Option<Key>)
    ensures ScanFrom(env, file, start, end, 0).fail.None? <==>
            forall j :: 0 <= j < |file.footer.index| ==> Scans(env, file, start, end, j)
  {
    ScanFailsWhen(env, file, start, end, 0);
  }

  lemma {:induction false} ScanFailsWhen(env: Platform, file: SstFile, start: Option<Key>, end: Option<Key>, i: nat)
    requires i <= |file.footer.index|
    ensures ScanFrom(env, file, start, end, i).fail.None? <==>
            forall j :: i <= j < |file.footer.index| ==> Scans(env, file, start, end, j)
    decreases |file.footer.index| - i
  {
    hide DecodeRows, Intact, FilterRange, Overlaps, BlockBytes;
    if i < |file.footer.index| {
      BlockOpens(env, file.data, file.footer.index[i]);
      ScanFailsWhen(env, file, start, end, i + 1);
      assert (forall j :: i <= j < |file.footer.index| ==> Scans(env, file, start, end, j)) <==>
             Scans(env, file, start, end, i) && forall j :: i + 1 <= j < |file.footer.index| ==> Scans(env, file, start, end, j);
    }
  }

  // ---------------------------------------------------------------------------
  // Built files
  // ---------------------------------------------------------------------------

  lemma {:induction false} FilterConcat(a: Run, b: Run, start: Option<Key>, end: Option<Key>)
    ensures FilterRange(a + b, start, end) == FilterRange(a, start, end) + FilterRange(b, start, end)
  {
    hide FilterRange, InRange;
    if a == [] {
      assert a + b == b;
      FilterNone(start, end);
    } else {
      FilterConcat(a[1..], b, start, end);
      assert a == [a[0]] + a[1..] && a + b == [a[0]] + (a[1..] + b);
      FilterCons(a[0], a[1..], start, end);
      FilterCons(a[0], a[1..] + b, start, end);
    }
  }

  /** Block pruning loses nothing: a sorted chunk outside the range has no row in it. */
  lemma PrunedChunk(chunk: Run, meta: BlockMeta, start: Option<Key>, end: Option<Key>)
    requires Sorted(chunk) && chunk != []
    requires meta.minKey == chunk[0].key && meta.maxKey == chunk[|chunk| - 1].key
    requires !Overlaps(meta, start, end)
    ensures FilterRange(chunk, start, end) == []
  {
    var r := FilterRange(chunk, start, end);
    if r != [] {
      var row := r[0];
      assert row in chunk && InRange(row.key, start, end);
      StrictTotalOrder();
      assert false;
    }
  }

  lemma {:induction false} ScanFromClean(env: Platform, file: SstFile, entries: Run, chunks: seq<Run>,
                                         start: Option<Key>, end: Option<Key>, i: nat)
    requires Holds(env, file, entries, chunks) && Sorted(entries) && AllClean(env, entries) && i <= |chunks|
    ensures ScanFrom(env, file, start, end, i) == Source(FilterRange(Concat(chunks[i..]), start, end), None)
    decreases |chunks| - i
  {
    hide DecodeRows, EncodeRows, IndexOf, Blocks, AllClean, Sorted, FilterRange, Overlaps, BlockBytes;
    if i < |chunks| {
      ScanFromClean(env, file, entries, chunks, start, end, i + 1);
      assert chunks[i..][1..] == chunks[i + 1..];
      FilterConcat(chunks[i], Concat(chunks[i + 1..]), start, end);
      BlockOf(env, file, entries, chunks, i);
      ChunksOfSorted(chunks, i);
      if Overlaps(file.footer.index[i], start, end) {
        CleanChunk(env, chunks, i);
        RunRoundTrip(env, chunks[i]);
      } else {
        PrunedChunk(chunks[i], file.footer.index[i], start, end);
      }
    } else {
      FilterNone(start, end);
    }
  }

  /** Scanning a clean file yields exactly the rows of its table in the range, without error. */
  lemma ScanClean(env: Platform, file: SstFile, entries: Run, chunks: seq<Run>, start: Option<Key>, end: Option<Key>)
    requires Holds(env, file, entries, chunks) && Sorted(entries) && AllClean(env, entries)
    ensures ScanFrom(env, file, start, end, 0) == Source(FilterRange(entries, start, end), None)
  {
    ScanFromClean(env, file, entries, chunks, start, end, 0);
    assert chunks[0..] == chunks;
  }
}

/**
 Streaming a snapshot out (`SaveStream` in `src/store/mod.rs`) and the round trip through
 the loader. The store does not change while the stream runs and its reads do not fail.
 */
module Save {
  import opened Keys
  import opened Wrappers
  import opened Rows
  import opened Merge
  import opened Codec
  import opened Wal
  import opened Snapshot
  import opened Paging

  const SAVE_CHUNK_TARGET: nat := 16 * 1024

  const SAVE_BATCH_SIZE: nat := 256

  /** Rows as the record frame sees them. */
  function Framed(rows: seq<Row<Value>>): (r: Run)
    ensures |r| == |rows|
    ensures forall i :: 0 <= i < |r| ==> r[i] == Row(rows[i].key, Some(rows[i].value))
  {
    if rows == [] then [] else [Row(rows[0].key, Some(rows[0].value))] + Framed(rows[1..])
  }

  predicate Fits(row: Row<Value>)
  {
    |row.key| <= U32_MAX && |row.value| <= U32_MAX
  }

  predicate AllFit(rows: seq<Row<Value>>)
  {
    forall i :: 0 <= i < |rows| ==> Fits(rows[i])
  }

  ghost function Encoded(rows: seq<Row<Value>>): (b: Bytes)
    requires AllFit(rows)
  {
    EncodeRows(Framed(rows))
  }

  lemma EncodedSnoc(rows: seq<Row<Value>>, row: Row<Value>)
    requires AllFit(rows) && Fits(row)
    ensures AllFit(rows + [row]) && Encoded(rows + [row]) == Encoded(rows) + EncodeRow(Row(row.key, Some(row.value)))
  {
    assert Framed(rows + [row]) == Framed(rows) + [Row(row.key, Some(row.value))];
    EncodeSnoc(Framed(rows), Row(row.key, Some(row.value)));
  }

  lemma {:induction false} EncodedConcat(a: seq<Row<Value>>, b: seq<Row<Value>>)
    requires AllFit(a) && AllFit(b)
    ensures AllFit(a + b) && Encoded(a + b) == Encoded(a) + Encoded(b)
    decreases |b|
  {
    hide EncodeRow, EncodeRows;
    if b == [] {
      assert a + b == a;
      EncodedNothing();
    } else {
      var n := |b| - 1;
      EncodedConcat(a, b[..n]);
      EncodedSnoc(b[..n], b[n]);
      EncodedSnoc(a + b[..n], b[n]);
      assert b[..n] + [b[n]] == b;
      assert a + b[..n] + [b[n]] == a + b;
    }
  }

  lemma EncodedNothing()
    ensures Encoded([]) == []
  {
  }

  lemma EncodedSomething(rows: seq<Row<Value>>)
    requires AllFit(rows)
    ensures rows != [] ==> Encoded(rows) != []
  {
  }

  /** Appends one frame; a length that does not fit its word is an error. */
  method EncodeRecord(buffer: Bytes, row: Row<Value>) returns (r: Option<Bytes>)
    ensures r.Some? <==> Fits(row)
    ensures r.Some? ==> r.value == buffer + EncodeRow(Row(row.key, Some(row.value)))
  {
    if |row.key| > U32_MAX || |row.value| > U32_MAX {
      return None;
    }
    var b := buffer;
    b := b + U32Le(|row.key|);
    b := b + row.key;
    b := b + U32Le(|row.value|);
    b := b + row.value;
    assert b == buffer + (U32Le(|row.key|) + row.key + (U32Le(|row.value|) + row.value));
    return Some(b);
  }

  // ---------------------------------------------------------------------------
  // The stream
  // ---------------------------------------------------------------------------

  /** The bytes of the rows from `lo` to `hi`, with the header in front of the first chunk. */
  ghost function ChunkOf(w: seq<Row<Value>>, first: bool, lo: nat, hi: nat): (b: Bytes)
    requires lo <= hi <= |w| && AllFit(w[lo..hi])
  {
    (if first then Header() else []) + Encoded(w[lo..hi])
  }

  lemma ChunkSnoc(w: seq<Row<Value>>, first: bool, lo: nat, hi: nat)
    requires lo <= hi < |w| && AllFit(w[lo..hi]) && Fits(w[hi])
    ensures AllFit(w[lo..hi + 1])
    ensures ChunkOf(w, first, lo, hi + 1) == ChunkOf(w, first, lo, hi) + EncodeRow(Row(w[hi].key, Some(w[hi].value)))
  {
    hide Encoded, EncodeRow;
    EncodedSnoc(w[lo..hi], w[hi]);
    assert w[lo..hi] + [w[hi]] == w[lo..hi + 1];
  }

  /** All but at most one page of the rows stay below 16 KiB. */
  ghost predicate ShortOfTarget(w: seq<Row<Value>>, first: bool, lo: nat, mark: nat, hi: nat)
  {
    lo <= mark <= hi <= |w| && hi <= mark + 256 && AllFit(w[lo..mark]) && |ChunkOf(w, first, lo, mark)| < 16 * 1024
  }

  ghost predicate Bounded(w: seq<Row<Value>>, first: bool, lo: nat, hi: nat)
  {
    exists mid: nat :: ShortOfTarget(w, first, lo, mid, hi)
  }

  datatype Item = Chunk(bytes: Bytes) | Failed | End

  class SaveStream {
    const m: map<Key, Value>
    var cursor: Option<Key>
    var buffer: Bytes
    var exhausted: bool
    /** Rows encoded, rows yielded, whether the header was yielded, and whether a record failed. */
    ghost var sent: nat
    ghost var out: nat
    ghost var begun: bool
    ghost var failed: bool
    /** Rows encoded before the last page. */
    ghost var mark: nat

    ghost function W(): (w: seq<Row<Value>>)
    {
      Window(m, Next, (None, None))
    }

    ghost predicate Valid()
      reads this
    {
      && out <= sent <= |W()| && AllFit(W()[out..sent])
      && buffer == ChunkOf(W(), !begun, out, sent)
      && ShortOfTarget(W(), !begun, out, mark, sent)
      && (failed ==> exhausted && sent < |W()| && !Fits(W()[sent]))
      && (exhausted && !failed ==> sent == |W()|)
      && (!exhausted ==> cursor == if sent == 0 then None else Some(W()[sent - 1].key))
    }

    constructor (m: map<Key, Value>)
      ensures Valid() && this.m == m && out == 0 && !begun && !failed
    {
      this.m := m;
      cursor, buffer, exhausted := None, Header(), false;
      sent, out, begun, failed, mark := 0, 0, false, false, 0;
      new;
      EncodedNothing();
    }

    /** Encodes the rows of one page after the cursor. */
    method EncodeBatch(batch: seq<Row<Value>>, ghost at: nat) returns (last: Option<Key>, ok: bool)
      requires Valid() && !exhausted && at + |batch| <= |W()| && batch == W()[at..at + |batch|]
      requires at == if sent == 0 then 0 else sent - 1
      modifies this`buffer, this`sent
      ensures out == old(out) <= sent && old(sent) <= sent <= |W()| && AllFit(W()[out..sent])
      ensures buffer == ChunkOf(W(), !begun, out, sent)
      ensures ok ==> sent == if batch == [] then old(sent) else at + |batch|
      ensures ok ==> last == if sent == old(sent) then None else Some(W()[sent - 1].key)
      ensures !ok ==> sent < |W()| && !Fits(W()[sent])
      ensures sent <= old(sent) + |batch|
    {
      hide Window, ChunkOf, AllFit, Fits, EncodeRow;
      last, ok := None, true;
      WindowDistinct(m, Next, (None, None));
      ghost var w := W();
      assert forall i, j :: 0 <= i < j < |w| ==> w[i].key != w[j].key;
      hide W;
      assert cursor == if sent == 0 then None else Some(w[sent - 1].key);
      for i := 0 to |batch|
        invariant sent == (if i == 0 || at + i < old(sent) then old(sent) else at + i)
        invariant cursor == old(cursor) && out <= sent <= |w| && AllFit(w[out..sent])
        invariant buffer == ChunkOf(w, !begun, out, sent)
        invariant last == if sent == old(sent) then None else Some(w[sent - 1].key)
      {
        assert batch[i] == w[at + i];
        if cursor == Some(batch[i].key) {
          assert w[at + i].key == w[old(sent) - 1].key;
          continue;
        }
        var next := EncodeRecord(buffer, batch[i]);
        if next.None? {
          ok := false;
          return;
        }
        ChunkSnoc(w, !begun, out, sent);
        buffer := next.value;
        sent := sent + 1;
        last := Some(batch[i].key);
      }
    }

    /** Reads and encodes the next page. */
    method Fetch() returns (ok: bool)
      requires Valid() && !exhausted && |buffer| < SAVE_CHUNK_TARGET
      modifies this`cursor, this`buffer, this`exhausted, this`sent, this`failed, this`mark
      ensures Valid() && out == old(out)
      ensures exhausted || sent > old(sent)
      ensures ok == !failed
    {
      hide Window, Encoded, ChunkOf, AllFit, Fits, Scan;
      ok := true;
      mark := sent;
      var batch := GetsBytes(m, Some(SAVE_BATCH_SIZE), Next, (cursor, None));
      ghost var w, at := W(), if sent == 0 then 0 else sent - 1;
      assert Window(m, Next, (cursor, None)) == w[at..] by {
        if sent > 0 {
          WindowFrom(m, Next, None, None, sent - 1);
        } else {
          assert w[0..] == w;
        }
      }
      PageSlice(m, Next, cursor, None, w, at);
      if batch == [] {
        exhausted := true;
        return;
      }
      var last;
      last, ok := EncodeBatch(batch, at);
      if !ok {
        exhausted, failed := true, true;
        return;
      }
      var processed := last.Some?;
      cursor := last;
      if |batch| < SAVE_BATCH_SIZE || !processed {
        exhausted := true;
      }
    }

    /** One poll, run until it answers. */
    method PollNext() returns (item: Item)
      requires Valid()
      modifies this`cursor, this`buffer, this`exhausted, this`sent, this`failed, this`out, this`begun, this`mark
      ensures Valid() && (old(failed) ==> failed)
      ensures item.Chunk? ==>
                && old(out) <= out && AllFit(W()[old(out)..out]) && item.bytes == ChunkOf(W(), !old(begun), old(out), out)
                && begun && out == sent && (|item.bytes| >= 16 * 1024 || exhausted)
                && Bounded(W(), !old(begun), old(out), out)
      ensures item.Chunk? ==> out > old(out) || !old(begun)
      ensures item.End? ==> exhausted && out == sent == old(out) && begun && old(begun)
      ensures item.Failed? <==> failed && !old(failed)
    {
      hide Window, Encoded, ChunkOf, ShortOfTarget, Bounded;
      while true
        invariant Valid() && out == old(out) && begun == old(begun) && failed == old(failed)
        decreases !exhausted, |W()| - sent
      {
        if |buffer| >= SAVE_CHUNK_TARGET {
          NothingLeft();
          item := Chunk(buffer);
          BoundedBy(W(), !begun, out, mark, sent);
          TakeBuffer();
          return;
        }
        if exhausted {
          NothingLeft();
          if buffer == [] {
            return End;
          }
          item := Chunk(buffer);
          BoundedBy(W(), !begun, out, mark, sent);
          TakeBuffer();
          return;
        }
        var ok := Fetch();
        if !ok {
          return Failed;
        }
      }
    }

    lemma NothingLeft()
      requires Valid()
      ensures buffer == [] <==> out == sent && begun
    {
      if out == sent {
        assert W()[out..sent] == [];
        EncodedNothing();
      }
      EncodedSomething(W()[out..sent]);
    }

    lemma BoundedBy(w: seq<Row<Value>>, first: bool, lo: nat, mid: nat, hi: nat)
      requires ShortOfTarget(w, first, lo, mid, hi)
      ensures Bounded(w, first, lo, hi)
    {
    }

    method TakeBuffer()
      requires Valid()
      modifies this`buffer, this`out, this`begun, this`mark
      ensures Valid() && out == sent && begun && buffer == []
    {
      hide Window, Encoded, Fits;
      buffer := [];
      out, begun, mark := sent, true, sent;
      assert W()[out..sent] == [];
      EncodedNothing();
    }
  }

  // ---------------------------------------------------------------------------
  // The whole snapshot
  // ---------------------------------------------------------------------------

  ghost predicate IsCut(w: seq<Row<Value>>, chunk: Bytes, first: bool, lo: nat, hi: nat)
  {
    lo <= hi <= |w| && AllFit(w[lo..hi]) && chunk == ChunkOf(w, first, lo, hi)
  }

  /**
   The chunks cut the rows at `cuts`. Every chunk but the last reaches 16 KiB, and all but at
   most 256 rows of each stay below.
   */
  ghost predicate CutAt(w: seq<Row<Value>>, chunks: seq<Bytes>, cuts: seq<nat>)
  {
    && |cuts| == |chunks| + 1 && cuts[0] == 0
    && (forall i :: 0 <= i < |chunks| ==> IsCut(w, chunks[i], i == 0, cuts[i], cuts[i + 1]))
    && (forall i :: 0 <= i < |chunks| - 1 ==> |chunks[i]| >= 16 * 1024)
    && (forall i :: 0 <= i < |chunks| ==> Bounded(w, i == 0, cuts[i], cuts[i + 1]))
  }

  lemma NoCuts(w: seq<Row<Value>>)
    ensures CutAt(w, [], [0])
  {
  }

  /** One more chunk, when the last one so far reached the target. */
  lemma CutMore(w: seq<Row<Value>>, chunks: seq<Bytes>, cuts: seq<nat>, bytes: Bytes, hi: nat)
    requires CutAt(w, chunks, cuts) && (chunks != [] ==> |chunks[|chunks| - 1]| >= 16 * 1024)
    requires cuts[|chunks|] <= hi <= |w| && AllFit(w[cuts[|chunks|]..hi])
    requires bytes == ChunkOf(w, chunks == [], cuts[|chunks|], hi) && Bounded(w, chunks == [], cuts[|chunks|], hi)
    ensures CutAt(w, chunks + [bytes], cuts + [hi])
  {
    hide ChunkOf, AllFit, Bounded;
    var c, d := chunks + [bytes], cuts + [hi];
    forall i | 0 <= i < |c|
      ensures IsCut(w, c[i], i == 0, d[i], d[i + 1]) && Bounded(w, i == 0, d[i], d[i + 1])
    {
      if i < |chunks| {
        assert IsCut(w, chunks[i], i == 0, cuts[i], cuts[i + 1]) && Bounded(w, i == 0, cuts[i], cuts[i + 1]);
      }
    }
  }

  /** Cut chunks add up to the header and each row once, in order. */
  lemma {:induction false} CutsJoined(w: seq<Row<Value>>, chunks: seq<Bytes>, cuts: seq<nat>, n: nat)
    requires CutAt(w, chunks, cuts) && 0 < n <= |chunks|
    ensures cuts[n] <= |w| && AllFit(w[..cuts[n]]) && Joined(chunks[..n]) == Header() + Encoded(w[..cuts[n]])
  {
    hide Encoded, AllFit, Header, IsCut, Joined;
    assert IsCut(w, chunks[n - 1], n - 1 == 0, cuts[n - 1], cuts[n]);
    JoinedSnoc(chunks, n - 1);
    if n == 1 {
      FirstCut(w, chunks[0], cuts[1]);
      assert chunks[..0] == [];
      JoinedNothing();
    } else {
      CutsJoined(w, chunks, cuts, n - 1);
      OneMore(w, chunks[n - 1], cuts[n - 1], cuts[n]);
    }
  }

  lemma JoinedNothing()
    ensures Joined([]) == []
  {
  }

  lemma JoinedSnoc(chunks: seq<Bytes>, n: nat)
    requires n < |chunks|
    ensures Joined(chunks[..n + 1]) == Joined(chunks[..n]) + chunks[n]
  {
    assert chunks[..n + 1][..n] == chunks[..n];
  }

  lemma FirstCut(w: seq<Row<Value>>, chunk: Bytes, hi: nat)
    requires IsCut(w, chunk, true, 0, hi)
    ensures hi <= |w| && AllFit(w[..hi]) && chunk == Header() + Encoded(w[..hi])
  {
    hide Encoded, AllFit, Header;
    assert w[0..hi] == w[..hi];
  }

  lemma SomeUnfit(w: seq<Row<Value>>, i: nat)
    requires i < |w| && !Fits(w[i])
    ensures !AllFit(w)
  {
  }

  lemma OneMore(w: seq<Row<Value>>, chunk: Bytes, lo: nat, hi: nat)
    requires IsCut(w, chunk, false, lo, hi) && AllFit(w[..lo])
    ensures hi <= |w| && AllFit(w[..hi]) && Encoded(w[..hi]) == Encoded(w[..lo]) + chunk
  {
    hide Encoded;
    EncodedConcat(w[..lo], w[lo..hi]);
    assert w[..lo] + w[lo..hi] == w[..hi];
  }

  lemma WholeWindow(m: map<Key, Value>)
    ensures Window(m, Next, (None, None)) == Listing(m)
  {
    assert Restrict(m, None, None) == m;
  }

  /**
   Runs the stream to its end: it fails exactly when some record does not fit the frame,
   and otherwise its chunks are the header and every record once, in ascending key order,
   cut only between records.
   */
  method SaveAll(m: map<Key, Value>) returns (chunks: seq<Bytes>, ok: bool, ghost cuts: seq<nat>)
    ensures ok <==> AllFit(Listing(m))
    ensures CutAt(Listing(m), chunks, cuts)
    ensures ok ==> Joined(chunks) == Header() + Encoded(Listing(m))
  {
    hide Encoded, AllFit, Listing, Window, Bounded, ShortOfTarget, IsCut, CutAt, ChunkOf;
    WholeWindow(m);
    var stream := new SaveStream(m);
    ghost var w := Listing(m);
    chunks, ok, cuts := [], true, [0];
    NoCuts(w);
    while true
      invariant stream.Valid() && fresh(stream) && stream.m == m && !stream.failed
      invariant CutAt(w, chunks, cuts) && |cuts| == |chunks| + 1 && cuts[|chunks|] == stream.out
      invariant stream.begun == (chunks != [])
      invariant chunks != [] ==> |chunks[|chunks| - 1]| >= SAVE_CHUNK_TARGET || (stream.exhausted && stream.out == stream.sent)
      decreases |w| - stream.out, !stream.begun
    {
      var item := stream.PollNext();
      match item
      case Chunk(bytes) =>
        CutMore(w, chunks, cuts, bytes, stream.out);
        chunks := chunks + [bytes];
        cuts := cuts + [stream.out];
      case Failed =>
        ok := false;
        assert !AllFit(w) by {
          SomeUnfit(w, stream.sent);
        }
        return;
      case End =>
        CutsJoined(w, chunks, cuts, |chunks|);
        assert chunks[..|chunks|] == chunks && w[..|w|] == w;
        return;
    }
  }

  // ---------------------------------------------------------------------------
  // The round trip
  // ---------------------------------------------------------------------------

  lemma FirstEncoded(env: Platform, row: Row<Value>, tail: Bytes)
    requires Fits(row) && env.utf8(row.key)
    ensures var e := EncodeRow(Row(row.key, Some(row.value)));
            FirstRecord(env, e + tail) == Got(row, |e|) && (e + tail)[|e|..] == tail
  {
    var b, k, v := EncodeRow(Row(row.key, Some(row.value))) + tail, |row.key|, |row.value|;
    assert b[0..4] == U32Le(k);
    ReadAt(b, 0, k);
    assert b[4..4 + k] == row.key;
    assert b[4 + k..8 + k] == U32Le(v);
    ReadAt(b, 4 + k, v);
    assert b[8 + k..8 + k + v] == row.value;
  }

  lemma {:induction false} RecordsRoundTrip(env: Platform, rows: seq<Row<Value>>)
    requires AllFit(rows) && forall i :: 0 <= i < |rows| ==> env.utf8(rows[i].key)
    ensures AllRecords(env, Encoded(rows)) == Records(rows, [], false)
    decreases |rows|
  {
    hide FirstRecord, EncodeRow, Encoded, AllRecords;
    if rows == [] {
      NothingEncoded();
      NothingRecorded(env);
    } else {
      RecordsRoundTrip(env, rows[1..]);
      EncodedCons(rows);
      FirstEncoded(env, rows[0], Encoded(rows[1..]));
      RecordsUnfold(env, Encoded(rows));
    }
  }

  lemma EncodedCons(rows: seq<Row<Value>>)
    requires rows != [] && AllFit(rows)
    ensures AllFit(rows[1..]) && Encoded(rows) == EncodeRow(Row(rows[0].key, Some(rows[0].value))) + Encoded(rows[1..])
  {
    hide EncodeRow;
    assert Framed(rows)[1..] == Framed(rows[1..]);
  }

  lemma NothingEncoded()
    ensures Encoded([]) == []
  {
  }

  lemma NothingRecorded(env: Platform)
    ensures AllRecords(env, []) == Records([], [], false)
  {
  }

  /** The rows written one by one. */
  function Inserted(m: map<Key, Value>, rows: seq<Row<Value>>): (r: map<Key, Value>)
  {
    if rows == [] then m else Inserted(m, rows[..|rows| - 1])[rows[|rows| - 1].key := rows[|rows| - 1].value]
  }

  lemma {:induction false} InsertedAt(rows: seq<Row<Value>>)
    requires Sorted(rows)
    ensures forall k :: k in Inserted(map[], rows) ==> Row(k, Inserted(map[], rows)[k]) in rows
    ensures forall row :: row in rows ==> row.key in Inserted(map[], rows)
    decreases |rows|
  {
    if rows != [] {
      var n := |rows| - 1;
      InsertedAt(rows[..n]);
      assert rows == rows[..n] + [rows[n]];
    }
  }

  /** Saving a store whose keys are valid and whose lengths fit, and loading it into an empty one, gives it back. */
  lemma SnapshotRoundTrip(env: Platform, m: map<Key, Value>)
    requires AllFit(Listing(m)) && forall k :: k in m ==> env.utf8(k)
    ensures ParseSnapshot(env, Header() + Encoded(Listing(m))) == Ok(Listing(m))
    ensures Inserted(map[], Listing(m)) == m
  {
    var rows := Listing(m);
    ListingLists(m);
    HeaderParses(env, Encoded(rows));
    hide Listing, AllRecords, Encoded, ParseSnapshot;
    RecordsRoundTrip(env, rows);
    InsertedLists(rows, m);
  }

  lemma {:induction false} RecordsWithBadKey(env: Platform, rows: seq<Row<Value>>, i: nat, tail: Bytes)
    requires AllFit(rows) && i < |rows| && !env.utf8(rows[i].key)
    ensures AllRecords(env, Encoded(rows) + tail).bad
    decreases |rows|
  {
    hide FirstRecord, EncodeRow, Encoded, AllRecords;
    var e, rest := EncodeRow(Row(rows[0].key, Some(rows[0].value))), Encoded(rows[1..]) + tail;
    EncodedCons(rows);
    assert Encoded(rows) + tail == e + rest;
    RecordsUnfold(env, e + rest);
    if env.utf8(rows[0].key) {
      FirstEncoded(env, rows[0], rest);
      RecordsWithBadKey(env, rows[1..], i - 1, tail);
    } else {
      BadFirst(env, rows[0], rest);
    }
  }

  lemma BadFirst(env: Platform, row: Row<Value>, tail: Bytes)
    requires Fits(row) && !env.utf8(row.key)
    ensures FirstRecord(env, EncodeRow(Row(row.key, Some(row.value))) + tail).Bad?
  {
    var b, k, v := EncodeRow(Row(row.key, Some(row.value))) + tail, |row.key|, |row.value|;
    assert b[0..4] == U32Le(k);
    ReadAt(b, 0, k);
    assert b[4..4 + k] == row.key;
    assert b[4 + k..8 + k] == U32Le(v);
    ReadAt(b, 4 + k, v);
  }

  /**
   A header and well-framed records load exactly when every key is valid; otherwise the load
   is rejected for the key, whatever follows.
   */
  lemma LoadsWhenValid(env: Platform, rows: seq<Row<Value>>, tail: Bytes)
    requires AllFit(rows)
    ensures (forall i :: 0 <= i < |rows| ==> env.utf8(rows[i].key)) ==> ParseSnapshot(env, Header() + Encoded(rows)) == Ok(rows)
    ensures (exists i :: 0 <= i < |rows| && !env.utf8(rows[i].key)) ==>
              ParseSnapshot(env, Header() + (Encoded(rows) + tail)) == Err(InvalidKey)
  {
    HeaderParses(env, Encoded(rows));
    HeaderParses(env, Encoded(rows) + tail);
    hide AllRecords, Encoded, ParseSnapshot;
    if i :| 0 <= i < |rows| && !env.utf8(rows[i].key) {
      RecordsWithBadKey(env, rows, i, tail);
    } else {
      RecordsRoundTrip(env, rows);
    }
  }

  /** Cut inside a record, a snapshot is rejected as truncated; no part of it loads. */
  lemma TornIsRejected(env: Platform, rows: seq<Row<Value>>, row: Row<Value>, n: nat)
    requires AllFit(rows) && Fits(row) && forall i :: 0 <= i < |rows| ==> env.utf8(rows[i].key)
    requires 0 < n < |EncodeRow(Row(row.key, Some(row.value)))|
    ensures var e := EncodeRow(Row(row.key, Some(row.value)));
            ParseSnapshot(env, Header() + (Encoded(rows) + e[..n])) == Err(TruncatedRecord)
  {
    var e := EncodeRow(Row(row.key, Some(row.value)));
    HeaderParses(env, Encoded(rows) + e[..n]);
    hide AllRecords, Encoded, ParseSnapshot, EncodeRow, FirstRecord, AllFit, Fits;
    RecordsRoundTrip(env, rows);
    RecordsGrow(env, Encoded(rows), e[..n]);
    TornFirst(env, row, n);
    RecordsUnfold(env, e[..n]);
    assert [] + e[..n] == e[..n] && rows + [] == rows;
  }

  lemma TornFirst(env: Platform, row: Row<Value>, n: nat)
    requires Fits(row) && n < |EncodeRow(Row(row.key, Some(row.value)))|
    ensures FirstRecord(env, EncodeRow(Row(row.key, Some(row.value)))[..n]).More?
  {
    var e, k, v := EncodeRow(Row(row.key, Some(row.value))), |row.key|, |row.value|;
    hide U32Le, ReadU32;
    var x, y, b := U32Le(k), U32Le(v), e[..n];
    assert e == x + (row.key + (y + row.value));
    if n >= 4 {
      assert b[0..4] == x;
      ReadAt(b, 0, k);
    }
    if n >= 8 + k {
      assert b[4 + k..8 + k] == y;
      ReadAt(b, 4 + k, v);
    }
  }

  lemma InsertedLists(rows: seq<Row<Value>>, m: map<Key, Value>)
    requires Lists(rows, m)
    ensures Inserted(map[], rows) == m
  {
    InsertedAt(rows);
    hide Lt, Inserted;
    var r := Inserted(map[], rows);
    forall k
      ensures k in m <==> k in r
      ensures k in r ==> k in m && r[k] == m[k]
    {
      if k in m {
        assert Row(k, m[k]) in rows;
      }
    }
  }

  lemma HeaderParses(env: Platform, b: Bytes)
    ensures var rs := AllRecords(env, b);
            ParseSnapshot(env, Header() + b) ==
            if rs.bad then Err(InvalidKey) else if rs.tail != [] then Err(TruncatedRecord) else Ok(rs.rows)
  {
    hide AllRecords;
    var s := Header() + b;
    assert s[..4] == MAGIC && s[4..8] == U32Le(VERSION) && s[8..] == b;
    ReadAt(s, 4, VERSION);
  }
}

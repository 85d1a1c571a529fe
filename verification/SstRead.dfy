/** Point lookups in an SST file (`SstFile::get_option` in `src/store/lsm/sst.rs`). */
module SstRead {
  import opened Keys
  import opened Wrappers
  import opened Rows
  import opened Merge
  import opened Codec
  import opened Wal
  import opened Sst

  /** A false positive is possible; a false negative never occurs on a built file. */
  predicate MayContain(env: Platform, footer: Footer, key: Key)
  {
    footer.index != [] &&
    (footer.bloomM == 0 ||
     (footer.bloomM <= 8 * |footer.bloomBits| && B.Holds(env, footer.bloomBits, footer.bloomM, key, footer.bloomK)))
  }

  function BlockBytes(env: Platform, data: Bytes, meta: BlockMeta): (r: Result<Bytes, StoreError>)
  {
    if meta.offset + meta.len > |data| then Err(BlockOutOfBounds) else
    var b := data[meta.offset..meta.offset + meta.len];
    if env.crc(b) != meta.crc then Err(BlockCrcMismatch) else Ok(b)
  }

  function FindRow(rows: Run, key: Key): (r: Option<Slot>)
  {
    if rows == [] then None else if rows[0].key == key then Some(rows[0].value) else FindRow(rows[1..], key)
  }

  type Found = Result<Option<Slot>, StoreError>

  /** What a block of decoded records answers for `key`; an invalid key before the match is an error. */
  function Answer(p: Parse, key: Key): (r: Found)
  {
    var f := FindRow(p.rows, key);
    if f.None? && p.bad then Err(InvalidUtf8) else Ok(f)
  }

  predicate OutsideBlock(meta: BlockMeta, key: Key)
  {
    Lt(key, meta.minKey) || Lt(meta.maxKey, key)
  }

  /** The lookup from block `i` on. */
  function GetFrom(env: Platform, file: SstFile, i: nat, key: Key): (r: Found)
    decreases |file.footer.index| - i
  {
    if i >= |file.footer.index| then Ok(None) else
    var meta := file.footer.index[i];
    if OutsideBlock(meta, key) then GetFrom(env, file, i + 1, key) else
    var b := BlockBytes(env, file.data, meta);
    if b.Err? then Err(b.error) else
    var a := Answer(DecodeRows(env, b.value), key);
    if a == Ok(None) then GetFrom(env, file, i + 1, key) else a
  }

  function Get(env: Platform, file: SstFile, key: Key): (r: Found)
  {
    if MayContain(env, file.footer, key) then GetFrom(env, file, 0, key) else Ok(None)
  }

  // ---------------------------------------------------------------------------
  // The loops
  // ---------------------------------------------------------------------------

  method SearchBlock(env: Platform, bytes: Bytes, key: Key) returns (r: Found)
    ensures r == Answer(DecodeRows(env, bytes), key)
  {
    hide DecodeRows, ReadU32;
    var pos := 0;
    assert bytes[0..] == bytes;
    while pos + 4 <= |bytes|
      invariant pos <= |bytes|
      invariant Answer(DecodeRows(env, bytes[pos..]), key) == Answer(DecodeRows(env, bytes), key)
      decreases |bytes| - pos
    {
      DecodeStep(env, bytes, pos);
      var klen := ReadU32(bytes, pos);
      if pos + 4 + klen + 4 > |bytes| {
        return Ok(None);
      }
      var inBlock := bytes[pos + 4..pos + 4 + klen];
      if !env.utf8(inBlock) {
        return Err(InvalidUtf8);
      }
      var start := pos + 4 + klen;
      var vlen := ReadU32(bytes, start);
      if vlen == TOMBSTONE_VLEN {
        if inBlock == key {
          return Ok(Some(None));
        }
        pos := start + 4;
      } else {
        if start + 4 + vlen > |bytes| {
          return Ok(None);
        }
        if inBlock == key {
          return Ok(Some(Some(bytes[start + 4..start + 4 + vlen])));
        }
        pos := start + 4 + vlen;
      }
    }
    DecodeStep(env, bytes, pos);
    return Ok(None);
  }

  method GetOption(env: Platform, file: SstFile, key: Key) returns (r: Found)
    ensures r == Get(env, file, key)
  {
    hide DecodeRows, Answer, BlockBytes;
    if !MayContain(env, file.footer, key) {
      return Ok(None);
    }
    var i := 0;
    while i < |file.footer.index|
      invariant i <= |file.footer.index|
      invariant GetFrom(env, file, i, key) == GetFrom(env, file, 0, key)
    {
      var meta := file.footer.index[i];
      if !OutsideBlock(meta, key) {
        var b := BlockBytes(env, file.data, meta);
        if b.Err? {
          return Err(b.error);
        }
        r := SearchBlock(env, b.value, key);
        if r != Ok(None) {
          return;
        }
      }
      i := i + 1;
    }
    return Ok(None);
  }

  // ---------------------------------------------------------------------------
  // Damaged files
  // ---------------------------------------------------------------------------

  predicate InBounds(data: Bytes, meta: BlockMeta)
  {
    meta.offset + meta.len <= |data|
  }

  /** The indexed bytes are there and have the indexed checksum. */
  predicate Intact(env: Platform, data: Bytes, meta: BlockMeta)
  {
    InBounds(data, meta) && env.crc(data[meta.offset..meta.offset + meta.len]) == meta.crc
  }

  /** Opening an indexed block fails exactly when it is damaged, and says how. */
  lemma BlockOpens(env: Platform, data: Bytes, meta: BlockMeta)
    ensures BlockBytes(env, data, meta).Ok? <==> Intact(env, data, meta)
    ensures Intact(env, data, meta) ==> BlockBytes(env, data, meta) == Ok(data[meta.offset..meta.offset + meta.len])
    ensures !InBounds(data, meta) ==> BlockBytes(env, data, meta) == Err(BlockOutOfBounds)
    ensures InBounds(data, meta) && !Intact(env, data, meta) ==> BlockBytes(env, data, meta) == Err(BlockCrcMismatch)
  {
  }

  /** Block `j` is not opened for `key`, or is intact and does not mention it. */
  ghost predicate PassedOver(env: Platform, file: SstFile, key: Key, j: nat)
    requires j < |file.footer.index|
  {
    var meta := file.footer.index[j];
    OutsideBlock(meta, key) ||
    (Intact(env, file.data, meta) &&
     Answer(DecodeRows(env, file.data[meta.offset..meta.offset + meta.len]), key) == Ok(None))
  }

  lemma {:induction false} GetPasses(env: Platform, file: SstFile, key: Key, i: nat, n: nat)
    requires i <= n <= |file.footer.index| && forall j :: i <= j < n ==> PassedOver(env, file, key, j)
    ensures GetFrom(env, file, i, key) == GetFrom(env, file, n, key)
    decreases n - i
  {
    hide DecodeRows, Answer, Intact;
    if i < n {
      assert PassedOver(env, file, key, i);
      BlockOpens(env, file.data, file.footer.index[i]);
      GetPasses(env, file, key, i + 1, n);
    }
  }

  /** A lookup that comes to a damaged block fails with what is wrong with it. */
  lemma DamageIsReported(env: Platform, file: SstFile, key: Key, i: nat)
    requires MayContain(env, file.footer, key) && i < |file.footer.index|
    requires forall j :: 0 <= j < i ==> PassedOver(env, file, key, j)
    requires !OutsideBlock(file.footer.index[i], key) && !Intact(env, file.data, file.footer.index[i])
    ensures Get(env, file, key) == Err(if InBounds(file.data, file.footer.index[i]) then BlockCrcMismatch else BlockOutOfBounds)
  {
    hide DecodeRows, Answer, Intact, BlockBytes, PassedOver;
    GetPasses(env, file, key, 0, i);
    BlockOpens(env, file.data, file.footer.index[i]);
  }

  /** A lookup that comes to an invalid key before its own fails for it, also past intact blocks and records. */
  lemma InvalidKeyIsReported(env: Platform, file: SstFile, key: Key, i: nat, rows: Run, bad: Row<Slot>, tail: Bytes)
    requires MayContain(env, file.footer, key) && i < |file.footer.index|
    requires forall j :: 0 <= j < i ==> PassedOver(env, file, key, j)
    requires !OutsideBlock(file.footer.index[i], key) && Intact(env, file.data, file.footer.index[i])
    requires AllClean(env, rows) && Representable(bad) && !env.utf8(bad.key)
    requires var meta := file.footer.index[i];
             file.data[meta.offset..meta.offset + meta.len] == EncodeRows(rows) + (EncodeRow(bad) + tail)
    ensures Get(env, file, key) == if FindRow(rows, key).Some? then Ok(FindRow(rows, key)) else Err(InvalidUtf8)
  {
    hide DecodeRows, PassedOver, EncodeRows, EncodeRow;
    GetPasses(env, file, key, 0, i);
    BlockOpens(env, file.data, file.footer.index[i]);
    BadKeyStops(env, rows, bad, tail);
  }

  /** Block `i` is the first one that is neither skipped nor silent on the key. */
  ghost predicate StopsAt(env: Platform, file: SstFile, key: Key, i: nat)
  {
    && i < |file.footer.index| && !OutsideBlock(file.footer.index[i], key)
    && (forall j :: 0 <= j < i ==> PassedOver(env, file, key, j))
    && !PassedOver(env, file, key, i)
  }

  lemma {:induction false} StopExists(env: Platform, file: SstFile, key: Key, i: nat) returns (n: nat)
    requires i <= |file.footer.index| && forall j :: 0 <= j < i ==> PassedOver(env, file, key, j)
    ensures i <= n <= |file.footer.index|
    ensures if n < |file.footer.index| then StopsAt(env, file, key, n) else forall j :: 0 <= j < n ==> PassedOver(env, file, key, j)
    decreases |file.footer.index| - i
  {
    hide DecodeRows, Answer, Intact;
    if i < |file.footer.index| && PassedOver(env, file, key, i) {
      n := StopExists(env, file, key, i + 1);
    } else {
      n := i;
    }
  }

  /** On every file, damaged or not: whatever a lookup finds stands in an intact block. */
  lemma FoundIsIntact(env: Platform, file: SstFile, key: Key) returns (i: nat)
    requires Get(env, file, key).Ok? && Get(env, file, key).value.Some?
    ensures i < |file.footer.index| && Intact(env, file.data, file.footer.index[i])
    ensures var meta := file.footer.index[i];
            FindRow(DecodeRows(env, file.data[meta.offset..meta.offset + meta.len]).rows, key) == Get(env, file, key).value
  {
    hide DecodeRows, Intact, BlockBytes, PassedOver;
    i := StopExists(env, file, key, 0);
    GetPasses(env, file, key, 0, i);
    BlockOpens(env, file.data, file.footer.index[i]);
    StoppedNotSilent(env, file, key, i);
  }

  lemma StoppedNotSilent(env: Platform, file: SstFile, key: Key, i: nat)
    requires StopsAt(env, file, key, i) && Intact(env, file.data, file.footer.index[i])
    ensures var meta := file.footer.index[i];
            Answer(DecodeRows(env, file.data[meta.offset..meta.offset + meta.len]), key) != Ok(None)
  {
  }

  // ---------------------------------------------------------------------------
  // Built files
  // ---------------------------------------------------------------------------

  /** Block `i` of a built file is the encoding of chunk `i`, under the exact key range of that chunk. */
  lemma {:induction false} BlockAt(env: Platform, pre: Bytes, chunks: seq<Run>, i: nat)
    requires GoodChunks(chunks) && i < |chunks|
    ensures var meta := IndexOf(env, chunks, |pre|)[i];
            && BlockBytes(env, pre + Blocks(chunks), meta) == Ok(EncodeRows(chunks[i]))
            && meta.minKey == chunks[i][0].key && meta.maxKey == chunks[i][|chunks[i]| - 1].key
    decreases |chunks|
  {
    hide EncodeRows;
    var b := EncodeRows(chunks[0]);
    var data := pre + Blocks(chunks);
    if i == 0 {
      assert data[|pre|..|pre| + |b|] == b;
    } else {
      BlockAt(env, pre + b, chunks[1..], i - 1);
      assert data == (pre + b) + Blocks(chunks[1..]);
    }
  }

  lemma BlockOf(env: Platform, file: SstFile, entries: Run, chunks: seq<Run>, i: nat)
    requires Holds(env, file, entries, chunks) && i < |chunks|
    ensures var meta := file.footer.index[i];
            && BlockBytes(env, file.data, meta) == Ok(EncodeRows(chunks[i]))
            && meta.minKey == chunks[i][0].key && meta.maxKey == chunks[i][|chunks[i]| - 1].key
  {
    hide EncodeRows, BlockBytes, IndexOf, Blocks;
    BlockAt(env, [], chunks, i);
    assert [] + Blocks(chunks) == Blocks(chunks);
  }

  lemma {:induction false} FindInConcat(a: Run, b: Run, key: Key)
    ensures FindRow(a + b, key) == if FindRow(a, key).Some? then FindRow(a, key) else FindRow(b, key)
  {
    if a == [] {
      assert a + b == b;
    } else {
      FindInConcat(a[1..], b, key);
      assert (a + b)[1..] == a[1..] + b;
    }
  }

  /** In a sorted run the search is the map lookup. */
  lemma {:induction false} FindIsLookup(rows: Run, m: Table, key: Key)
    requires Lists(rows, m)
    ensures FindRow(rows, key) == if key in m then Some(m[key]) else None
    decreases |rows|
  {
    if rows == [] {
    } else {
      ListsTail(rows, m);
      FindIsLookup(rows[1..], m - {rows[0].key}, key);
    }
  }

  /** A key outside the range of a sorted run is not in it. */
  lemma OutsideNotFound(chunk: Run, key: Key)
    requires Sorted(chunk) && chunk != []
    requires Lt(key, chunk[0].key) || Lt(chunk[|chunk| - 1].key, key)
    ensures FindRow(chunk, key).None?
  {
    AsMapLists(chunk);
    var m := AsMap(chunk);
    FindIsLookup(chunk, m, key);
    if key in m {
      assert Row(key, m[key]) in chunk;
      StrictTotalOrder();
      assert false;
    }
  }

  lemma {:induction false} ChunksOfSorted(chunks: seq<Run>, i: nat)
    requires Sorted(Concat(chunks)) && i < |chunks|
    ensures Sorted(chunks[i])
    decreases |chunks|
  {
    var rest := Concat(chunks[1..]);
    assert Concat(chunks) == chunks[0] + rest;
    if i == 0 {
      SortedPart(Concat(chunks), 0, |chunks[0]|);
      assert Concat(chunks)[0..|chunks[0]|] == chunks[0];
    } else {
      SortedPart(Concat(chunks), |chunks[0]|, |Concat(chunks)|);
      assert Concat(chunks)[|chunks[0]|..|Concat(chunks)|] == rest;
      ChunksOfSorted(chunks[1..], i - 1);
    }
  }

  /** Blocks of a built file cover disjoint, ascending key ranges. */
  lemma {:induction false} BlocksDisjoint(chunks: seq<Run>, i: nat, j: nat)
    requires Sorted(Concat(chunks)) && GoodChunks(chunks) && i < j < |chunks|
    ensures Lt(chunks[i][|chunks[i]| - 1].key, chunks[j][0].key)
    decreases |chunks|
  {
    var all, rest, n := Concat(chunks), Concat(chunks[1..]), |chunks[0]|;
    assert all == chunks[0] + rest;
    if i == 0 {
      ChunkRows(chunks[1..], j - 1);
      assert chunks[j][0] in rest;
      var x :| 0 <= x < |rest| && rest[x] == chunks[j][0];
      assert all[n - 1] == chunks[0][n - 1] && all[n + x] == rest[x];
    } else {
      SortedPart(all, n, |all|);
      assert all[n..|all|] == rest;
      BlocksDisjoint(chunks[1..], i - 1, j - 1);
    }
  }

  lemma {:induction false} ChunkRows(chunks: seq<Run>, i: nat)
    requires i < |chunks|
    ensures forall row :: row in chunks[i] ==> row in Concat(chunks)
    decreases |chunks|
  {
    assert Concat(chunks) == chunks[0] + Concat(chunks[1..]);
    if i > 0 {
      ChunkRows(chunks[1..], i - 1);
    }
  }

  lemma CleanChunk(env: Platform, chunks: seq<Run>, i: nat)
    requires AllClean(env, Concat(chunks)) && i < |chunks|
    ensures AllClean(env, chunks[i])
  {
    hide Clean;
    ChunkRows(chunks, i);
    forall j | 0 <= j < |chunks[i]|
      ensures Clean(env, chunks[i][j])
    {
      assert chunks[i][j] in Concat(chunks);
    }
  }

  /** One step over block `i`, whose records decode to `p`. */
  lemma GetStep(env: Platform, file: SstFile, entries: Run, chunks: seq<Run>, i: nat, key: Key, p: Parse)
    requires Holds(env, file, entries, chunks) && Sorted(entries) && i < |chunks|
    requires p == DecodeRows(env, EncodeRows(chunks[i]))
    ensures GetFrom(env, file, i, key) ==
            if FindRow(chunks[i], key).Some? && Answer(p, key) != Ok(None) then Answer(p, key)
            else if OutsideBlock(file.footer.index[i], key) || Answer(p, key) == Ok(None) then GetFrom(env, file, i + 1, key)
            else Answer(p, key)
  {
    hide DecodeRows, EncodeRows, Answer, BlockBytes, IndexOf, Blocks, FindRow, B.Holds;
    BlockOf(env, file, entries, chunks, i);
    ChunksOfSorted(chunks, i);
    if OutsideBlock(file.footer.index[i], key) {
      OutsideNotFound(chunks[i], key);
    }
  }

  /** On a clean file the lookup from block `i` on searches the entries from chunk `i` on. */
  lemma {:induction false} GetFromClean(env: Platform, file: SstFile, entries: Run, chunks: seq<Run>, i: nat, key: Key)
    requires Holds(env, file, entries, chunks) && Sorted(entries) && AllClean(env, entries) && i <= |chunks|
    ensures GetFrom(env, file, i, key) == Ok(FindRow(Concat(chunks[i..]), key))
    decreases |chunks| - i
  {
    hide DecodeRows, EncodeRows, IndexOf, Blocks, B.Holds, AllClean, GetFrom;
    if i < |chunks| {
      CleanChunk(env, chunks, i);
      RunRoundTrip(env, chunks[i]);
      GetStep(env, file, entries, chunks, i, key, Parse(chunks[i], false));
      GetFromClean(env, file, entries, chunks, i + 1, key);
      assert chunks[i..][1..] == chunks[i + 1..];
      FindInConcat(chunks[i], Concat(chunks[i + 1..]), key);
      if OutsideBlock(file.footer.index[i], key) {
        NotInside(env, file, entries, chunks, i, key);
      }
    } else {
      GetPastEnd(env, file, entries, chunks, key);
    }
  }

  lemma NotInside(env: Platform, file: SstFile, entries: Run, chunks: seq<Run>, i: nat, key: Key)
    requires Holds(env, file, entries, chunks) && Sorted(entries) && i < |chunks|
    requires OutsideBlock(file.footer.index[i], key)
    ensures FindRow(chunks[i], key).None?
  {
    BlockOf(env, file, entries, chunks, i);
    ChunksOfSorted(chunks, i);
    OutsideNotFound(chunks[i], key);
  }

  lemma GetPastEnd(env: Platform, file: SstFile, entries: Run, chunks: seq<Run>, key: Key)
    requires Holds(env, file, entries, chunks)
    ensures GetFrom(env, file, |chunks|, key) == Ok(None)
  {
  }

  /** The Bloom filter never denies a stored key. */
  lemma NoFalseNegative(env: Platform, file: SstFile, entries: Run, chunks: seq<Run>, key: Key)
    requires Holds(env, file, entries, chunks) && FindRow(entries, key).Some?
    ensures MayContain(env, file.footer, key)
  {
    var i := FoundAt(entries, key);
    assert B.Holds(env, file.footer.bloomBits, file.footer.bloomM, entries[i].key, B.HASHES);
    assert chunks != [];
  }

  lemma {:induction false} FoundAt(rows: Run, key: Key) returns (i: nat)
    requires FindRow(rows, key).Some?
    ensures i < |rows| && rows[i].key == key && rows[i].value == FindRow(rows, key).value
  {
    if rows[0].key == key {
      i := 0;
    } else {
      i := FoundAt(rows[1..], key);
      i := i + 1;
    }
  }

  /** Every key of a clean file, present, deleted or absent, is answered as in the table the file was built from. */
  lemma CleanRoundTrip(env: Platform, file: SstFile, entries: Run, chunks: seq<Run>, key: Key)
    requires Holds(env, file, entries, chunks) && Sorted(entries) && AllClean(env, entries)
    ensures Get(env, file, key) == Ok(if key in AsMap(entries) then Some(AsMap(entries)[key]) else None)
  {
    hide Holds, AllClean, MayContain, GetFrom, AsMap;
    GetFromClean(env, file, entries, chunks, 0, key);
    assert chunks[0..] == chunks;
    assert Concat(chunks) == entries by {
      ConcatIs(env, file, entries, chunks);
    }
    AsMapLists(entries);
    FindIsLookup(entries, AsMap(entries), key);
    if FindRow(entries, key).Some? {
      NoFalseNegative(env, file, entries, chunks, key);
    }
  }

  lemma ConcatIs(env: Platform, file: SstFile, entries: Run, chunks: seq<Run>)
    requires Holds(env, file, entries, chunks)
    ensures Concat(chunks) == entries
  {
  }

  // ---------------------------------------------------------------------------
  // Exactly when a file answers as its table
  // ---------------------------------------------------------------------------

  /** A value whose length is the tombstone mark. */
  predicate Marked(row: Row<Slot>)
  {
    row.value.Some? && |row.value.value| == TOMBSTONE_VLEN
  }

  /** `rows[p]` is marked and everything before it is clean and has another key. */
  ghost predicate FirstMarked(env: Platform, rows: Run, p: nat)
  {
    && AllRepresentable(rows) && p < |rows| && Marked(rows[p]) && env.utf8(rows[p].key)
    && forall j :: 0 <= j < p ==> Clean(env, rows[j]) && rows[j].key != rows[p].key
  }

  lemma {:induction false} MarkedDecode(env: Platform, chunk: Run, p: nat)
    requires FirstMarked(env, chunk, p)
    ensures FindRow(DecodeRows(env, EncodeRows(chunk)).rows, chunk[p].key) == Some(None)
    decreases p
  {
    hide DecodeEntry, EncodeRow, RecordLen;
    var row, rest := chunk[0], EncodeRows(chunk[1..]);
    var b := EncodeRow(row) + rest;
    assert EncodeRows(chunk) == b;
    if p == 0 {
      MarkDecodesAsTombstone(env, row, rest);
      assert DecodeRows(env, b).rows[0] == Row(row.key, None);
    } else {
      DecodeFront(env, row, rest);
      assert b[RecordLen(row)..] == rest;
      MarkedDecode(env, chunk[1..], p - 1);
      assert DecodeRows(env, b).rows[1..] == DecodeRows(env, rest).rows;
    }
  }

  lemma {:induction false} FoundIfThere(rows: Run, i: nat)
    requires i < |rows|
    ensures FindRow(rows, rows[i].key).Some?
  {
    if i > 0 && rows[0].key != rows[i].key {
      FoundIfThere(rows[1..], i - 1);
    }
  }

  lemma {:induction false} NotFoundIfAbsent(rows: Run, key: Key)
    requires forall i :: 0 <= i < |rows| ==> rows[i].key != key
    ensures FindRow(rows, key).None?
  {
    if rows != [] {
      NotFoundIfAbsent(rows[1..], key);
    }
  }

  /** The lookup of the first marked key reports a deletion. */
  lemma {:induction false} MarkedGet(env: Platform, file: SstFile, entries: Run, chunks: seq<Run>, i: nat, p: nat, key: Key)
    requires Holds(env, file, entries, chunks) && Sorted(entries) && i <= |chunks|
    requires FirstMarked(env, Concat(chunks[i..]), p)
    requires p < |Concat(chunks[i..])| && key == Concat(chunks[i..])[p].key
    ensures GetFrom(env, file, i, key) == Ok(Some(None))
    decreases |chunks| - i
  {
    hide DecodeRows, EncodeRows, GetFrom, FindRow, Sorted, FirstMarked, AllClean, IndexOf, Blocks, B.Holds;
    var chunk, rest := chunks[i], Concat(chunks[i + 1..]);
    assert chunks[i..][0] == chunk && chunks[i..][1..] == chunks[i + 1..];
    FirstMarkedSplit(env, chunk, rest, p);
    GetStep(env, file, entries, chunks, i, key, DecodeRows(env, EncodeRows(chunk)));
    if p < |chunk| {
      MarkedDecode(env, chunk, p);
      FoundIfThere(chunk, p);
    } else {
      RunRoundTrip(env, chunk);
      NotFoundIfAbsent(chunk, key);
      MarkedGet(env, file, entries, chunks, i + 1, p - |chunk|, key);
    }
  }

  lemma FirstMarkedSplit(env: Platform, chunk: Run, rest: Run, p: nat)
    requires FirstMarked(env, chunk + rest, p)
    ensures p < |chunk| ==> FirstMarked(env, chunk, p)
    ensures p >= |chunk| ==> AllClean(env, chunk) && FirstMarked(env, rest, p - |chunk|) && p - |chunk| < |rest|
    ensures p >= |chunk| ==> forall j :: 0 <= j < |chunk| ==> chunk[j].key != (chunk + rest)[p].key
  {
    hide Clean, Representable;
    var rows := chunk + rest;
    assert forall j :: 0 <= j < |chunk| ==> chunk[j] == rows[j];
    forall j | 0 <= j < |rest|
      ensures rest[j] == rows[|chunk| + j]
    {
    }
    if p >= |chunk| {
      forall j | 0 <= j < |rest|
        ensures Representable(rest[j])
        ensures j < p - |chunk| ==> Clean(env, rest[j]) && rest[j].key != rows[p].key
      {
        assert rest[j] == rows[|chunk| + j];
      }
    }
  }

  lemma {:induction false} FirstMarkedExists(env: Platform, rows: Run, n: nat) returns (p: nat)
    requires Sorted(rows) && AllRepresentable(rows) && n < |rows| && Marked(rows[n])
    requires forall i :: 0 <= i < |rows| ==> env.utf8(rows[i].key)
    ensures FirstMarked(env, rows, p)
  {
    if j :| 0 <= j < n && Marked(rows[j]) {
      p := FirstMarkedExists(env, rows, j);
    } else {
      p := n;
      StrictTotalOrder();
    }
  }

  /**
   Building and reading back preserves every answer if and only if no value has the length
   of the tombstone mark.
   */
  lemma SstRoundTrip(env: Platform, file: SstFile, entries: Run, chunks: seq<Run>)
    requires Holds(env, file, entries, chunks) && Sorted(entries) && AllRepresentable(entries)
    requires forall i :: 0 <= i < |entries| ==> env.utf8(entries[i].key)
    ensures (forall key :: Get(env, file, key) == Ok(if key in AsMap(entries) then Some(AsMap(entries)[key]) else None))
            <==> (forall i :: 0 <= i < |entries| ==> !Marked(entries[i]))
  {
    hide Get, AsMap, Holds, GetFrom, Sorted;
    if n :| 0 <= n < |entries| && Marked(entries[n]) {
      var p := FirstMarkedExists(env, entries, n);
      var key := entries[p].key;
      ConcatIs(env, file, entries, chunks);
      assert chunks[0..] == chunks;
      MarkedGet(env, file, entries, chunks, 0, p, key);
      FoundIfThere(entries, p);
      NoFalseNegative(env, file, entries, chunks, key);
      GetIs(env, file, key);
      AsMapLists(entries);
      assert Get(env, file, key) == Ok(Some(None));
      assert AsMap(entries)[key] == entries[p].value;
    } else {
      assert AllClean(env, entries);
      forall key
        ensures Get(env, file, key) == Ok(if key in AsMap(entries) then Some(AsMap(entries)[key]) else None)
      {
        CleanRoundTrip(env, file, entries, chunks, key);
      }
    }
  }

  lemma GetIs(env: Platform, file: SstFile, key: Key)
    requires MayContain(env, file.footer, key)
    ensures Get(env, file, key) == GetFrom(env, file, 0, key)
  {
  }
}

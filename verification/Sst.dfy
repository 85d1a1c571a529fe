/**
 SST files (`src/store/lsm/sst.rs`): building one from a sorted table. The JSON footer is
 carried as a value next to the block bytes.
 */
module Sst {
  import opened Keys
  import opened Wrappers
  import opened Rows
  import opened Merge
  import opened Codec
  import opened Wal
  import B = Bloom

  datatype BlockMeta = BlockMeta(minKey: Key, maxKey: Key, offset: nat, len: nat, crc: nat)

  datatype Footer = Footer(index: seq<BlockMeta>, bloomBits: seq<bv8>, bloomK: nat, bloomM: nat)

  /** Block bytes and footer. */
  datatype SstFile = SstFile(data: Bytes, footer: Footer)

  // ---------------------------------------------------------------------------
  // The shape of a built file
  // ---------------------------------------------------------------------------

  ghost predicate AllRepresentable(rows: Run)
  {
    forall i :: 0 <= i < |rows| ==> Representable(rows[i])
  }

  ghost predicate GoodChunks(chunks: seq<Run>)
  {
    forall i :: 0 <= i < |chunks| ==> chunks[i] != [] && AllRepresentable(chunks[i])
  }

  ghost function Concat(chunks: seq<Run>): (rows: Run)
  {
    if chunks == [] then [] else chunks[0] + Concat(chunks[1..])
  }

  ghost function Blocks(chunks: seq<Run>): (b: Bytes)
    requires GoodChunks(chunks)
  {
    if chunks == [] then [] else EncodeRows(chunks[0]) + Blocks(chunks[1..])
  }

  ghost function MetaOf(env: Platform, chunk: Run, offset: nat): (m: BlockMeta)
    requires chunk != [] && AllRepresentable(chunk)
  {
    var b := EncodeRows(chunk);
    BlockMeta(chunk[0].key, chunk[|chunk| - 1].key, offset, |b|, env.crc(b))
  }

  /** The index entries of `chunks`, laid out from `offset` on. */
  ghost function IndexOf(env: Platform, chunks: seq<Run>, offset: nat): (index: seq<BlockMeta>)
    requires GoodChunks(chunks)
    ensures |index| == |chunks|
  {
    if chunks == [] then [] else
      [MetaOf(env, chunks[0], offset)] + IndexOf(env, chunks[1..], offset + |EncodeRows(chunks[0])|)
  }

  function BlockCap(blockSize: nat): (n: nat)
  {
    if blockSize > 64 then blockSize else 64
  }

  /**
   A block fits the block size, of which there are at least 64 bytes, or holds a single
   record; and the first record of the next block would not have fitted.
   */
  ghost predicate Packed(chunks: seq<Run>, blockSize: nat)
    requires GoodChunks(chunks)
  {
    && (forall i :: 0 <= i < |chunks| ==>
          |EncodeRows(chunks[i])| <= 64 || |EncodeRows(chunks[i])| <= blockSize || |chunks[i]| == 1)
    && (forall i, j :: 0 <= i && j == i + 1 < |chunks| ==>
          && |EncodeRows(chunks[i])| + |EncodeRow(chunks[j][0])| > blockSize
          && |EncodeRows(chunks[i])| + |EncodeRow(chunks[j][0])| > 64)
  }

  /** `file` holds `entries`, cut into `chunks`. */
  ghost predicate Holds(env: Platform, file: SstFile, entries: Run, chunks: seq<Run>)
  {
    && GoodChunks(chunks) && Concat(chunks) == entries
    && file.data == Blocks(chunks)
    && file.footer.index == IndexOf(env, chunks, 0)
    && file.footer.bloomK == B.HASHES && 0 < file.footer.bloomM <= 8 * |file.footer.bloomBits|
    && forall i :: 0 <= i < |entries| ==>
         B.Holds(env, file.footer.bloomBits, file.footer.bloomM, entries[i].key, B.HASHES)
  }

  // ---------------------------------------------------------------------------
  // Appending a block
  // ---------------------------------------------------------------------------

  lemma {:induction false} ConcatSnoc(chunks: seq<Run>, chunk: Run)
    ensures Concat(chunks + [chunk]) == Concat(chunks) + chunk
  {
    if chunks == [] {
      assert chunks + [chunk] == [chunk];
    } else {
      ConcatSnoc(chunks[1..], chunk);
      assert (chunks + [chunk])[1..] == chunks[1..] + [chunk];
    }
  }

  lemma {:induction false} BlocksSnoc(env: Platform, chunks: seq<Run>, chunk: Run, offset: nat)
    requires GoodChunks(chunks) && chunk != [] && AllRepresentable(chunk)
    ensures GoodChunks(chunks + [chunk])
    ensures Blocks(chunks + [chunk]) == Blocks(chunks) + EncodeRows(chunk)
    ensures IndexOf(env, chunks + [chunk], offset) ==
            IndexOf(env, chunks, offset) + [MetaOf(env, chunk, offset + |Blocks(chunks)|)]
  {
    hide EncodeRows, MetaOf;
    var all := chunks + [chunk];
    if chunks == [] {
      assert all == [chunk] && all[1..] == [];
    } else {
      BlocksSnoc(env, chunks[1..], chunk, offset + |EncodeRows(chunks[0])|);
      assert all[1..] == chunks[1..] + [chunk];
    }
  }

  /** The build loop: `rows` so far are the closed `chunks` and the `open` block, whose bytes and key range are current. */
  ghost predicate Building(env: Platform, blockSize: nat, rows: Run, chunks: seq<Run>, open: Run,
                           blocks: Bytes, index: seq<BlockMeta>, cur: Bytes, min: Key, max: Key)
  {
    && GoodChunks(chunks) && Packed(chunks, blockSize) && AllRepresentable(open)
    && Concat(chunks) + open == rows
    && blocks == Blocks(chunks) && index == IndexOf(env, chunks, 0)
    && cur == EncodeRows(open) && (cur == [] <==> open == [])
    && (open != [] ==> min == open[0].key && max == open[|open| - 1].key)
    && (|cur| <= BlockCap(blockSize) || |open| <= 1)
    && (open != [] && chunks != [] ==>
          |EncodeRows(chunks[|chunks| - 1])| + |EncodeRow(open[0])| > BlockCap(blockSize))
  }

  lemma NothingBuilt(env: Platform, blockSize: nat)
    ensures Building(env, blockSize, [], [], [], [], [], [], [], [])
  {
  }

  lemma CloseBlock(env: Platform, blockSize: nat, rows: Run, chunks: seq<Run>, open: Run,
                   blocks: Bytes, index: seq<BlockMeta>, cur: Bytes, min: Key, max: Key)
    requires Building(env, blockSize, rows, chunks, open, blocks, index, cur, min, max) && cur != []
    ensures var meta := BlockMeta(min, max, |blocks|, |cur|, env.crc(cur));
            Building(env, blockSize, rows, chunks + [open], [], blocks + cur, index + [meta], [], min, max)
    ensures AllRepresentable(open) && EncodeRows(open) == cur
  {
    hide Concat, Blocks, IndexOf, EncodeRows;
    BlocksSnoc(env, chunks, open, 0);
    ConcatSnoc(chunks, open);
    assert Concat(chunks + [open]) + [] == rows;
    NoRows();
  }

  lemma NoRows()
    ensures EncodeRows([]) == []
  {
  }

  lemma AddRecord(env: Platform, blockSize: nat, rows: Run, chunks: seq<Run>, open: Run,
                  blocks: Bytes, index: seq<BlockMeta>, cur: Bytes, min: Key, max: Key, row: Row<Slot>)
    requires Building(env, blockSize, rows, chunks, open, blocks, index, cur, min, max) && Representable(row)
    requires cur == [] || |cur| + RecordLen(row) <= BlockCap(blockSize)
    requires cur == [] && chunks != [] ==> |EncodeRows(chunks[|chunks| - 1])| + RecordLen(row) > BlockCap(blockSize)
    ensures Building(env, blockSize, rows + [row], chunks, open + [row], blocks, index, cur + EncodeRow(row),
                     if cur == [] then row.key else min, row.key)
  {
    hide Concat, Blocks, IndexOf, EncodeRows, EncodeRow;
    EncodeSnoc(open, row);
    assert Concat(chunks) + (open + [row]) == rows + [row];
  }

  // ---------------------------------------------------------------------------
  // The builder
  // ---------------------------------------------------------------------------

  method BuildSst(env: Platform, entries: Run, blockSize: nat)
    returns (r: Result<SstFile, StoreError>, ghost chunks: seq<Run>)
    ensures r.Ok? <==> AllRepresentable(entries)
    ensures r.Ok? ==> Holds(env, r.value, entries, chunks) && Packed(chunks, blockSize)
    ensures r.Ok? ==>
              var f := r.value.footer;
              && f.bloomM == 10 * (if entries == [] then 1 else |entries|) && f.bloomK == 3
              && forall bit :: B.BitSet(f.bloomBits, bit) <==> B.NamedByAny(env, KeysOf(entries), f.bloomM, |entries|, bit)
    ensures r.Err? ==> exists i: nat :: FirstUnfit(entries, i) && r.error == UnfitError(entries[i])
    ensures r.Err? ==>
              forall i: nat :: FirstUnfit(entries, i) ==>
                r.error == if |entries[i].key| > 0xffff_ffff then KeyTooLong else ValueTooLong
  {
    hide Building, EncodeRow, B.Holds, Holds, B.BitSet, B.NamedByAny;
    var cap := BlockCap(blockSize);
    var keys := KeysOf(entries);
    var bits, m := B.BuildBloom(env, keys);
    var blocks: Bytes, index: seq<BlockMeta>, cur: Bytes := [], [], [];
    var min: Key, max: Key, offset := [], [], 0;
    chunks := [];
    ghost var open: Run := [];
    NothingBuilt(env, blockSize);
    for i := 0 to |entries|
      invariant forall j :: 0 <= j < i ==> Representable(entries[j])
      invariant Building(env, blockSize, entries[..i], chunks, open, blocks, index, cur, min, max)
      invariant offset == |blocks| && (cur == [] ==> chunks == [])
    {
      var row := entries[i];
      var len := RecordLen(row);
      ghost var last := open;
      if cur != [] && |cur| + len > cap {
        var meta := BlockMeta(min, max, offset, |cur|, env.crc(cur));
        CloseBlock(env, blockSize, entries[..i], chunks, open, blocks, index, cur, min, max);
        offset := offset + |cur|;
        index, blocks, cur := index + [meta], blocks + cur, [];
        chunks, open := chunks + [open], [];
      }
      if |row.key| > U32_MAX {
        assert FirstUnfit(entries, i);
        return Err(KeyTooLong), chunks;
      }
      if row.value.Some? && |row.value.value| > U32_MAX {
        assert FirstUnfit(entries, i);
        return Err(ValueTooLong), chunks;
      }
      assert cur == [] && chunks != [] ==> chunks[|chunks| - 1] == last;
      AddRecord(env, blockSize, entries[..i], chunks, open, blocks, index, cur, min, max, row);
      assert entries[..i] + [row] == entries[..i + 1];
      if cur == [] {
        min := row.key;
      }
      max := row.key;
      cur, open := cur + EncodeRow(row), open + [row];
    }
    assert entries[..|entries|] == entries;
    if cur != [] {
      var meta := BlockMeta(min, max, offset, |cur|, env.crc(cur));
      CloseBlock(env, blockSize, entries, chunks, open, blocks, index, cur, min, max);
      index, blocks, cur, chunks, open := index + [meta], blocks + cur, [], chunks + [open], [];
    }
    Built(env, blockSize, entries, keys, chunks, open, blocks, index, min, max, bits, m);
    r := Ok(SstFile(blocks, Footer(index, bits, B.HASHES, m)));
  }

  lemma Built(env: Platform, blockSize: nat, entries: Run, keys: seq<Key>, chunks: seq<Run>, open: Run,
              blocks: Bytes, index: seq<BlockMeta>, min: Key, max: Key, bits: seq<bv8>, m: nat)
    requires Building(env, blockSize, entries, chunks, open, blocks, index, [], min, max)
    requires |keys| == |entries| && forall i :: 0 <= i < |keys| ==> keys[i] == entries[i].key
    requires 0 < m <= 8 * |bits| && forall i :: 0 <= i < |keys| ==> B.Holds(env, bits, m, keys[i], B.HASHES)
    ensures Holds(env, SstFile(blocks, Footer(index, bits, B.HASHES, m)), entries, chunks) && Packed(chunks, blockSize)
  {
    hide Concat, Blocks, IndexOf, EncodeRows, B.Holds;
    forall i | 0 <= i < |entries|
      ensures B.Holds(env, bits, m, entries[i].key, B.HASHES)
    {
      assert keys[i] == entries[i].key;
    }
  }

  function KeysOf(rows: Run): (keys: seq<Key>)
    ensures |keys| == |rows| && forall i :: 0 <= i < |keys| ==> keys[i] == rows[i].key
  {
    if rows == [] then [] else [rows[0].key] + KeysOf(rows[1..])
  }
}

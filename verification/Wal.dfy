/**
 WAL payloads: `encode_ops` (`src/store/lsm/store.rs`) and `decode_wal_records`
 (`src/store/lsm/wal.rs`).
 */
module Wal {
  import opened Keys
  import opened Wrappers
  import opened Rows
  import opened Merge
  import opened Codec

  lemma {:induction false} EncodeSnoc(rows: Run, row: Row<Slot>)
    requires (forall i :: 0 <= i < |rows| ==> Representable(rows[i])) && Representable(row)
    ensures forall i :: 0 <= i < |rows + [row]| ==> Representable((rows + [row])[i])
    ensures EncodeRows(rows + [row]) == EncodeRows(rows) + EncodeRow(row)
  {
    hide EncodeRow, Representable;
    if rows == [] {
      assert rows + [row] == [row] && [row][1..] == [];
    } else {
      EncodeSnoc(rows[1..], row);
      assert (rows + [row])[1..] == rows[1..] + [row];
    }
  }

  /** Frames a batch; the first length that does not fit a word is reported. */
  method EncodeOps(ops: Run) returns (r: Result<Bytes, StoreError>)
    ensures r.Ok? <==> forall i :: 0 <= i < |ops| ==> Representable(ops[i])
    ensures r.Ok? ==> r.value == EncodeRows(ops)
    ensures r.Err? ==> exists i: nat :: FirstUnfit(ops, i) && r.error == UnfitError(ops[i])
    ensures r.Err? ==>
              forall i: nat :: FirstUnfit(ops, i) ==> r.error == if |ops[i].key| > 0xffff_ffff then KeyTooLong else ValueTooLong
  {
    hide EncodeRow;
    var buf: Bytes := [];
    for i := 0 to |ops|
      invariant forall j :: 0 <= j < i ==> Representable(ops[j])
      invariant buf == EncodeRows(ops[..i])
    {
      var op := ops[i];
      if |op.key| > U32_MAX {
        assert FirstUnfit(ops, i);
        return Err(KeyTooLong);
      }
      if op.value.Some? && |op.value.value| > U32_MAX {
        assert FirstUnfit(ops, i);
        return Err(ValueTooLong);
      }
      EncodeSnoc(ops[..i], op);
      assert ops[..i] + [op] == ops[..i + 1];
      buf := buf + EncodeRow(op);
    }
    assert ops[..|ops|] == ops;
    return Ok(buf);
  }

  /** Decodes until the first truncated tail or invalid key; nothing is reported either way. */
  method DecodeWalRecords(env: Platform, data: Bytes) returns (records: Run)
    ensures records == DecodeRows(env, data).rows
  {
    hide DecodeRows, ReadU32;
    records := [];
    var pos := 0;
    assert data[0..] == data;
    while pos + 4 <= |data|
      invariant pos <= |data|
      invariant records + DecodeRows(env, data[pos..]).rows == DecodeRows(env, data).rows
      decreases |data| - pos
    {
      DecodeStep(env, data, pos);
      var klen := ReadU32(data, pos);
      if pos + 4 + klen + 4 > |data| {
        return;
      }
      var key := data[pos + 4..pos + 4 + klen];
      if !env.utf8(key) {
        return;
      }
      var start := pos + 4 + klen;
      var vlen := ReadU32(data, start);
      if vlen == TOMBSTONE_VLEN {
        records := records + [Row(key, None)];
        pos := start + 4;
      } else {
        if start + 4 + vlen > |data| {
          return;
        }
        records := records + [Row(key, Some(data[start + 4..start + 4 + vlen]))];
        pos := start + 4 + vlen;
      }
    }
    DecodeStep(env, data, pos);
  }

  /** Unfolds the decoding of the bytes from `pos` by one record. */
  lemma DecodeStep(env: Platform, data: Bytes, pos: nat)
    requires pos <= |data|
    ensures var d, p := DecodeEntry(env, data, pos), DecodeRows(env, data[pos..]);
            if d.Entry? then
              p == Parse([d.row] + DecodeRows(env, data[d.next..]).rows, DecodeRows(env, data[d.next..]).bad)
            else
              p == Parse([], d.BadKey?)
  {
    hide DecodeEntry;
    DecodeShift(env, data, pos);
    var e := DecodeEntry(env, data[pos..], 0);
    if e.Entry? {
      assert data[pos..][e.next..] == data[pos + e.next..];
    }
  }

  // ---------------------------------------------------------------------------
  // The value length that cannot be written
  // ---------------------------------------------------------------------------

  /** A value exactly as long as the tombstone mark decodes as a deletion. */
  lemma MarkDecodesAsTombstone(env: Platform, row: Row<Slot>, tail: Bytes)
    requires Representable(row) && env.utf8(row.key) && row.value.Some? && |row.value.value| == TOMBSTONE_VLEN
    ensures DecodeEntry(env, EncodeRow(row) + tail, 0) == Entry(Row(row.key, None), 8 + |row.key|)
  {
    var b, k := EncodeRow(row) + tail, |row.key|;
    assert b[0..4] == U32Le(k);
    ReadAt(b, 0, k);
    assert b[4..4 + k] == row.key;
    assert b[4 + k..8 + k] == U32Le(TOMBSTONE_VLEN);
    ReadAt(b, 4 + k, TOMBSTONE_VLEN);
  }

  /** An accepted batch of valid keys replays as itself exactly when no value has the length of the mark. */
  lemma {:induction false} BatchRoundTrip(env: Platform, ops: Run)
    requires forall i :: 0 <= i < |ops| ==> Representable(ops[i]) && env.utf8(ops[i].key)
    ensures DecodeRows(env, EncodeRows(ops)).rows == ops <==>
            forall i :: 0 <= i < |ops| && ops[i].value.Some? ==> |ops[i].value.value| != TOMBSTONE_VLEN
    decreases |ops|
  {
    hide DecodeEntry, EncodeRow;
    if ops == [] {
      DecodeNothing(env);
    } else {
      var row, rest := ops[0], EncodeRows(ops[1..]);
      var b := EncodeRow(row) + rest;
      if row.value.Some? && |row.value.value| == TOMBSTONE_VLEN {
        MarkDecodesAsTombstone(env, row, rest);
        assert DecodeRows(env, b).rows[0] == Row(row.key, None);
      } else {
        DecodeFront(env, row, rest);
        assert b[RecordLen(row)..] == rest;
        BatchRoundTrip(env, ops[1..]);
        assert ops == [row] + ops[1..];
        assert DecodeRows(env, b).rows == [row] + DecodeRows(env, rest).rows;
      }
    }
  }
}

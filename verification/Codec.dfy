/**
 The length-prefixed record frame shared by SST blocks, WAL files and snapshots:
 `[u32 key length][key][u32 value length][value]`, little endian, where a value length of
 `u32::MAX` marks a tombstone in SSTs and WALs.
 */
module Codec {
  import opened Keys
  import opened Wrappers
  import opened Rows
  import opened Merge

  const TOMBSTONE_VLEN: nat := U32_MAX

  /** What the code takes from other libraries: UTF-8 validation, CRC32 and the Bloom hash. */
  datatype Platform = Platform(utf8: Bytes -> bool, crc: Bytes -> nat, hash: (Key, nat) -> nat)

  // ---------------------------------------------------------------------------
  // Little-endian words
  // ---------------------------------------------------------------------------

  function U32Le(n: nat): (b: Bytes)
    requires n <= U32_MAX
    ensures |b| == 4
  {
    [n % 256, n / 256 % 256, n / 65536 % 256, n / 16777216]
  }

  /** Four bytes at `pos` read as a little-endian word. */
  function ReadU32(b: Bytes, pos: nat): (n: nat)
    requires pos + 4 <= |b|
    ensures n <= U32_MAX
  {
    var b0: int, b1: int, b2: int, b3: int := b[pos], b[pos + 1], b[pos + 2], b[pos + 3];
    b0 + 256 * b1 + 65536 * b2 + 16777216 * b3
  }

  lemma WordRoundTrip(n: nat)
    requires n <= U32_MAX
    ensures ReadU32(U32Le(n), 0) == n
  {
    var a, b := n / 256, n / 65536;
    assert n == 256 * a + n % 256;
    assert b == a / 256 && a == 256 * b + a % 256;
    assert n / 16777216 == b / 256 && b == 256 * (b / 256) + b % 256;
  }

  lemma ReadAt(b: Bytes, pos: nat, n: nat)
    requires pos + 4 <= |b| && n <= U32_MAX && b[pos..pos + 4] == U32Le(n)
    ensures ReadU32(b, pos) == n
  {
    WordRoundTrip(n);
    assert b[pos] == U32Le(n)[0] && b[pos + 1] == U32Le(n)[1] && b[pos + 2] == U32Le(n)[2] && b[pos + 3] == U32Le(n)[3];
  }

  /** The number four bytes spell, least significant first. */
  function Word(b0: int, b1: int, b2: int, b3: int): (n: int)
  {
    b0 + 0x100 * b1 + 0x1_0000 * b2 + 0x100_0000 * b3
  }

  lemma WordIsLittleEndian(n: nat, b: Bytes, pos: nat)
    requires n <= 0xffff_ffff
    ensures var w := U32Le(n); Word(w[0], w[1], w[2], w[3]) == n
    ensures pos + 4 <= |b| ==> ReadU32(b, pos) == Word(b[pos], b[pos + 1], b[pos + 2], b[pos + 3])
  {
    WordRoundTrip(n);
  }

  // ---------------------------------------------------------------------------
  // Records
  // ---------------------------------------------------------------------------

  /** Lengths that fit their word; `u32::try_from` rejects the others. */
  predicate Representable(row: Row<Slot>)
  {
    |row.key| <= U32_MAX && (row.value.Some? ==> |row.value.value| <= U32_MAX)
  }

  /** The first row a length of which does not fit, and what is reported of it: the key before the value. */
  ghost predicate FirstUnfit(rows: Run, i: nat)
  {
    i < |rows| && !Representable(rows[i]) && forall j :: 0 <= j < i ==> Representable(rows[j])
  }

  function UnfitError(row: Row<Slot>): (e: StoreError)
  {
    if |row.key| > U32_MAX then KeyTooLong else ValueTooLong
  }

  /** Rows that decode to themselves: valid keys, and no value as long as the tombstone mark. */
  ghost predicate Clean(env: Platform, row: Row<Slot>)
  {
    Representable(row) && env.utf8(row.key) && (row.value.Some? ==> |row.value.value| != TOMBSTONE_VLEN)
  }

  ghost predicate AllClean(env: Platform, rows: Run)
  {
    forall i :: 0 <= i < |rows| ==> Clean(env, rows[i])
  }

  function EncodeTail(slot: Slot): (b: Bytes)
    requires slot.Some? ==> |slot.value| <= U32_MAX
  {
    if slot.Some? then U32Le(|slot.value|) + slot.value else U32Le(TOMBSTONE_VLEN)
  }

  function EncodeRow(row: Row<Slot>): (b: Bytes)
    requires Representable(row)
    ensures |b| == RecordLen(row)
  {
    U32Le(|row.key|) + row.key + EncodeTail(row.value)
  }

  function RecordLen(row: Row<Slot>): (n: nat)
  {
    4 + |row.key| + 4 + if row.value.Some? then |row.value.value| else 0
  }

  function EncodeRows(rows: Run): (b: Bytes)
    requires forall i :: 0 <= i < |rows| ==> Representable(rows[i])
  {
    if rows == [] then [] else EncodeRow(rows[0]) + EncodeRows(rows[1..])
  }

  /** The frame byte by byte: both lengths little endian, and four bytes of 255 for a tombstone. */
  lemma FrameIs(row: Row<Slot>)
    requires Representable(row)
    ensures var b, k := EncodeRow(row), |row.key|;
            && |b| == 8 + k + (if row.value.Some? then |row.value.value| else 0)
            && Word(b[0], b[1], b[2], b[3]) == k && b[4..4 + k] == row.key
            && (row.value.Some? ==>
                  Word(b[4 + k], b[5 + k], b[6 + k], b[7 + k]) == |row.value.value| && b[8 + k..] == row.value.value)
            && (row.value.None? ==> b[4 + k..] == [255, 255, 255, 255])
  {
    var b, k := EncodeRow(row), |row.key|;
    var v := if row.value.Some? then |row.value.value| else TOMBSTONE_VLEN;
    hide U32Le;
    WordIsLittleEndian(k, [], 0);
    WordIsLittleEndian(v, [], 0);
    FrameParts(row, U32Le(k), U32Le(v));
    MarkIs();
  }

  lemma MarkIs()
    ensures U32Le(TOMBSTONE_VLEN) == [255, 255, 255, 255]
  {
  }

  lemma FrameParts(row: Row<Slot>, x: Bytes, y: Bytes)
    requires |x| == 4 && |y| == 4
    ensures var b, k := x + row.key + (y + if row.value.Some? then row.value.value else []), |row.key|;
            && b[0] == x[0] && b[1] == x[1] && b[2] == x[2] && b[3] == x[3] && b[4..4 + k] == row.key
            && b[4 + k] == y[0] && b[5 + k] == y[1] && b[6 + k] == y[2] && b[7 + k] == y[3]
            && b[8 + k..] == (if row.value.Some? then row.value.value else [])
            && (row.value.None? ==> b[4 + k..] == y)
  {
    var k := |row.key|;
    var b := x + row.key + (y + if row.value.Some? then row.value.value else []);
    assert b[..4] == x && b[4..4 + k] == row.key;
  }

  datatype Decoded = Truncated | BadKey | Entry(row: Row<Slot>, next: nat)

  /** `decode_entry`: the record at `pos`, with the position after it. */
  function DecodeEntry(env: Platform, b: Bytes, pos: nat): (d: Decoded)
    ensures d.Entry? ==> pos + 8 <= d.next <= |b|
  {
    if pos + 4 > |b| then Truncated else
    var klen := ReadU32(b, pos);
    if pos + 4 + klen + 4 > |b| then Truncated else
    var key := b[pos + 4..pos + 4 + klen];
    if !env.utf8(key) then BadKey else
    var v := pos + 4 + klen;
    var vlen := ReadU32(b, v);
    if vlen == TOMBSTONE_VLEN then Entry(Row(key, None), v + 4) else
    if v + 4 + vlen > |b| then Truncated else
    Entry(Row(key, Some(b[v + 4..v + 4 + vlen])), v + 4 + vlen)
  }

  /** The record at `pos`, read field by field. */
  method ReadRecord(env: Platform, b: Bytes, pos: nat) returns (d: Decoded)
    ensures d == DecodeEntry(env, b, pos)
  {
    hide ReadU32;
    if pos + 4 > |b| {
      return Truncated;
    }
    var klen := ReadU32(b, pos);
    if pos + 4 + klen + 4 > |b| {
      return Truncated;
    }
    var key := b[pos + 4..pos + 4 + klen];
    if !env.utf8(key) {
      return BadKey;
    }
    var v := pos + 4 + klen;
    var vlen := ReadU32(b, v);
    if vlen == TOMBSTONE_VLEN {
      return Entry(Row(key, None), v + 4);
    }
    if v + 4 + vlen > |b| {
      return Truncated;
    }
    return Entry(Row(key, Some(b[v + 4..v + 4 + vlen])), v + 4 + vlen);
  }

  /** Decoding at `pos` sees only the bytes from `pos` on. */
  lemma DecodeShift(env: Platform, b: Bytes, pos: nat)
    requires pos <= |b|
    ensures var d, e := DecodeEntry(env, b, pos), DecodeEntry(env, b[pos..], 0);
            match e
            case Entry(row, next) => d == Entry(row, pos + next)
            case _ => d == e
  {
    var c := b[pos..];
    if 4 <= |c| {
      assert ReadU32(c, 0) == ReadU32(b, pos);
      var klen := ReadU32(b, pos);
      if 4 + klen + 4 <= |c| {
        assert c[4..4 + klen] == b[pos + 4..pos + 4 + klen];
        assert ReadU32(c, 4 + klen) == ReadU32(b, pos + 4 + klen);
        var vlen := ReadU32(c, 4 + klen);
        if 8 + klen + vlen <= |c| {
          assert c[8 + klen..8 + klen + vlen] == b[pos + 8 + klen..pos + 8 + klen + vlen];
        }
      }
    }
  }

  /** A clean record at the front of any byte string decodes to itself. */
  lemma DecodeFront(env: Platform, row: Row<Slot>, tail: Bytes)
    requires Clean(env, row)
    ensures DecodeEntry(env, EncodeRow(row) + tail, 0) == Entry(row, RecordLen(row))
  {
    var b, k := EncodeRow(row) + tail, |row.key|;
    assert b[0..4] == U32Le(k);
    ReadAt(b, 0, k);
    assert b[4..4 + k] == row.key;
    var vlen := if row.value.Some? then |row.value.value| else TOMBSTONE_VLEN;
    assert b[4 + k..8 + k] == U32Le(vlen);
    ReadAt(b, 4 + k, vlen);
    if row.value.Some? {
      assert b[8 + k..8 + k + vlen] == row.value.value;
    }
  }

  /** A record whose key is not valid text is reported, whatever follows. */
  lemma DecodeBad(env: Platform, row: Row<Slot>, tail: Bytes)
    requires Representable(row) && !env.utf8(row.key)
    ensures DecodeEntry(env, EncodeRow(row) + tail, 0) == BadKey
  {
    var b, k := EncodeRow(row) + tail, |row.key|;
    assert b[0..4] == U32Le(k);
    ReadAt(b, 0, k);
    assert b[4..4 + k] == row.key;
  }

  /** A strict prefix of a clean record is recognized as truncated. */
  lemma DecodeTorn(env: Platform, row: Row<Slot>, n: nat)
    requires Clean(env, row) && n < RecordLen(row)
    ensures DecodeEntry(env, EncodeRow(row)[..n], 0) == Truncated
  {
    var b, full, k := EncodeRow(row)[..n], EncodeRow(row), |row.key|;
    if n >= 4 {
      assert b[0..4] == full[0..4] == U32Le(k);
      ReadAt(b, 0, k);
      if n >= 8 + k {
        assert b[4..4 + k] == full[4..4 + k] == row.key;
        assert b[4 + k..8 + k] == full[4 + k..8 + k] == U32Le(|row.value.value|);
        ReadAt(b, 4 + k, |row.value.value|);
      }
    }
  }

  // ---------------------------------------------------------------------------
  // Runs of records
  // ---------------------------------------------------------------------------

  /** The records that decode before truncation or an invalid key; `bad` tells which one it was. */
  datatype Parse = Parse(rows: Run, bad: bool)

  function DecodeRows(env: Platform, b: Bytes): (p: Parse)
    decreases |b|
  {
    match DecodeEntry(env, b, 0)
    case Truncated => Parse([], false)
    case BadKey => Parse([], true)
    case Entry(row, next) =>
      var rest := DecodeRows(env, b[next..]);
      Parse([row] + rest.rows, rest.bad)
  }

  /** The records of `rows` whose encoding lies wholly in the first `n` bytes. */
  function WhollyInside(rows: Run, n: nat): (r: Run)
  {
    if rows == [] || RecordLen(rows[0]) > n then [] else [rows[0]] + WhollyInside(rows[1..], n - RecordLen(rows[0]))
  }

  lemma DecodeNothing(env: Platform)
    ensures DecodeEntry(env, [], 0) == Truncated
  {
  }

  /** Decoding an encoded run cut at any byte returns exactly the records wholly before the cut. */
  lemma {:induction false} TornRunDecodes(env: Platform, rows: Run, n: nat)
    requires AllClean(env, rows) && n <= |EncodeRows(rows)|
    ensures DecodeRows(env, EncodeRows(rows)[..n]) == Parse(WhollyInside(rows, n), false)
    decreases |rows|
  {
    hide DecodeEntry, EncodeRow, RecordLen;
    if rows == [] {
      DecodeNothing(env);
    } else {
      var first, rest := EncodeRow(rows[0]), EncodeRows(rows[1..]);
      var b := (first + rest)[..n];
      if n < |first| {
        assert b == first[..n];
        DecodeTorn(env, rows[0], n);
      } else {
        assert b == first + rest[..n - |first|];
        DecodeFront(env, rows[0], rest[..n - |first|]);
        assert b[|first|..] == rest[..n - |first|];
        TornRunDecodes(env, rows[1..], n - |first|);
      }
    }
  }

  lemma {:induction false} AllInside(rows: Run, n: nat)
    requires (forall i :: 0 <= i < |rows| ==> Representable(rows[i])) && n >= |EncodeRows(rows)|
    ensures WhollyInside(rows, n) == rows
    decreases |rows|
  {
    if rows != [] {
      AllInside(rows[1..], n - RecordLen(rows[0]));
    }
  }

  /** Round trip: a clean run decodes to itself. */
  lemma RunRoundTrip(env: Platform, rows: Run)
    requires AllClean(env, rows)
    ensures DecodeRows(env, EncodeRows(rows)) == Parse(rows, false)
  {
    var b := EncodeRows(rows);
    assert b[..|b|] == b;
    TornRunDecodes(env, rows, |b|);
    AllInside(rows, |b|);
  }

  /** Decoding stops at the first record whose key is not valid text: the records before it, and the complaint. */
  lemma {:induction false} BadKeyStops(env: Platform, rows: Run, bad: Row<Slot>, tail: Bytes)
    requires AllClean(env, rows) && Representable(bad) && !env.utf8(bad.key)
    ensures DecodeRows(env, EncodeRows(rows) + (EncodeRow(bad) + tail)) == Parse(rows, true)
    decreases |rows|
  {
    hide DecodeEntry, EncodeRow;
    var rest := EncodeRow(bad) + tail;
    if rows == [] {
      assert EncodeRows(rows) + rest == rest;
      DecodeBad(env, bad, tail);
    } else {
      var first, more := EncodeRow(rows[0]), EncodeRows(rows[1..]) + rest;
      assert EncodeRows(rows) + rest == first + more;
      DecodeFront(env, rows[0], more);
      assert (first + more)[|first|..] == more;
      BadKeyStops(env, rows[1..], bad, tail);
    }
  }
}

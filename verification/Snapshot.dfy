/**
 Loading a snapshot from byte chunks: `RecordDecoder` and `load_stream` in
 `src/store/mod.rs`. The chunk source itself does not fail.
 */
module Snapshot {
  import opened Keys
  import opened Wrappers
  import opened Rows
  import opened Merge
  import opened Codec

  datatype LoadError = BadMagic | BadVersion(version: nat) | TruncatedHeader | InvalidKey | TruncatedRecord

  const MAGIC: Bytes := [79, 88, 75, 86]

  const VERSION: nat := 1

  const HEADER_LEN: nat := 8

  function Header(): (b: Bytes)
    ensures |b| == HEADER_LEN
  {
    MAGIC + U32Le(VERSION)
  }

  /** "OXKV" and version 1. */
  lemma HeaderIs()
    ensures Header() == [79, 88, 75, 86, 1, 0, 0, 0]
  {
    assert U32Le(1) == [1, 0, 0, 0];
  }

  // ---------------------------------------------------------------------------
  // What a byte string means
  // ---------------------------------------------------------------------------

  datatype Front = More | Bad | Got(row: Row<Value>, len: nat)

  /** The record at the front; a key is validated only once the whole record has arrived. */
  function FirstRecord(env: Platform, b: Bytes): (f: Front)
    ensures f.Got? ==> 8 <= f.len <= |b|
  {
    if |b| < 4 then More else
    var klen := ReadU32(b, 0);
    if |b| < 4 + klen + 4 then More else
    var vlen := ReadU32(b, 4 + klen);
    if |b| < 8 + klen + vlen then More else
    var key := b[4..4 + klen];
    if !env.utf8(key) then Bad else Got(Row(key, b[8 + klen..8 + klen + vlen]), 8 + klen + vlen)
  }

  datatype Records = Records(rows: seq<Row<Value>>, tail: Bytes, bad: bool)

  /** Every complete record, up to the first invalid key. */
  function AllRecords(env: Platform, b: Bytes): (r: Records)
    decreases |b|
  {
    var f := FirstRecord(env, b);
    if f.Got? then
      var r := AllRecords(env, b[f.len..]);
      Records([f.row] + r.rows, r.tail, r.bad)
    else
      Records([], b, f.Bad?)
  }

  /** The records of a whole snapshot, or why it is rejected. */
  function ParseSnapshot(env: Platform, b: Bytes): (r: Result<seq<Row<Value>>, LoadError>)
  {
    if |b| >= 4 && b[..4] != MAGIC then Err(BadMagic)
    else if |b| < HEADER_LEN then Err(TruncatedHeader)
    else if ReadU32(b, 4) != VERSION then Err(BadVersion(ReadU32(b, 4)))
    else
      var rs := AllRecords(env, b[HEADER_LEN..]);
      if rs.bad then Err(InvalidKey) else if rs.tail != [] then Err(TruncatedRecord) else Ok(rs.rows)
  }

  lemma RecordsUnfold(env: Platform, b: Bytes)
    ensures var f := FirstRecord(env, b);
            AllRecords(env, b) ==
            if f.Got? then
              var r := AllRecords(env, b[f.len..]);
              Records([f.row] + r.rows, r.tail, r.bad)
            else
              Records([], b, f.Bad?)
  {
  }

  lemma FrontGrows(env: Platform, b: Bytes, c: Bytes)
    requires !FirstRecord(env, b).More?
    ensures FirstRecord(env, b + c) == FirstRecord(env, b)
  {
    var klen := ReadU32(b, 0);
    assert ReadU32(b + c, 0) == klen;
    assert (b + c)[4..4 + klen] == b[4..4 + klen];
    var vlen := ReadU32(b, 4 + klen);
    assert ReadU32(b + c, 4 + klen) == vlen;
    assert (b + c)[8 + klen..8 + klen + vlen] == b[8 + klen..8 + klen + vlen];
  }

  /** Appending bytes only continues from the undecoded tail. */
  lemma {:induction false} RecordsGrow(env: Platform, b: Bytes, c: Bytes)
    ensures var r, s := AllRecords(env, b), AllRecords(env, b + c);
            if r.bad then s.bad else
              var t := AllRecords(env, r.tail + c);
              s == Records(r.rows + t.rows, t.tail, t.bad)
    decreases |b|
  {
    hide FirstRecord, AllRecords;
    var f := FirstRecord(env, b);
    RecordsUnfold(env, b);
    if f.Got? {
      FrontGrows(env, b, c);
      assert (b + c)[f.len..] == b[f.len..] + c;
      RecordsUnfold(env, b + c);
      RecordsGrow(env, b[f.len..], c);
    } else if f.Bad? {
      FrontGrows(env, b, c);
      RecordsUnfold(env, b + c);
    } else {
      var t := AllRecords(env, b + c);
      assert [] + t.rows == t.rows;
    }
  }

  function Joined(chunks: seq<Bytes>): (b: Bytes)
  {
    if chunks == [] then [] else Joined(chunks[..|chunks| - 1]) + chunks[|chunks| - 1]
  }

  lemma {:induction false} JoinedPrefix(chunks: seq<Bytes>, i: nat)
    requires i <= |chunks|
    ensures Joined(chunks[..i]) <= Joined(chunks)
    decreases |chunks| - i
  {
    if i < |chunks| {
      assert chunks[..i + 1][..i] == chunks[..i];
      JoinedPrefix(chunks, i + 1);
    } else {
      assert chunks[..i] == chunks;
    }
  }

  // ---------------------------------------------------------------------------
  // The incremental decoder
  // ---------------------------------------------------------------------------

  class RecordDecoder {
    var buf: Bytes
    var pos: nat
    var headerValidated: bool

    ghost predicate Valid()
      reads this
    {
      pos <= |buf|
    }

    /** The bytes not decoded yet. */
    ghost function Suffix(): (b: Bytes)
      requires Valid()
      reads this
    {
      buf[pos..]
    }

    constructor ()
      ensures Valid() && Suffix() == [] && !headerValidated
    {
      buf, pos, headerValidated := [], 0, false;
    }

    method Push(chunk: Bytes)
      requires Valid()
      modifies this
      ensures Valid() && Suffix() == old(Suffix()) + chunk && headerValidated == old(headerValidated)
    {
      buf := buf + chunk;
    }

    method ValidateHeader() returns (r: Result<bool, LoadError>)
      requires Valid() && !headerValidated
      modifies this
      ensures Valid()
      ensures var b := old(Suffix());
              if |b| >= 4 && b[..4] != MAGIC then r == Err(BadMagic)
              else if |b| < HEADER_LEN then r == Ok(false) && Suffix() == b && !headerValidated
              else if ReadU32(b, 4) != VERSION then r == Err(BadVersion(ReadU32(b, 4)))
              else r == Ok(true) && Suffix() == b[HEADER_LEN..] && headerValidated
    {
      var avail := buf[pos..];
      if |avail| >= |MAGIC| && avail[..|MAGIC|] != MAGIC {
        return Err(BadMagic);
      }
      if |avail| < HEADER_LEN {
        return Ok(false);
      }
      var version := ReadU32(avail, |MAGIC|);
      if version != VERSION {
        return Err(BadVersion(version));
      }
      pos := pos + HEADER_LEN;
      headerValidated := true;
      return Ok(true);
    }

    method NextRecord(env: Platform) returns (r: Result<Option<Row<Value>>, LoadError>)
      requires Valid()
      modifies this
      ensures Valid() && headerValidated == old(headerValidated)
      ensures var b, f := old(Suffix()), FirstRecord(env, old(Suffix()));
              match f
              case More => r == Ok(None) && Suffix() == b
              case Bad => r == Err(InvalidKey)
              case Got(row, len) => r == Ok(Some(row)) && Suffix() == b[len..]
    {
      var avail := buf[pos..];
      if |avail| < 4 {
        return Ok(None);
      }
      var keyLen := ReadU32(avail, 0);
      if |avail| < 4 + keyLen {
        return Ok(None);
      }
      var start := 4 + keyLen;
      if |avail| < start + 4 {
        return Ok(None);
      }
      var valLen := ReadU32(avail, start);
      if |avail| < start + 4 + valLen {
        return Ok(None);
      }
      if !env.utf8(avail[4..start]) {
        return Err(InvalidKey);
      }
      var row := Row(avail[4..start], avail[start + 4..start + 4 + valLen]);
      pos := pos + start + 4 + valLen;
      return Ok(Some(row));
    }

    /** Drops consumed bytes; what stays is at most twice what is undecoded. */
    method Compact()
      requires Valid()
      modifies this
      ensures Valid() && Suffix() == old(Suffix()) && headerValidated == old(headerValidated)
      ensures |buf| <= 2 * |Suffix()|
    {
      if pos > 0 && pos * 2 >= |buf| {
        buf := buf[pos..];
        pos := 0;
      }
    }
  }

  /** Decodes every complete record in the decoder. */
  method DrainRecords(env: Platform, decoder: RecordDecoder) returns (rows: seq<Row<Value>>, bad: bool)
    requires decoder.Valid()
    modifies decoder
    ensures decoder.Valid() && decoder.headerValidated == old(decoder.headerValidated)
    ensures var r := AllRecords(env, old(decoder.Suffix()));
            bad == r.bad && (!bad ==> rows == r.rows && decoder.Suffix() == r.tail)
  {
    hide FirstRecord, AllRecords;
    rows, bad := [], false;
    ghost var all := AllRecords(env, decoder.Suffix());
    while true
      invariant decoder.Valid() && decoder.headerValidated == old(decoder.headerValidated)
      invariant var r := AllRecords(env, decoder.Suffix());
                all == Records(rows + r.rows, r.tail, r.bad)
      decreases |decoder.Suffix()|
    {
      RecordsUnfold(env, decoder.Suffix());
      var record := decoder.NextRecord(env);
      if record.Err? {
        bad := true;
        return;
      }
      if record.value.None? {
        return;
      }
      rows := rows + [record.value.value];
    }
  }

  /** How far a load has come after the bytes `b`. */
  ghost predicate Loaded(env: Platform, b: Bytes, suffix: Bytes, started: bool, rows: seq<Row<Value>>)
  {
    if started then
      && |b| >= HEADER_LEN && b[..4] == MAGIC && ReadU32(b, 4) == VERSION
      && AllRecords(env, b[HEADER_LEN..]) == Records(rows, suffix, false)
    else
      b == suffix && rows == [] && |b| < HEADER_LEN && (|b| >= 4 ==> b[..4] == MAGIC)
  }

  /**
   The load: for every way of cutting a byte string into chunks the outcome is the one of
   parsing the whole string.
   */
  method LoadStream(env: Platform, chunks: seq<Bytes>) returns (r: Result<seq<Row<Value>>, LoadError>)
    ensures r == ParseSnapshot(env, Joined(chunks))
  {
    hide AllRecords, FirstRecord;
    var decoder := new RecordDecoder();
    var rows: seq<Row<Value>> := [];
    for i := 0 to |chunks|
      invariant decoder.Valid() && fresh(decoder)
      invariant Loaded(env, Joined(chunks[..i]), decoder.Suffix(), decoder.headerValidated, rows)
    {
      ghost var before, suffix := Joined(chunks[..i]), decoder.Suffix();
      ghost var b := before + chunks[i];
      assert chunks[..i + 1][..i] == chunks[..i];
      JoinedPrefix(chunks, i + 1);
      decoder.Push(chunks[i]);
      if !decoder.headerValidated {
        var ready := decoder.ValidateHeader();
        if ready.Err? {
          HeaderFails(env, b, Joined(chunks));
          return Err(ready.error);
        }
        if !ready.value {
          continue;
        }
      } else {
        LoadedMore(env, before, suffix, rows, chunks[i]);
      }
      ghost var undecoded := decoder.Suffix();
      var more, bad := DrainRecords(env, decoder);
      if bad {
        BadStays(env, b, Joined(chunks));
        return Err(InvalidKey);
      }
      rows := rows + more;
      decoder.Compact();
    }
    assert chunks[..|chunks|] == chunks;
    if !decoder.headerValidated {
      return Err(TruncatedHeader);
    }
    if decoder.pos < |decoder.buf| {
      return Err(TruncatedRecord);
    }
    return Ok(rows);
  }

  lemma HeaderFails(env: Platform, b: Bytes, whole: Bytes)
    requires b <= whole && |b| >= 4
    requires b[..4] != MAGIC || (|b| >= HEADER_LEN && ReadU32(b, 4) != VERSION)
    ensures ParseSnapshot(env, whole) == if b[..4] != MAGIC then Err(BadMagic) else Err(BadVersion(ReadU32(b, 4)))
  {
    assert whole[..4] == b[..4];
    if |b| >= HEADER_LEN {
      assert ReadU32(whole, 4) == ReadU32(b, 4);
    }
  }

  /** What a started load makes of one more chunk. */
  lemma LoadedMore(env: Platform, before: Bytes, suffix: Bytes, rows: seq<Row<Value>>, chunk: Bytes)
    requires Loaded(env, before, suffix, true, rows)
    ensures var b, t := before + chunk, AllRecords(env, suffix + chunk);
            && b[..4] == MAGIC && ReadU32(b, 4) == VERSION
            && AllRecords(env, b[HEADER_LEN..]) == Records(rows + t.rows, t.tail, t.bad)
  {
    hide AllRecords;
    var b := before + chunk;
    assert b[..4] == before[..4];
    assert b[HEADER_LEN..] == before[HEADER_LEN..] + chunk;
    RecordsGrow(env, before[HEADER_LEN..], chunk);
  }

  lemma BadStays(env: Platform, b: Bytes, whole: Bytes)
    requires b <= whole && |b| >= HEADER_LEN && b[..4] == MAGIC && ReadU32(b, 4) == VERSION
    requires AllRecords(env, b[HEADER_LEN..]).bad
    ensures ParseSnapshot(env, whole) == Err(InvalidKey)
  {
    hide AllRecords;
    assert whole[..4] == b[..4];
    assert ReadU32(whole, 4) == ReadU32(b, 4);
    assert whole[HEADER_LEN..] == b[HEADER_LEN..] + whole[|b|..];
    RecordsGrow(env, b[HEADER_LEN..], whole[|b|..]);
  }
}

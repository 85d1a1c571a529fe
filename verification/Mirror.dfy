/**
 The write-through RAM mirror (`src/store/lsm/cached.rs`) used through one handle by the
 sole writer. The durable core is its contents and its listed WALs. Whether ownership was
 lost at a write is a parameter of the write; a refresh after a takeover is left out.
 */
module Mirror {
  import opened Keys
  import opened Wrappers
  import opened Rows
  import opened Merge
  import opened Writer
  import opened Replays
  import opened Paging
  import opened Overlay

  const SCAN_BATCH: nat := 256

  datatype Fault = Fenced

  /** The scanned keys after the same operations. */
  ghost function Noted(s: set<Key>, t: Table): (r: set<Key>)
  {
    set k | k in s + t.Keys && (k in t ==> t[k].Some?)
  }

  ghost predicate SubMap(a: map<Key, Value>, b: map<Key, Value>)
  {
    forall k :: k in a ==> k in b && b[k] == a[k]
  }

  /** The last listed operation on a key is what the core holds. */
  ghost predicate WalsAgree(wals: seq<Run>, m: map<Key, Value>)
  {
    forall k :: k in Replay(wals) ==> Replay(wals)[k] == if k in m then Some(m[k]) else None
  }

  lemma WriteKeepsAgree(wals: seq<Run>, m: map<Key, Value>, ops: Run)
    requires WalsAgree(wals, m)
    ensures WalsAgree(wals + [ops], Overlaid(m, Last(ops)))
  {
    hide Replay, Last;
    ReplaySnoc(wals, ops);
  }

  lemma LastDelete(k: Key)
    ensures Last([Row(k, None)]) == map[k := None]
  {
    var ops: Run := [Row(k, None)];
    assert ops[..0] == [];
  }

  // ---------------------------------------------------------------------------
  // One page of a scan
  // ---------------------------------------------------------------------------

  predicate From(cursor: Option<Key>, k: Key)
  {
    cursor.None? || !Lt(k, cursor.value)
  }

  /** A page holds rows from its cursor on, and all of them unless it is full; then all up to its last. */
  ghost predicate IsPage(m: map<Key, Value>, cursor: Option<Key>, page: seq<Row<Value>>)
  {
    && (forall i :: 0 <= i < |page| ==> page[i].key in m && m[page[i].key] == page[i].value && From(cursor, page[i].key))
    && (forall i, j :: 0 <= i < j < |page| ==> Lt(page[i].key, page[j].key))
    && (forall k :: k in m && From(cursor, k) && (|page| >= SCAN_BATCH ==> !Lt(page[|page| - 1].key, k)) ==> Row(k, m[k]) in page)
  }

  lemma PageIs(m: map<Key, Value>, cursor: Option<Key>)
    ensures IsPage(m, cursor, Scan(m, Some(SCAN_BATCH), Next, (cursor, None)))
  {
    var part := Restrict(m, cursor, None);
    var rows := Listing(part);
    ListingLists(part);
    hide Lt, Listing, Lists;
    var page := Scan(m, Some(SCAN_BATCH), Next, (cursor, None));
    assert page == Take(rows, Some(SCAN_BATCH));
    hide Scan, Take;
    PageRows(m, cursor, rows, page);
    forall k | k in m && From(cursor, k) && (|page| >= SCAN_BATCH ==> !Lt(page[|page| - 1].key, k))
      ensures Row(k, m[k]) in page
    {
      PageHolds(m, cursor, rows, page, k);
    }
  }

  lemma PageRows(m: map<Key, Value>, cursor: Option<Key>, rows: seq<Row<Value>>, page: seq<Row<Value>>)
    requires Lists(rows, Restrict(m, cursor, None)) && page == Take(rows, Some(SCAN_BATCH))
    ensures forall i :: 0 <= i < |page| ==> page[i].key in m && m[page[i].key] == page[i].value && From(cursor, page[i].key)
    ensures forall i, j :: 0 <= i < j < |page| ==> Lt(page[i].key, page[j].key)
  {
    hide Lt;
    assert forall i :: 0 <= i < |page| ==> page[i] == rows[i];
  }

  lemma PageHolds(m: map<Key, Value>, cursor: Option<Key>, rows: seq<Row<Value>>, page: seq<Row<Value>>, k: Key)
    requires Lists(rows, Restrict(m, cursor, None)) && page == Take(rows, Some(SCAN_BATCH))
    requires k in m && From(cursor, k) && (|page| >= SCAN_BATCH ==> !Lt(page[|page| - 1].key, k))
    ensures Row(k, m[k]) in page
  {
    hide Lt;
    var part := Restrict(m, cursor, None);
    assert k in part;
    var j :| 0 <= j < |rows| && rows[j] == Row(k, part[k]);
    assert j < |page| && page[j] == rows[j];
  }

  /** The keys a page adds to the scan. */
  ghost function PageKeys(page: seq<Row<Value>>, cursor: Option<Key>, n: nat): (s: set<Key>)
    requires n <= |page|
  {
    set i | 0 <= i < n && cursor != Some(page[i].key) :: page[i].key
  }

  // ---------------------------------------------------------------------------
  // The handle
  // ---------------------------------------------------------------------------

  /** Every core key up to the cursor was scanned or is in a listed WAL. */
  ghost predicate AccountedFor(m: map<Key, Value>, cursor: Option<Key>, scanned: set<Key>, wals: seq<Run>)
  {
    cursor.Some? ==> forall k :: k in m && Le(k, cursor.value) ==> k in scanned || k in Replay(wals)
  }

  /** The mirror and the scan so far are parts of the core. */
  ghost predicate Consistent(durable: map<Key, Value>, wals: seq<Run>, mirror: map<Key, Value>, scanned: set<Key>)
  {
    && WalsAgree(wals, durable)
    && SubMap(mirror, durable)
    && (forall k :: k in scanned && k in durable ==> k in mirror)
  }

  /** A core row taken over keeps them consistent. */
  lemma NoteOne(durable: map<Key, Value>, wals: seq<Run>, mirror: map<Key, Value>, scanned: set<Key>, k: Key)
    requires Consistent(durable, wals, mirror, scanned) && k in durable
    ensures Consistent(durable, wals, mirror[k := durable[k]], scanned + {k})
  {
    hide WalsAgree;
  }

  /** A write that reaches the core and then the mirror keeps them consistent. */
  lemma WriteKeepsConsistent(durable: map<Key, Value>, wals: seq<Run>, mirror: map<Key, Value>, scanned: set<Key>, ops: Run)
    requires Consistent(durable, wals, mirror, scanned)
    ensures Consistent(Overlaid(durable, Last(ops)), wals + [ops], Overlaid(mirror, Last(ops)), scanned)
  {
    hide Last, WalsAgree;
    WriteKeepsAgree(wals, durable, ops);
  }

  lemma WriteKeepsAccounted(durable: map<Key, Value>, cursor: Option<Key>, scanned: set<Key>, wals: seq<Run>, ops: Run)
    requires AccountedFor(durable, cursor, scanned, wals)
    ensures AccountedFor(Overlaid(durable, Last(ops)), cursor, scanned, wals + [ops])
  {
    hide Last, Replay, Lt;
    ReplaySnoc(wals, ops);
  }

  lemma OverlaidOne(m: map<Key, Value>, k: Key, v: Slot)
    ensures Overlaid(m, map[k := v]) == if v.Some? then m[k := v.value] else m - {k}
  {
  }

  /** No core key lies beyond the cursor. */
  ghost predicate EndsAt(m: map<Key, Value>, cursor: Option<Key>)
  {
    if cursor.None? then m == map[] else forall k :: k in m ==> Le(k, cursor.value)
  }

  /** A page moves the cursor and leaves the account as it was. */
  lemma PageKeepsAccount(m: map<Key, Value>, cursor: Option<Key>, page: seq<Row<Value>>, scanned: set<Key>, wals: seq<Run>)
    requires IsPage(m, cursor, page) && page != [] && (cursor.None? ==> scanned == {})
    ensures var last, noted := Some(page[|page| - 1].key), scanned + PageKeys(page, cursor, |page|);
            AccountedFor(m, last, noted, wals) <==> AccountedFor(m, cursor, scanned, wals)
  {
    hide Lt, Replay;
    var n := |page| - 1;
    var last, noted := page[n].key, scanned + PageKeys(page, cursor, |page|);
    forall k
      ensures cursor.Some? && Le(k, cursor.value) ==> Le(k, last) && (k in noted <==> k in scanned)
      ensures k in m && Le(k, last) && !(cursor.Some? && Le(k, cursor.value)) ==> k in noted
    {
      UpToCursor(cursor, page, k);
      if k in m && Le(k, last) && !(cursor.Some? && Le(k, cursor.value)) {
        Asymmetric(k, last);
        Irreflexive(k);
        if cursor.Some? {
          Total(k, cursor.value);
        }
        assert Row(k, m[k]) in page;
        var i :| 0 <= i < |page| && page[i] == Row(k, m[k]);
        assert page[i].key in PageKeys(page, cursor, |page|);
      }
    }
  }

  lemma UpToCursor(cursor: Option<Key>, page: seq<Row<Value>>, k: Key)
    requires page != [] && cursor.Some? ==> forall i :: 0 <= i < |page| ==> From(cursor, page[i].key)
    requires page != []
    ensures cursor.Some? && Le(k, cursor.value) ==> Le(k, page[|page| - 1].key) && k !in PageKeys(page, cursor, |page|)
  {
    hide Lt;
    if cursor.Some? && Le(k, cursor.value) {
      AtLeastCursor(cursor.value, page[|page| - 1].key, k);
      if i :| 0 <= i < |page| && cursor != Some(page[i].key) && page[i].key == k {
        assert false;
      }
    }
  }

  lemma AtLeastCursor(c: Key, last: Key, k: Key)
    requires !Lt(last, c) && Le(k, c)
    ensures Le(k, last)
  {
    hide Lt;
    Total(c, last);
    if k != c && c != last {
      Transitive(k, c, last);
    }
  }

  /** A short page is the last one. */
  lemma ShortPageEnds(m: map<Key, Value>, cursor: Option<Key>, page: seq<Row<Value>>)
    requires IsPage(m, cursor, page) && |page| < SCAN_BATCH
    ensures EndsAt(m, if page == [] then cursor else Some(page[|page| - 1].key))
  {
    hide Lt;
    forall k | k in m
      ensures From(cursor, k) ==> page != [] && Le(k, page[|page| - 1].key)
      ensures !From(cursor, k) ==> Le(k, cursor.value) && (page != [] ==> Le(k, page[|page| - 1].key))
    {
      if From(cursor, k) {
        assert Row(k, m[k]) in page;
        var i :| 0 <= i < |page| && page[i] == Row(k, m[k]);
      } else if page != [] {
        assert From(cursor, page[|page| - 1].key);
        AtLeastCursor(cursor.value, page[|page| - 1].key, k);
      }
    }
  }

  /** The core keys a page at `cursor` can hold. */
  ghost function AtOrAfter(m: map<Key, Value>, cursor: Option<Key>): (s: set<Key>)
  {
    set k | k in m && From(cursor, k)
  }

  /** `pages` batches, each less the key it shares with the one before, hold what is left. */
  ghost predicate FitsIn(m: map<Key, Value>, cursor: Option<Key>, pages: nat)
  {
    |AtOrAfter(m, cursor)| <= (SCAN_BATCH - 1) * pages
  }

  /** A page is short exactly when fewer keys than a batch are left; a full one leaves all but a batch less one. */
  lemma PageSize(m: map<Key, Value>, cursor: Option<Key>)
    ensures var n, page := |AtOrAfter(m, cursor)|, Scan(m, Some(SCAN_BATCH), Next, (cursor, None));
            && |page| == (if n < SCAN_BATCH then n else SCAN_BATCH)
            && (n >= SCAN_BATCH ==>
                  && page[|page| - 1].key in m
                  && |AtOrAfter(m, Some(page[|page| - 1].key))| == n - (SCAN_BATCH - 1))
  {
    var rows := Listing(Restrict(m, cursor, None));
    ListingLists(Restrict(m, cursor, None));
    hide Listing, Lists, Lt, AtOrAfter, Restrict;
    assert Scan(m, Some(SCAN_BATCH), Next, (cursor, None)) == Take(rows, Some(SCAN_BATCH));
    hide Scan;
    CountFrom(rows, m, cursor);
    if |rows| >= SCAN_BATCH {
      LeftAfter(rows, m, cursor);
    }
  }

  lemma LeftAfter(rows: seq<Row<Value>>, m: map<Key, Value>, cursor: Option<Key>)
    requires Lists(rows, Restrict(m, cursor, None)) && |rows| >= SCAN_BATCH
    ensures |AtOrAfter(m, Some(rows[SCAN_BATCH - 1].key))| == |rows| - (SCAN_BATCH - 1)
  {
    hide Lists, Lt, AtOrAfter, Restrict;
    ListsFrom(rows, m, cursor, None, SCAN_BATCH - 1);
    CountFrom(rows[SCAN_BATCH - 1..], m, Some(rows[SCAN_BATCH - 1].key));
  }

  lemma CountFrom(rows: seq<Row<Value>>, m: map<Key, Value>, cursor: Option<Key>)
    requires Lists(rows, Restrict(m, cursor, None))
    ensures |rows| == |AtOrAfter(m, cursor)| && forall i :: 0 <= i < |rows| ==> rows[i].key in m
  {
    hide Lt;
    ListsCount(rows, Restrict(m, cursor, None));
    assert Restrict(m, cursor, None).Keys == AtOrAfter(m, cursor);
  }

  /** Where a scan stands after `pages` pages, or `None` when it has ended. */
  ghost function Scanning(m: map<Key, Value>, cursor: Option<Key>, pages: nat): (r: Option<Option<Key>>)
    decreases pages
  {
    if pages == 0 then Some(cursor) else
      var page := Scan(m, Some(SCAN_BATCH), Next, (cursor, None));
      if |page| < SCAN_BATCH then None else Scanning(m, Some(page[|page| - 1].key), pages - 1)
  }

  lemma NextPage(m: map<Key, Value>, cursor: Option<Key>, pages: nat)
    requires pages > 0
    ensures var page := Scan(m, Some(SCAN_BATCH), Next, (cursor, None));
            Scanning(m, cursor, pages) == if |page| < SCAN_BATCH then None else Scanning(m, Some(page[|page| - 1].key), pages - 1)
  {
  }

  lemma NoPages(m: map<Key, Value>, cursor: Option<Key>)
    ensures Scanning(m, cursor, 0) == Some(cursor)
  {
  }

  /** A scan ends within `pages` pages exactly when that many batches, less one key each, hold what is left. */
  lemma {:induction false} ScanningEnds(m: map<Key, Value>, cursor: Option<Key>, pages: nat)
    ensures var r := Scanning(m, cursor, pages);
            && (r.None? <==> pages > 0 && FitsIn(m, cursor, pages))
            && (r.Some? ==> |AtOrAfter(m, r.value)| == |AtOrAfter(m, cursor)| - (SCAN_BATCH - 1) * pages)
            && (r.Some? && pages > 0 ==> r.value.Some? && r.value.value in m)
    decreases pages
  {
    hide AtOrAfter, Scan;
    if pages > 0 {
      PageSize(m, cursor);
      var page := Scan(m, Some(SCAN_BATCH), Next, (cursor, None));
      if |page| >= SCAN_BATCH {
        ScanningEnds(m, Some(page[|page| - 1].key), pages - 1);
      }
    }
  }

  /** A driven turn takes at least one page. */
  function Pages(pages: nat): (n: nat)
  {
    if pages == 0 then 1 else pages
  }

  ghost function WarmthStep(m: map<Key, Value>, w: Option<Option<Key>>, pages: nat): (r: Option<Option<Key>>)
  {
    if w.None? then None else Scanning(m, w.value, Pages(pages))
  }

  class CachedStore {
    var durable: map<Key, Value>
    var wals: seq<Run>
    var mirror: map<Key, Value>
    var warmed: bool
    var warmCursor: Option<Key>
    var scanned: set<Key>
    var poisoned: bool

    ghost predicate Valid()
      reads this
    {
      && Consistent(durable, wals, mirror, scanned)
      && (warmCursor.None? ==> scanned == {})
    }

    /** `None` when warmed, otherwise where the scan stands. */
    ghost function Warmth(): (w: Option<Option<Key>>)
      reads this
    {
      if warmed then None else Some(warmCursor)
    }

    ghost predicate Accounted()
      reads this
    {
      AccountedFor(durable, warmCursor, scanned, wals)
    }

    /** What a warm or warming mirror promises beyond being a part of the core. */
    ghost predicate Complete()
      reads this
    {
      if warmed then mirror == durable else Accounted()
    }

    constructor (durable: map<Key, Value>, wals: seq<Run>)
      requires WalsAgree(wals, durable)
      ensures Valid() && Complete() && !warmed && !poisoned && mirror == map[]
      ensures this.durable == durable && this.wals == wals && warmCursor.None? && scanned == {}
    {
      this.durable, this.wals := durable, wals;
      mirror, warmed, warmCursor, scanned, poisoned := map[], false, None, {}, false;
    }

    method Get(k: Key) returns (r: Result<Option<Value>, Fault>)
      requires Valid()
      modifies this`mirror
      ensures Valid() && (old(Complete()) ==> Complete())
      ensures poisoned ==> r.Err? && mirror == old(mirror)
      ensures !poisoned && old(Complete()) ==> r == Ok(if k in durable then Some(durable[k]) else None)
      ensures SubMap(old(mirror), mirror)
      ensures !poisoned && !warmed && k in durable ==> k in mirror
      ensures forall x :: x in mirror && x !in old(mirror) ==> x == k
    {
      if poisoned {
        return Err(Fenced);
      }
      if k in mirror {
        return Ok(Some(mirror[k]));
      }
      if warmed {
        return Ok(None);
      }
      if k in durable {
        mirror := mirror[k := durable[k]];
        return Ok(Some(durable[k]));
      }
      return Ok(None);
    }

    method Gets(limit: Option<nat>, direction: Direction, cursor: Cursor) returns (r: Result<seq<Row<Value>>, Fault>)
      requires Valid()
      ensures poisoned ==> r.Err?
      ensures !poisoned && Complete() ==> r == Ok(Scan(durable, limit, direction, cursor))
    {
      if poisoned {
        return Err(Fenced);
      }
      var rows;
      if warmed {
        rows := GetsBytes(mirror, limit, direction, cursor);
      } else {
        rows := GetsBytes(durable, limit, direction, cursor);
      }
      return Ok(rows);
    }

    /** The core accepted `ops` and the mirror took them over. */
    method WriteThrough(ops: Run)
      requires Valid()
      modifies this`durable, this`wals, this`mirror
      ensures Valid() && (old(Complete()) ==> Complete())
      ensures durable == Overlaid(old(durable), Last(ops)) && mirror == Overlaid(old(mirror), Last(ops))
    {
      hide Replay, Last, Consistent, AccountedFor;
      WriteKeepsConsistent(durable, wals, mirror, scanned, ops);
      if AccountedFor(durable, warmCursor, scanned, wals) {
        WriteKeepsAccounted(durable, warmCursor, scanned, wals, ops);
      }
      var staged := ApplyMem(map[], ops);
      assert staged == Last(ops);
      durable := ApplyTable(durable, staged);
      wals := wals + [ops];
      mirror := ApplyTable(mirror, staged);
    }

    method PutBytes(k: Key, v: Value, fenced: bool) returns (r: Result<(), Fault>)
      requires Valid()
      modifies this`durable, this`wals, this`mirror, this`poisoned
      ensures Valid() && (old(Complete()) ==> Complete())
      ensures r.Ok? <==> !old(poisoned) && !fenced
      ensures r.Ok? ==> durable == old(durable)[k := v] && mirror == old(mirror)[k := v] && !poisoned
      ensures r.Err? ==> durable == old(durable) && mirror == old(mirror) && wals == old(wals) && poisoned
    {
      if poisoned {
        return Err(Fenced);
      }
      if fenced {
        poisoned := true;
        return Err(Fenced);
      }
      hide Valid, Complete, Last;
      LastOnce(k, v);
      OverlaidOne(durable, k, Some(v));
      OverlaidOne(mirror, k, Some(v));
      WriteThrough(PutOnce(k, v));
      return Ok(());
    }

    /** `prev` comes from the mirror, so before warming it may miss a value the core holds. */
    method SetBytes(k: Key, v: Value, fenced: bool) returns (r: Result<Option<Value>, Fault>)
      requires Valid()
      modifies this`durable, this`wals, this`mirror, this`poisoned
      ensures Valid() && (old(Complete()) ==> Complete())
      ensures r.Ok? <==> !old(poisoned) && !fenced
      ensures r.Ok? ==> durable == old(durable)[k := v] && mirror == old(mirror)[k := v] && !poisoned
      ensures r.Ok? ==> r.value == if k in old(mirror) then Some(old(mirror)[k]) else None
      ensures r.Err? ==> durable == old(durable) && mirror == old(mirror) && wals == old(wals) && poisoned
    {
      var prev := if k in mirror then Some(mirror[k]) else None;
      var done := PutBytes(k, v, fenced);
      if done.Err? {
        return Err(Fenced);
      }
      return Ok(prev);
    }

    method Delete(k: Key, fenced: bool) returns (r: Result<bool, Fault>)
      requires Valid()
      modifies this`durable, this`wals, this`mirror, this`poisoned
      ensures Valid() && (old(Complete()) ==> Complete())
      ensures r.Ok? ==> r.value == (k in old(durable)) && durable == old(durable) - {k} && mirror == old(mirror) - {k}
      ensures r.Err? ==> durable == old(durable) && mirror == old(mirror) && wals == old(wals) && poisoned
      ensures r.Err? <==> old(poisoned) || (fenced && k in old(durable))
      ensures r.Ok? ==> poisoned == old(poisoned)
    {
      if poisoned {
        return Err(Fenced);
      }
      if k !in durable {
        assert mirror - {k} == mirror && durable - {k} == durable;
        return Ok(false);
      }
      if fenced {
        poisoned := true;
        return Err(Fenced);
      }
      LastDelete(k);
      hide Last;
      OverlaidOne(durable, k, None);
      OverlaidOne(mirror, k, None);
      WriteThrough([Row(k, None)]);
      return Ok(true);
    }

    /**
     A transaction's staged writes reach the mirror only after the core accepted them. An
     empty one is accepted before ownership is looked at. Success lifts the poison when the
     manifest cache still holds an entry (`cached`).
     */
    method Commit(ops: Run, fenced: bool, cached: bool) returns (r: Result<(), Fault>)
      requires Valid()
      modifies this`durable, this`wals, this`mirror, this`poisoned
      ensures Valid() && (old(Complete()) ==> Complete())
      ensures r.Ok? <==> ops == [] || !fenced
      ensures r.Ok? ==> durable == Overlaid(old(durable), Last(ops)) && mirror == Overlaid(old(mirror), Last(ops))
      ensures r.Ok? ==> poisoned == (old(poisoned) && !cached)
      ensures r.Err? ==> durable == old(durable) && mirror == old(mirror) && wals == old(wals) && poisoned
    {
      if ops != [] {
        if fenced {
          poisoned := true;
          return Err(Fenced);
        }
        WriteThrough(ops);
      } else {
        OverlaidNothing(durable, scanned);
        OverlaidNothing(mirror, scanned);
      }
      if cached {
        poisoned := false;
      }
      return Ok(());
    }

    /** The writer collected the first `n` listed WALs. */
    method Collect(n: nat)
      requires Valid() && n <= |wals|
      modifies this`wals
      ensures Valid() && wals == old(wals)[n..]
      ensures warmed || warmCursor.None? ==> (old(Complete()) ==> Complete())
    {
      assert wals == wals[..n] + wals[n..];
      ReplayConcat(wals[..n], wals[n..]);
      hide Replay;
      wals := wals[n..];
    }

    // -------------------------------------------------------------------------
    // Warming
    // -------------------------------------------------------------------------

    /** Replays one WAL over the scan. */
    method OverlayOps(ops: Run)
      modifies this`mirror, this`scanned
      ensures mirror == Overlaid(old(mirror), Last(ops)) && scanned == Noted(old(scanned), Last(ops))
    {
      hide Overlaid, Noted, Last;
      OverlaidNothing(mirror, scanned);
      for j := 0 to |ops|
        invariant mirror == Overlaid(old(mirror), Last(ops[..j])) && scanned == Noted(old(scanned), Last(ops[..j]))
      {
        OverlaidSnoc(old(mirror), old(scanned), ops, j);
        if ops[j].value.Some? {
          mirror := mirror[ops[j].key := ops[j].value.value];
          scanned := scanned + {ops[j].key};
        } else {
          mirror := mirror - {ops[j].key};
          scanned := scanned - {ops[j].key};
        }
      }
      assert ops[..|ops|] == ops;
    }

    /** Replays the listed WALs over the scan. */
    method OverlayWals()
      modifies this`mirror, this`scanned
      ensures mirror == Overlaid(old(mirror), Replay(wals)) && scanned == Noted(old(scanned), Replay(wals))
    {
      hide Overlaid, Noted, Last, Replay;
      OverlaidNothing(mirror, scanned);
      for i := 0 to |wals|
        invariant mirror == Overlaid(old(mirror), Replay(wals[..i])) && scanned == Noted(old(scanned), Replay(wals[..i]))
      {
        OverlaidTwice(old(mirror), old(scanned), Replay(wals[..i]), Last(wals[i]));
        ReplaySnoc(wals[..i], wals[i]);
        assert wals[..i + 1] == wals[..i] + [wals[i]];
        OverlayOps(wals[i]);
      }
      assert wals[..|wals|] == wals;
    }

    /** Overlays the WALs and drops every mirrored key the scan did not meet. */
    method FinishWarm()
      requires Valid() && !warmed
      modifies this`mirror, this`scanned, this`warmCursor, this`warmed, this`poisoned
      ensures Valid() && warmed && warmCursor.None? && !poisoned
      ensures forall k :: k in mirror <==> k in durable && (k in old(scanned) || k in Replay(wals))
    {
      hide Replay;
      FinishedMirror(durable, wals, mirror, scanned);
      OverlayWals();
      mirror := map k | k in mirror && k in scanned :: mirror[k];
      scanned, poisoned, warmCursor, warmed := {}, false, None, true;
    }

    /** Takes over one page but for the key the cursor carried over. */
    method AbsorbPage(page: seq<Row<Value>>)
      requires Valid() && IsPage(durable, warmCursor, page)
      modifies this`mirror, this`scanned
      ensures Consistent(durable, wals, mirror, scanned)
      ensures scanned == old(scanned) + PageKeys(page, warmCursor, |page|) && scanned <= old(scanned) + durable.Keys
    {
      hide Consistent, Lt;
      for i := 0 to |page|
        invariant Consistent(durable, wals, mirror, scanned)
        invariant scanned == old(scanned) + PageKeys(page, warmCursor, i)
      {
        if warmCursor == Some(page[i].key) {
          assert PageKeys(page, warmCursor, i + 1) == PageKeys(page, warmCursor, i);
          continue;
        }
        assert PageKeys(page, warmCursor, i + 1) == PageKeys(page, warmCursor, i) + {page[i].key};
        NoteOne(durable, wals, mirror, scanned, page[i].key);
        scanned := scanned + {page[i].key};
        mirror := mirror[page[i].key := page[i].value];
      }
    }

    /**
     Up to `maxPages` pages of the scan. Completing it mirrors the whole core exactly when
     the keys already passed were accounted for.
     */
    method WarmPages(maxPages: nat) returns (done: bool)
      requires Valid()
      modifies this`mirror, this`scanned, this`warmCursor, this`warmed, this`poisoned
      ensures Valid() && done == warmed
      ensures poisoned == (old(poisoned) && (old(warmed) || !done))
      ensures old(warmed) ==> done && mirror == old(mirror)
      ensures !old(warmed) && done ==> (mirror == durable <==> old(Accounted()))
      ensures !old(warmed) && !done ==> (Accounted() <==> old(Accounted()))
      ensures done <==> old(warmed) || (maxPages > 0 && FitsIn(durable, old(warmCursor), maxPages))
      ensures !old(warmed) ==> Scanning(durable, old(warmCursor), maxPages) == Warmth()
      ensures !done ==> scanned <= old(scanned) + durable.Keys
    {
      if warmed {
        return true;
      }
      hide Valid, AccountedFor, AtOrAfter, EndsAt, Scan, Scanning, FitsIn;
      ScanningEnds(durable, warmCursor, maxPages);
      done := ScanPages(maxPages);
      if done {
        FinishScan();
      }
    }

    /** Takes over pages until one is the last or `maxPages` are done. */
    method ScanPages(maxPages: nat) returns (ended: bool)
      requires Valid() && !warmed
      modifies this`mirror, this`scanned, this`warmCursor
      ensures Valid() && (Accounted() <==> old(Accounted()))
      ensures ended ==> EndsAt(durable, warmCursor)
      ensures Scanning(durable, old(warmCursor), maxPages) == if ended then None else Some(warmCursor)
      ensures scanned <= old(scanned) + durable.Keys
    {
      hide Valid, AccountedFor, EndsAt, Scan, Scanning;
      var pages := 0;
      while pages < maxPages
        invariant Valid() && (Accounted() <==> old(Accounted()))
        invariant pages <= maxPages && scanned <= old(scanned) + durable.Keys
        invariant Scanning(durable, warmCursor, maxPages - pages) == Scanning(durable, old(warmCursor), maxPages)
      {
        NextPage(durable, warmCursor, maxPages - pages);
        ended := ScanPage();
        if ended {
          return;
        }
        pages := pages + 1;
      }
      NoPages(durable, warmCursor);
      return false;
    }

    /** Takes over the next page; it is the last one unless it is full. */
    method ScanPage() returns (ended: bool)
      requires Valid() && !warmed
      modifies this`mirror, this`scanned, this`warmCursor
      ensures Valid() && (Accounted() <==> old(Accounted()))
      ensures ended ==> EndsAt(durable, warmCursor)
      ensures var page := Scan(durable, Some(SCAN_BATCH), Next, (old(warmCursor), None));
              && ended == (|page| < SCAN_BATCH)
              && (!ended ==> warmCursor == Some(page[|page| - 1].key))
      ensures scanned <= old(scanned) + durable.Keys
    {
      hide Consistent, IsPage, AccountedFor, EndsAt, PageKeys, Scan;
      var batch := GetsBytes(durable, Some(SCAN_BATCH), Next, (warmCursor, None));
      PageIs(durable, warmCursor);
      ended := |batch| < SCAN_BATCH;
      if ended {
        ShortPageEnds(durable, warmCursor, batch);
      }
      if batch == [] {
        return;
      }
      PageKeepsAccount(durable, warmCursor, batch, scanned, wals);
      AbsorbPage(batch);
      warmCursor := Some(batch[|batch| - 1].key);
    }

    /** The last turn of a scan whose cursor passed every key. */
    method FinishScan()
      requires Valid() && !warmed && EndsAt(durable, warmCursor)
      modifies this`mirror, this`scanned, this`warmCursor, this`warmed, this`poisoned
      ensures Valid() && warmed && warmCursor.None? && !poisoned && (mirror == durable <==> old(Accounted()))
    {
      hide Replay, WalsAgree, Lt;
      ghost var c, s := warmCursor, scanned;
      FinishWarm();
      assert mirror == durable <==> forall k :: k in durable ==> k in mirror;
      assert c.Some? ==> forall k :: k in durable ==> Le(k, c.value);
    }

    /** A full scan in one call; it always lifts the poison. */
    method Warm()
      requires Valid()
      modifies this`mirror, this`scanned, this`warmCursor, this`warmed, this`poisoned
      ensures Valid() && warmed && mirror == durable && !poisoned
    {
      warmed, warmCursor, scanned := false, None, {};
      var done := false;
      while !done
        invariant Valid() && done == warmed && (done ==> !poisoned)
        invariant if done then mirror == durable else Accounted()
        decreases !done, |AtOrAfter(durable, warmCursor)|
      {
        ScanningEnds(durable, warmCursor, 0xFFFF_FFFF);
        done := WarmPages(0xFFFF_FFFF);
      }
    }

    /** One turn of an explicitly driven scan. */
    method WarmStep(pages: nat) returns (done: bool)
      requires Valid()
      modifies this`mirror, this`scanned, this`warmCursor, this`warmed, this`poisoned
      ensures poisoned == (old(poisoned) && (old(warmed) || !done))
      ensures old(warmed) ==> done
      ensures Valid() && done == warmed && (old(Complete()) ==> Complete())
      ensures !old(warmed) ==> ((if done then mirror == durable else Accounted()) <==> old(Accounted()))
      ensures done <==> old(warmed) || FitsIn(durable, old(warmCursor), Pages(pages))
      ensures Warmth() == WarmthStep(durable, old(Warmth()), pages)
      ensures !done ==> scanned <= old(scanned) + durable.Keys
    {
      done := WarmPages(Pages(pages));
    }
  }

  /** What the mirror holds after the overlay and the deletion difference. */
  lemma FinishedMirror(durable: map<Key, Value>, wals: seq<Run>, mirror: map<Key, Value>, scanned: set<Key>)
    requires Consistent(durable, wals, mirror, scanned)
    ensures var m, s := Overlaid(mirror, Replay(wals)), Noted(scanned, Replay(wals));
            && SubMap(m, durable)
            && forall k :: k in m && k in s <==> k in durable && (k in scanned || k in Replay(wals))
  {
    hide Replay;
  }

  lemma OverlaidNothing(m: map<Key, Value>, s: set<Key>)
    ensures Overlaid(m, Last([])) == m && Noted(s, Last([])) == s
    ensures Overlaid(m, Replay([])) == m && Noted(s, Replay([])) == s
  {
  }

  lemma OverlaidSnoc(m: map<Key, Value>, s: set<Key>, ops: Run, j: nat)
    requires j < |ops|
    ensures var t, u := Overlaid(m, Last(ops[..j])), Noted(s, Last(ops[..j]));
            var k, v := ops[j].key, ops[j].value;
            && Overlaid(m, Last(ops[..j + 1])) == (if v.Some? then t[k := v.value] else t - {k})
            && Noted(s, Last(ops[..j + 1])) == (if v.Some? then u + {k} else u - {k})
  {
    assert ops[..j + 1][..j] == ops[..j];
    assert Last(ops[..j + 1]) == Last(ops[..j])[ops[j].key := ops[j].value];
    hide Last;
  }

  lemma OverlaidTwice(m: map<Key, Value>, s: set<Key>, a: Table, b: Table)
    ensures Overlaid(Overlaid(m, a), b) == Overlaid(m, a + b)
    ensures Noted(Noted(s, a), b) == Noted(s, a + b)
  {
  }

  // ---------------------------------------------------------------------------
  // Whole runs
  // ---------------------------------------------------------------------------

  datatype Op =
    | GetOp(k: Key)
    | ScanOp(limit: Option<nat>, direction: Direction, cursor: Cursor)
    | PutOp(k: Key, v: Value)
    | SetOp(k: Key, v: Value)
    | DeleteOp(k: Key)
    | CommitOp(ops: Run, cached: bool)
    | RollbackOp
    | WarmOp
    | WarmStepOp(pages: nat)
    | CollectOp(n: nat)

  datatype Answer =
    | Value(value: Option<Value>)
    | Previous(value: Option<Value>)
    | Scanned(rows: seq<Row<Value>>)
    | Existed(yes: bool)
    | Nothing

  ghost function Held(m: map<Key, Value>, k: Key): (v: Option<Value>)
  {
    if k in m then Some(m[k]) else None
  }

  /** What the durable map alone answers, and becomes. */
  ghost function Plain(m: map<Key, Value>, op: Op): (r: (map<Key, Value>, Answer))
  {
    match op
    case GetOp(k) => (m, Answer.Value(Held(m, k)))
    case ScanOp(limit, direction, cursor) => (m, Scanned(Scan(m, limit, direction, cursor)))
    case PutOp(k, v) => (m[k := v], Nothing)
    case SetOp(k, v) => (m[k := v], Previous(Held(m, k)))
    case DeleteOp(k) => (m - {k}, Existed(k in m))
    case CommitOp(ops, _) => (Overlaid(m, Last(ops)), Nothing)
    case _ => (m, Nothing)
  }

  ghost function PlainRun(m: map<Key, Value>, ops: seq<Op>): (r: (map<Key, Value>, seq<Answer>))
    ensures |r.1| == |ops|
  {
    if ops == [] then (m, []) else
      var before := PlainRun(m, ops[..|ops| - 1]);
      var now := Plain(before.0, ops[|ops| - 1]);
      (now.0, before.1 + [now.1])
  }

  /** The same answer, but before warming a set may miss the previous value. */
  ghost predicate Matches(got: Answer, plain: Answer)
  {
    got == plain || (plain.Previous? && got == Previous(None))
  }

  /** What an operation does to the scan; only warming moves it. */
  ghost function WarmthAfter(m: map<Key, Value>, w: Option<Option<Key>>, op: Op): (r: Option<Option<Key>>)
  {
    match op
    case WarmOp => None
    case WarmStepOp(pages) => WarmthStep(m, w, pages)
    case _ => w
  }

  ghost function WarmthRun(m: map<Key, Value>, w: Option<Option<Key>>, ops: seq<Op>): (r: Option<Option<Key>>)
  {
    if ops == [] then w else
      var before := ops[..|ops| - 1];
      WarmthAfter(PlainRun(m, before).0, WarmthRun(m, w, before), ops[|ops| - 1])
  }

  /** One operation through the handle; the writer does not collect while a driven scan is under way. */
  method Serve(store: CachedStore, op: Op) returns (answer: Answer)
    requires store.Valid() && store.Complete() && !store.poisoned
    modifies store
    ensures store.Valid() && store.Complete() && !store.poisoned
    ensures store.durable == Plain(old(store.durable), op).0 && Matches(answer, Plain(old(store.durable), op).1)
    ensures old(store.warmed) ==> answer == Plain(old(store.durable), op).1
    ensures store.Warmth() == WarmthAfter(old(store.durable), old(store.Warmth()), op)
  {
    MirrorIsPart(store);
    hide CachedStore.Valid, Overlaid, Last;
    answer := Nothing;
    match op
    case GetOp(k) =>
      var r := store.Get(k);
      answer := Answer.Value(r.value);
    case ScanOp(limit, direction, cursor) =>
      var r := store.Gets(limit, direction, cursor);
      answer := Scanned(r.value);
    case PutOp(k, v) =>
      var _ := store.PutBytes(k, v, false);
    case SetOp(k, v) =>
      var r := store.SetBytes(k, v, false);
      answer := Previous(r.value);
    case DeleteOp(k) =>
      var r := store.Delete(k, false);
      answer := Existed(r.value);
    case CommitOp(ops, cached) =>
      var _ := store.Commit(ops, false, cached);
    case RollbackOp =>
    case WarmOp =>
      store.Warm();
    case WarmStepOp(pages) =>
      var _ := store.WarmStep(pages);
    case CollectOp(n) =>
      if n <= |store.wals| && (store.warmed || store.warmCursor.None?) {
        store.Collect(n);
      }
  }

  lemma MirrorIsPart(store: CachedStore)
    requires store.Valid()
    ensures SubMap(store.mirror, store.durable)
  {
  }

  /**
   Every run through the handle answers like the durable map alone, previous values
   included from the operation on before which it is warm. When that is follows from the
   operations and the keys. The mirror stays a part of the map, and is all of it once warm.
   */
  method Drive(store: CachedStore, ops: seq<Op>) returns (answers: seq<Answer>)
    requires store.Valid() && store.Complete() && !store.poisoned
    modifies store
    ensures store.durable == PlainRun(old(store.durable), ops).0 && |answers| == |ops|
    ensures forall i :: 0 <= i < |ops| ==> Matches(answers[i], PlainRun(old(store.durable), ops).1[i])
    ensures forall i :: 0 <= i < |ops| && WarmthRun(old(store.durable), old(store.Warmth()), ops[..i]).None? ==>
                          answers[i] == PlainRun(old(store.durable), ops).1[i]
    ensures store.warmed <==> WarmthRun(old(store.durable), old(store.Warmth()), ops).None?
    ensures SubMap(store.mirror, store.durable) && (store.warmed ==> store.mirror == store.durable)
  {
    hide Plain, Matches, WarmthAfter;
    answers := [];
    for i := 0 to |ops|
      invariant store.Valid() && store.Complete() && !store.poisoned
      invariant store.durable == PlainRun(old(store.durable), ops[..i]).0 && |answers| == i
      invariant forall j :: 0 <= j < i ==> Matches(answers[j], PlainRun(old(store.durable), ops[..i]).1[j])
      invariant store.Warmth() == WarmthRun(old(store.durable), old(store.Warmth()), ops[..i])
      invariant forall j :: 0 <= j < i && WarmthRun(old(store.durable), old(store.Warmth()), ops[..j]).None? ==>
                              answers[j] == PlainRun(old(store.durable), ops[..i]).1[j]
    {
      assert ops[..i + 1][..i] == ops[..i];
      var answer := Serve(store, ops[i]);
      answers := answers + [answer];
    }
    assert ops[..|ops|] == ops;
  }

  // ---------------------------------------------------------------------------
  // Poison
  // ---------------------------------------------------------------------------

  /**
   Which operations lift the poison of a mirror whose writer lost ownership: a warm-up, an
   empty commit while the manifest cache holds an entry, and a driven turn whose pages hold
   all that is left to scan. Nothing else does, and reads and writes fail until then.
   */
  method ServePoisoned(store: CachedStore, op: Op) returns (failed: bool)
    requires store.Valid() && store.poisoned
    modifies store
    ensures store.Valid() && store.durable == old(store.durable)
    ensures !store.poisoned <==>
              op.WarmOp? || (op.CommitOp? && op.ops == [] && op.cached)
              || (op.WarmStepOp? && !old(store.warmed) && FitsIn(old(store.durable), old(store.warmCursor), Pages(op.pages)))
    ensures failed <==> op.GetOp? || op.ScanOp? || op.PutOp? || op.SetOp? || op.DeleteOp? || (op.CommitOp? && op.ops != [])
  {
    hide CachedStore.Valid, Last, Replay;
    failed := false;
    match op
    case GetOp(k) =>
      var r := store.Get(k);
      failed := r.Err?;
    case ScanOp(limit, direction, cursor) =>
      var r := store.Gets(limit, direction, cursor);
      failed := r.Err?;
    case PutOp(k, v) =>
      var r := store.PutBytes(k, v, true);
      failed := r.Err?;
    case SetOp(k, v) =>
      var r := store.SetBytes(k, v, true);
      failed := r.Err?;
    case DeleteOp(k) =>
      var r := store.Delete(k, true);
      failed := r.Err?;
    case CommitOp(ops, cached) =>
      OverlaidNothing(store.durable, store.scanned);
      var r := store.Commit(ops, true, cached);
      failed := r.Err?;
    case RollbackOp =>
    case WarmOp =>
      store.Warm();
    case WarmStepOp(pages) =>
      var _ := store.WarmStep(pages);
    case CollectOp(n) =>
      if n <= |store.wals| {
        store.Collect(n);
      }
  }

  // ---------------------------------------------------------------------------
  // Collecting during a driven scan
  // ---------------------------------------------------------------------------

  /**
   A new key behind the cursor whose WAL is collected before the scan ends leaves the warmed
   mirror short of the core, whatever the size of the turns.
   */
  method CollectDuringScan(store: CachedStore, k: Key, v: Value, pages: nat)
    requires store.Valid() && !store.poisoned && !store.warmed
    requires store.warmCursor.Some? && Lt(k, store.warmCursor.value) && k !in store.scanned
    modifies store
    ensures store.Valid() && store.warmed && !store.poisoned
    ensures store.durable == old(store.durable)[k := v]
    ensures SubMap(store.mirror, store.durable) && store.mirror != store.durable
  {
    var _ := store.PutBytes(k, v, false);
    store.Collect(|store.wals|);
    assert store.wals == [];
    EmptyReplay();
    assert !store.Accounted() by {
      assert Le(k, store.warmCursor.value) && k in store.durable && k !in store.scanned && k !in Replay(store.wals);
    }
    hide CachedStore.Valid, CachedStore.Accounted, AtOrAfter, Scanning, Lt;
    while !store.warmed
      invariant store.Valid() && !store.poisoned && store.durable == old(store.durable)[k := v]
      invariant if store.warmed then store.mirror != store.durable else !store.Accounted()
      decreases !store.warmed, |AtOrAfter(store.durable, store.warmCursor)|
    {
      ScanningEnds(store.durable, store.warmCursor, Pages(pages));
      var _ := store.WarmStep(pages);
    }
    MirrorIsPart(store);
  }

  /** Such a run over every core of at least one batch, and a new key below all of it. */
  method WarmMissesKey(durable: map<Key, Value>, k: Key, v: Value, pages: nat) returns (store: CachedStore)
    requires |durable| >= SCAN_BATCH && forall x :: x in durable ==> Lt(k, x)
    ensures fresh(store) && store.Valid() && store.warmed && !store.poisoned
    ensures store.durable == durable[k := v] && SubMap(store.mirror, store.durable) && store.mirror != store.durable
  {
    EmptyReplay();
    store := new CachedStore(durable, []);
    ScanningEnds(durable, None, 1);
    assert AtOrAfter(durable, None) == durable.Keys;
    var done := store.WarmStep(1);
    Irreflexive(k);
    hide CachedStore.Valid, Scanning, Lt;
    CollectDuringScan(store, k, v, pages);
  }

  /** The shortest such core: one batch. */
  method OneBatchSuffices(v: Value) returns (store: CachedStore)
    ensures fresh(store) && store.warmed && |store.durable| == SCAN_BATCH + 1 && store.mirror != store.durable
  {
    var durable: map<Key, Value> := map b: Byte | 0 <= b < SCAN_BATCH :: [1, b] := v;
    assert durable.Keys == BatchKeys(SCAN_BATCH);
    CountBatch(SCAN_BATCH);
    store := WarmMissesKey(durable, [0], v, 1);
    assert durable[[0] := v].Keys == durable.Keys + {[0]};
  }

  ghost function BatchKeys(n: nat): (s: set<Key>)
    requires n <= SCAN_BATCH
  {
    set b: Byte | 0 <= b < n :: [1, b]
  }

  lemma {:induction false} CountBatch(n: nat)
    requires n <= SCAN_BATCH
    ensures |BatchKeys(n)| == n
  {
    if n > 0 {
      CountBatch(n - 1);
      var last: Key := [1, n - 1];
      assert BatchKeys(n) == BatchKeys(n - 1) + {last};
      assert last !in BatchKeys(n - 1);
    }
  }
}

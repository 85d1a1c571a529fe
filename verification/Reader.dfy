/**
 The read-only follower (`src/store/lsm/reader.rs`): it replays newly listed WALs into an
 overlay on every read and lets the overlay shadow the SSTs until it sees an empty list.
 WAL ids are numbered in the order the writer appended them.
 */
module Reader {
  import opened Keys
  import opened Wrappers
  import opened Merge
  import opened Writer
  import opened Replays

  /** What one pass over the listed ids adds: ids already replayed and vanished files add nothing. */
  function Applied(listed: seq<nat>, replayed: set<nat>, store: map<nat, Run>): (t: Table)
    decreases |listed|
  {
    if listed == [] then map[] else
      var id := listed[0];
      var rest := Applied(listed[1..], replayed + {id}, store);
      if id in replayed || id !in store then rest else Last(store[id]) + rest
  }

  /** Ids not replayed yet, in list order. */
  function Missing(listed: seq<nat>, replayed: set<nat>): (r: seq<nat>)
  {
    if listed == [] then [] else
      (if listed[0] in replayed then [] else [listed[0]]) + Missing(listed[1..], replayed)
  }

  lemma {:induction false} MissingApplies(listed: seq<nat>, base: set<nat>, replayed: set<nat>, store: map<nat, Run>)
    requires base <= replayed
    ensures Applied(Missing(listed, base), replayed, store) == Applied(listed, replayed, store)
    decreases |listed|
  {
    if listed != [] {
      var id := listed[0];
      MissingApplies(listed[1..], base, replayed + {id}, store);
      if id in base {
        assert replayed + {id} == replayed;
        assert Missing(listed, base) == Missing(listed[1..], base);
      } else {
        assert Missing(listed, base)[1..] == Missing(listed[1..], base);
      }
    }
  }

  lemma AppliedStep(overlay: Table, ids: seq<nat>, i: nat, replayed: set<nat>, store: map<nat, Run>)
    requires i < |ids|
    ensures var id := ids[i];
            overlay + Applied(ids[i..], replayed, store) ==
            (if id in replayed || id !in store then overlay else overlay + Last(store[id]))
            + Applied(ids[i + 1..], replayed + {id}, store)
  {
    hide Last;
    assert ids[i..][1..] == ids[i + 1..];
  }

  lemma AppliedNothing(overlay: Table, ids: seq<nat>, replayed: set<nat>, store: map<nat, Run>)
    requires ids == []
    ensures overlay + Applied(ids, replayed, store) == overlay
  {
  }

  lemma {:induction false} MissingMembers(listed: seq<nat>, replayed: set<nat>)
    ensures forall id :: id in Missing(listed, replayed) <==> id in listed && id !in replayed
  {
    if listed != [] {
      MissingMembers(listed[1..], replayed);
      assert listed == [listed[0]] + listed[1..];
    }
  }

  class Follower {
    var overlay: Table
    var replayed: set<nat>

    constructor ()
      ensures overlay == map[] && replayed == {}
    {
      overlay, replayed := map[], {};
    }

    /** The poll at the top of every read; `store` holds the WAL files that still exist. */
    method EnsureReplayed(listed: seq<nat>, store: map<nat, Run>)
      modifies this
      ensures listed == [] ==> overlay == map[] && replayed == {}
      ensures listed != [] ==> overlay == old(overlay) + Applied(listed, old(replayed), store)
      ensures listed != [] ==> replayed == old(replayed) + set id | id in listed
    {
      hide Applied, Missing, Last;
      if listed == [] {
        replayed, overlay := {}, map[];
        return;
      }
      var missing := Missing(listed, replayed);
      MissingApplies(listed, replayed, replayed, store);
      MissingMembers(listed, replayed);
      ReplayMissing(missing, store);
    }

    method ReplayMissing(missing: seq<nat>, store: map<nat, Run>)
      modifies this
      ensures overlay == old(overlay) + Applied(missing, old(replayed), store)
      ensures replayed == old(replayed) + set id | id in missing
    {
      hide Applied, Last;
      assert missing[0..] == missing;
      for i := 0 to |missing|
        invariant overlay + Applied(missing[i..], replayed, store) == old(overlay) + Applied(missing, old(replayed), store)
        invariant forall id :: id in replayed <==> id in old(replayed) || id in missing[..i]
      {
        var id := missing[i];
        AppliedStep(overlay, missing, i, replayed, store);
        assert missing[..i + 1] == missing[..i] + [id];
        if id in replayed || id !in store {
          replayed := replayed + {id};
        } else {
          overlay := ApplyMem(overlay, store[id]);
          replayed := replayed + {id};
        }
      }
      assert missing[..|missing|] == missing;
      AppliedNothing(overlay, missing[|missing|..], replayed, store);
    }
  }

  // ---------------------------------------------------------------------------
  // The follower beside a writer
  // ---------------------------------------------------------------------------

  /**
   `log` holds every WAL ever appended; the first `flushed` of them are covered by `files`
   and the first `collected` are no longer listed. `since` is where the overlay last started
   empty, and `seen` the WALs applied to it since, in order; the code keeps neither.
   */
  datatype World = World(
    log: seq<Run>,
    files: Table,
    flushed: nat,
    collected: nat,
    overlay: Table,
    replayed: set<nat>,
    since: nat,
    seen: seq<nat>)

  /**
   `Poll(v, missed)`: between the listing and the last read the WALs before `v` were
   collected, and those in `missed` were gone when their turn came.
   */
  datatype Step = Append(ops: Run) | Flush(n: nat, files: Table) | Collect(n: nat) | Poll(v: nat, missed: set<nat>)

  /** `files` answers like the first `n` WALs. */
  ghost predicate Covers(files: Table, log: seq<Run>, n: nat)
    requires n <= |log|
  {
    forall k :: Val(files, k) == Val(Replay(log[..n]), k)
  }

  ghost predicate Enabled(w: World, step: Step)
  {
    match step
    case Append(_) => true
    case Flush(n, files) => w.flushed <= n <= |w.log| && Covers(files, w.log, n)
    case Collect(n) => w.collected <= n <= w.flushed
    case Poll(v, missed) => w.collected <= v <= w.flushed <= |w.log| && forall id :: id in missed ==> InSpan(id, w.collected, v)
  }

  /** The WAL files that can be read. */
  function Readable(log: seq<Run>, missed: set<nat>): (m: map<nat, Run>)
  {
    map id: nat | id < |log| && id !in missed :: log[id]
  }

  ghost function After(w: World, step: Step): (r: World)
    requires Enabled(w, step)
  {
    match step
    case Append(ops) => w.(log := w.log + [ops])
    case Flush(n, files) => w.(files := files, flushed := n)
    case Collect(n) => w.(collected := n)
    case Poll(v, missed) =>
      var n := |w.log|;
      if w.collected == n then w.(overlay := map[], replayed := {}, since := n, seen := [])
      else
        var listed := Ids(w.collected, n);
        w.(overlay := w.overlay + Applied(listed, w.replayed, Readable(w.log, missed)),
           replayed := w.replayed + (set id | id in listed), collected := v,
           seen := w.seen + Missing(listed, w.replayed + missed))
  }

  // ---------------------------------------------------------------------------
  // What the overlay holds, in every run
  // ---------------------------------------------------------------------------

  /** The overlay is the replay, in order, of exactly the WALs read since the last drop. */
  ghost predicate Inv(w: World)
  {
    && w.since <= w.collected <= w.flushed <= |w.log|
    && Covers(w.files, w.log, w.flushed)
    && (forall id :: id in w.replayed ==> id < |w.log|)
    && (forall id :: InSpan(id, w.collected, |w.log|) && id in w.replayed ==> id in w.seen)
    && Known(w.log, w.seen)
    && w.overlay == Replay(RunsAt(w.log, w.seen))
  }

  lemma {:induction false} SameMissing(ids: seq<nat>, a: set<nat>, b: set<nat>)
    requires forall i :: 0 <= i < |ids| ==> (ids[i] in a <==> ids[i] in b)
    ensures Missing(ids, a) == Missing(ids, b)
  {
    if ids != [] {
      SameMissing(ids[1..], a, b);
    }
  }

  /** A pass over listed ids replays those that are new and can be read. */
  lemma {:induction false} PassReplays(log: seq<Run>, ids: seq<nat>, replayed: set<nat>, missed: set<nat>)
    requires Known(log, ids) && forall i, j :: 0 <= i < j < |ids| ==> ids[i] < ids[j]
    ensures Known(log, Missing(ids, replayed + missed))
    ensures Applied(ids, replayed, Readable(log, missed)) == Replay(RunsAt(log, Missing(ids, replayed + missed)))
    decreases |ids|
  {
    hide Last, Replay;
    NoRuns(log);
    if ids != [] {
      var id, rest := ids[0], ids[1..];
      PassReplays(log, rest, replayed + {id}, missed);
      SameMissing(rest, replayed + {id} + missed, replayed + missed);
      var left := Missing(rest, replayed + missed);
      if id in replayed + missed {
        assert Missing(ids, replayed + missed) == left;
      } else {
        assert Missing(ids, replayed + missed) == [id] + left;
        RunsAtConcat(log, [id], left);
        assert RunsAt(log, [id]) == [log[id]];
        ReplayOne(log[id]);
      }
    }
  }

  lemma AppendKeepsInv(w: World, ops: Run)
    requires Inv(w)
    ensures Inv(After(w, Step.Append(ops)))
  {
    hide Replay, Last;
    RunsAtGrows(w.log, [ops], w.seen);
    assert (w.log + [ops])[..w.flushed] == w.log[..w.flushed];
  }

  lemma PollKeepsInv(w: World, v: nat, missed: set<nat>)
    requires Inv(w) && Enabled(w, Poll(v, missed))
    ensures Inv(After(w, Poll(v, missed)))
    ensures w.collected < |w.log| ==> forall id :: InSpan(id, v, |w.log|) ==> id in After(w, Poll(v, missed)).seen
  {
    hide Applied, Replay, Last, RunsAt, Ids, Covers, Missing;
    if w.collected == |w.log| {
      NoRuns(w.log);
    } else {
      var listed := Ids(w.collected, |w.log|);
      ListedInOrder(w.collected, |w.log|);
      IdsMembers(w.collected, |w.log|);
      PassReplays(w.log, listed, w.replayed, missed);
      RunsAtConcat(w.log, w.seen, Missing(listed, w.replayed + missed));
      MissingMembers(listed, w.replayed + missed);
    }
  }

  lemma ListedInOrder(lo: nat, hi: nat)
    requires lo <= hi
    ensures forall i :: 0 <= i < |Ids(lo, hi)| ==> Ids(lo, hi)[i] < hi
    ensures forall i, j :: 0 <= i < j < |Ids(lo, hi)| ==> Ids(lo, hi)[i] < Ids(lo, hi)[j]
  {
  }

  lemma StepKeepsInv(w: World, step: Step)
    requires Inv(w) && Enabled(w, step)
    ensures Inv(After(w, step))
  {
    hide Applied, Replay, Last;
    match step
    case Append(ops) => AppendKeepsInv(w, ops);
    case Flush(_, _) =>
    case Collect(_) =>
    case Poll(v, missed) => PollKeepsInv(w, v, missed);
  }

  // ---------------------------------------------------------------------------
  // Exactly when a read is right
  // ---------------------------------------------------------------------------

  /**
   The key is not in the overlay, or the WALs after its last applied writer that were not
   applied after it leave its value as that writer left it.
   */
  ghost predicate NotShadowed(w: World, k: Key)
    requires Known(w.log, w.seen)
  {
    LastWriter(w.log, w.seen, k).Some? ==> NotOvertaken(w.log, w.seen, k)
  }

  /** A key no WAL of the overlay writes: the files answer. */
  lemma FilesDecide(w: World, k: Key)
    requires Inv(w) && LastWriter(w.log, w.seen, k).None?
    requires forall id :: InSpan(id, w.collected, |w.log|) ==> id in w.seen
    ensures Val(w.files, k) == Val(Replay(w.log), k)
  {
    hide Last, Replay;
    WriterDecides(w.log, w.seen, k);
    SilentFrom(w.log, w.flushed, k) by {
      forall id | InSpan(id, w.flushed, |w.log|)
        ensures k !in Last(w.log[id])
      {
        assert InSpan(id, w.collected, |w.log|);
        var i :| 0 <= i < |w.seen| && w.seen[i] == id;
      }
    }
    assert w.log == w.log[..w.flushed] + w.log[w.flushed..];
    ReplayConcat(w.log[..w.flushed], w.log[w.flushed..]);
    assert Val(w.files, k) == Val(Replay(w.log[..w.flushed]), k);
  }

  /** Once every listed WAL is in the overlay, a read is right exactly when its key is not shadowed. */
  lemma RightWhenNotShadowed(w: World, k: Key)
    requires Inv(w) && forall id :: InSpan(id, w.collected, |w.log|) ==> id in w.seen
    ensures Val(w.files + w.overlay, k) == Val(Replay(w.log), k) <==> NotShadowed(w, k)
  {
    hide Last, Replay, RunsAt, LastWriter, Covers, NotOvertaken;
    WriterDecides(w.log, w.seen, k);
    if LastWriter(w.log, w.seen, k).None? {
      FilesDecide(w, k);
    } else {
      RightWhenNotOvertaken(w.log, w.seen, k);
    }
  }

  /** A read polls first; after that it is right exactly when its key is not shadowed. */
  lemma PollIsRightWhen(w: World, v: nat, missed: set<nat>, k: Key)
    requires Inv(w) && Enabled(w, Poll(v, missed))
    ensures var r := After(w, Poll(v, missed));
            && Inv(r)
            && (Val(r.files + r.overlay, k) == Val(Replay(r.log), k) <==> NotShadowed(r, k))
  {
    hide NotShadowed, Replay, Applied, Missing;
    PollKeepsInv(w, v, missed);
    RightWhenNotShadowed(After(w, Poll(v, missed)), k);
  }

  // ---------------------------------------------------------------------------
  // Opening
  // ---------------------------------------------------------------------------

  datatype Refusal = WalAbsent

  /** One attempt over a list: which ids were absent, and the table after the others. */
  method ReplayPass(ids: seq<nat>, store: map<nat, Run>, table: Table) returns (absent: bool, r: Table)
    ensures absent <==> exists i :: 0 <= i < |ids| && ids[i] !in store
    ensures r == table + Replay(Present(ids, store))
  {
    hide Replay, Last;
    r, absent := table, false;
    EmptyReplay();
    assert ids[..0] == [];
    for i := 0 to |ids|
      invariant absent <==> exists j :: 0 <= j < i && ids[j] !in store
      invariant r == table + Replay(Present(ids[..i], store))
    {
      PresentSnoc(ids, i, store);
      if ids[i] in store {
        ReplaySnoc(Present(ids[..i], store), store[ids[i]]);
        PlusAssoc(table, Replay(Present(ids[..i], store)), Last(store[ids[i]]));
        r := ApplyMem(r, store[ids[i]]);
      } else {
        assert Present(ids[..i + 1], store) == Present(ids[..i], store);
        absent := true;
      }
    }
    assert ids[..|ids|] == ids;
  }

  /** The listed WALs that can be read, in list order. */
  function Present(ids: seq<nat>, store: map<nat, Run>): (runs: seq<Run>)
  {
    if ids == [] then [] else
      var before := Present(ids[..|ids| - 1], store);
      if ids[|ids| - 1] in store then before + [store[ids[|ids| - 1]]] else before
  }

  lemma PresentSnoc(ids: seq<nat>, i: nat, store: map<nat, Run>)
    requires i < |ids|
    ensures Present(ids[..i + 1], store) == Present(ids[..i], store) + if ids[i] in store then [store[ids[i]]] else []
  {
    assert ids[..i + 1][..i] == ids[..i];
  }

  /**
   The replay of an opening: when a listed WAL is gone the list is refreshed and replayed on
   top of what the first attempt applied. `first` and `second` are the files the attempts can read.
   */
  method ReplayListed(listed: seq<nat>, first: map<nat, Run>, relisted: seq<nat>, second: map<nat, Run>)
    returns (r: Result<Table, Refusal>)
    ensures var stale := exists i :: 0 <= i < |listed| && listed[i] !in first;
            && (r.Err? <==> stale && exists i :: 0 <= i < |relisted| && relisted[i] !in second)
            && (r.Ok? ==> r.value == Replay(Present(listed, first)) + if stale then Replay(Present(relisted, second)) else map[])
  {
    hide Replay, Present;
    var ids, store, table := listed, first, map[];
    for attempt := 0 to 2
      invariant attempt == 0 ==> ids == listed && store == first && table == map[]
      invariant attempt > 0 ==> ids == relisted && store == second && table == Replay(Present(listed, first))
      invariant attempt > 0 ==> exists i :: 0 <= i < |listed| && listed[i] !in first
      invariant attempt < 2
    {
      var absent;
      absent, table := ReplayPass(ids, store, table);
      if !absent {
        return Ok(table);
      }
      if attempt == 1 {
        return Err(WalAbsent);
      }
      ids, store := relisted, second;
    }
    return Ok(table);
  }

  lemma {:induction false} PresentIsMissing(log: seq<Run>, ids: seq<nat>, missed: set<nat>)
    requires Known(log, ids)
    ensures Known(log, Missing(ids, missed)) && Present(ids, Readable(log, missed)) == RunsAt(log, Missing(ids, missed))
    decreases |ids|
  {
    if ids != [] {
      var n := |ids| - 1;
      PresentIsMissing(log, ids[..n], missed);
      MissingSnoc(ids, missed);
    }
  }

  lemma {:induction false} MissingSnoc(ids: seq<nat>, missed: set<nat>)
    requires ids != []
    ensures var n := |ids| - 1;
            Missing(ids, missed) == Missing(ids[..n], missed) + if ids[n] in missed then [] else [ids[n]]
    decreases |ids|
  {
    var n := |ids| - 1;
    if n == 0 {
      assert ids[..0] == [] && ids[1..] == [];
    } else {
      var rest := ids[1..];
      MissingSnoc(rest, missed);
      var head, tail := if ids[0] in missed then [] else [ids[0]], if ids[n] in missed then [] else [ids[n]];
      assert ids[..n][1..] == rest[..n - 1] && rest[n - 1] == ids[n];
      assert Missing(ids[..n], missed) == head + Missing(rest[..n - 1], missed);
      assert Missing(ids, missed) == head + (Missing(rest[..n - 1], missed) + tail);
    }
  }

  /**
   A follower that has just opened. It listed the WALs `c` to `n`, and those in `missed` were
   gone when their turn came; if there were any, it also applied the whole refreshed list.
   The code keeps only the first list as replayed.
   */
  ghost predicate OpenedOver(w: World, c: nat, n: nat, missed: set<nat>)
  {
    && c <= n <= |w.log| && c <= w.collected <= w.flushed <= |w.log| && Covers(w.files, w.log, w.flushed)
    && (forall id :: id in missed ==> InSpan(id, c, w.collected) && id < n)
    && w.since == c && (forall id :: id in w.replayed <==> InSpan(id, c, n))
    && w.seen == Missing(Ids(c, n), missed) + (if missed == {} then [] else Ids(w.collected, |w.log|))
    && Known(w.log, w.seen) && w.overlay == Replay(RunsAt(w.log, w.seen))
  }

  /** The overlay of such a follower is what `ReplayListed` returns. */
  lemma OpenedReplays(w: World, c: nat, n: nat, missed: set<nat>)
    requires OpenedOver(w, c, n, missed)
    ensures w.overlay == Replay(Present(Ids(c, n), Readable(w.log, missed)))
                         + if missed == {} then map[] else Replay(Present(Ids(w.collected, |w.log|), Readable(w.log, {})))
  {
    hide Replay, RunsAt, Present, Covers, Ids, Missing;
    ListedInOrder(c, n);
    ListedInOrder(w.collected, |w.log|);
    PresentIsMissing(w.log, Ids(c, n), missed);
    PresentIsMissing(w.log, Ids(w.collected, |w.log|), {});
    NoneMissing(Ids(w.collected, |w.log|));
    var first := Missing(Ids(c, n), missed);
    if missed == {} {
      assert first + [] == first;
    } else {
      RunsAtConcat(w.log, first, Ids(w.collected, |w.log|));
    }
  }

  lemma {:induction false} NoneMissing(ids: seq<nat>)
    ensures Missing(ids, {}) == ids
  {
    if ids != [] {
      NoneMissing(ids[1..]);
    }
  }

  lemma OpenedInv(w: World, c: nat, n: nat, missed: set<nat>)
    requires OpenedOver(w, c, n, missed)
    ensures Inv(w)
  {
    hide Replay, RunsAt, Covers, Ids, Missing;
    IdsMembers(c, n);
    MissingMembers(Ids(c, n), missed);
  }

  /**
   Right after the opening, with every listed WAL applied: a key reads as the log has it
   exactly when no WAL collected between two reads shadows it.
   */
  lemma OpeningIsRightWhen(w: World, c: nat, n: nat, missed: set<nat>, k: Key)
    requires OpenedOver(w, c, n, missed) && (missed == {} ==> n == |w.log|)
    ensures Val(w.files + w.overlay, k) == Val(Replay(w.log), k) <==> NotShadowed(w, k)
    ensures missed == {} ==> Val(w.files + w.overlay, k) == Val(Replay(w.log), k)
  {
    hide Replay, RunsAt, Covers, Ids, Missing, NotShadowed;
    OpenedInv(w, c, n, missed);
    IdsMembers(c, n);
    IdsMembers(w.collected, |w.log|);
    MissingMembers(Ids(c, n), missed);
    RightWhenNotShadowed(w, k);
    if missed == {} {
      NoneMissing(Ids(c, n));
      ListedInOrder(c, n);
      assert w.seen == Ids(c, n) && forall i :: 0 <= i < |w.seen| ==> w.seen[i] in w.seen;
      AllAppliedInOrder(w.log, w.seen, c, k);
      NotShadowedWhenNotOvertaken(w, k);
    }
  }

  lemma NotShadowedWhenNotOvertaken(w: World, k: Key)
    requires Known(w.log, w.seen) && (LastWriter(w.log, w.seen, k).Some? ==> NotOvertaken(w.log, w.seen, k))
    ensures NotShadowed(w, k)
  {
  }

  /** Ascending ids that leave nothing out from `lo` on: nothing is overtaken. */
  lemma AllAppliedInOrder(log: seq<Run>, ids: seq<nat>, lo: nat, k: Key)
    requires Known(log, ids) && (forall i, j :: 0 <= i < j < |ids| ==> ids[i] < ids[j])
    requires (forall i :: 0 <= i < |ids| ==> lo <= ids[i]) && forall id :: InSpan(id, lo, |log|) ==> id in ids
    ensures LastWriter(log, ids, k).Some? ==> NotOvertaken(log, ids, k)
  {
    hide Replay, Last, LastWriter, Unseen;
    var p := LastWriter(log, ids, k);
    if p.Some? {
      var a, later := ids[p.value], ids[p.value + 1..];
      forall id | InSpan(id, a + 1, |log|)
        ensures id in later
      {
        assert InSpan(id, lo, |log|);
        var i :| 0 <= i < |ids| && ids[i] == id;
        assert later[i - p.value - 1] == id;
      }
      NothingUnseen(log, later, a + 1);
      EmptyReplay();
    }
  }

  /**
   Two WALs on one key are listed. The first is read, both are collected, the second is
   gone, and the refreshed list is empty: the older value shadows the file.
   */
  lemma StaleOpening(k: Key, a: Value, b: Value, w: World)
    requires a != b
    requires w == World([PutOnce(k, a), PutOnce(k, b)], map[k := Some(b)], 2, 2, map[k := Some(a)], {0, 1}, 0, [0])
    ensures OpenedOver(w, 0, 2, {1})
    ensures Val(w.files + w.overlay, k) == Some(a) && Val(Replay(w.log), k) == Some(b)
  {
    var x, y := PutOnce(k, a), PutOnce(k, b);
    LastOnce(k, a);
    LastOnce(k, b);
    ReplayOne(x);
    ReplaySnoc([x], y);
    assert [x] + [y] == w.log && w.log[..2] == w.log;
    hide Last, PutOnce, Replay;
    assert Ids(0, 2) == [0, 1] && Ids(2, 2) == [];
    assert [0, 1][1..] == [1] && [1][1..] == [];
    assert Missing([0, 1], {1}) == [0] + Missing([1], {1});
    assert RunsAt(w.log, [0]) == [x];
  }

  // ---------------------------------------------------------------------------
  // Whole runs
  // ---------------------------------------------------------------------------

  ghost predicate Reaches(w: World, steps: seq<Step>, t: World)
    decreases |steps|
  {
    if steps == [] then w == t else Enabled(w, steps[0]) && Reaches(After(w, steps[0]), steps[1..], t)
  }

  lemma {:induction false} RunsKeepInv(w: World, steps: seq<Step>, t: World)
    requires Inv(w) && Reaches(w, steps, t)
    ensures Inv(t)
    decreases |steps|
  {
    hide Inv, Enabled, After;
    if steps != [] {
      StepKeepsInv(w, steps[0]);
      RunsKeepInv(After(w, steps[0]), steps[1..], t);
    }
  }

  /**
   In every run of appends, flushes, collections and polls from any opening, with
   collections between any two reads: a read, which polls first, answers with everything
   appended if and only if its key is not shadowed.
   */
  lemma RunsAreRightWhen(w: World, c: nat, n: nat, gone: set<nat>, steps: seq<Step>, t: World, v: nat, missed: set<nat>, k: Key)
    requires OpenedOver(w, c, n, gone) && Reaches(w, steps, t) && Enabled(t, Poll(v, missed))
    ensures var r := After(t, Poll(v, missed));
            && Inv(r)
            && (Val(r.files + r.overlay, k) == Val(Replay(r.log), k) <==> NotShadowed(r, k))
  {
    hide Reaches, NotShadowed, OpenedOver;
    OpenedInv(w, c, n, gone);
    RunsKeepInv(w, steps, t);
    PollIsRightWhen(t, v, missed, k);
  }

  // ---------------------------------------------------------------------------
  // Runs in which no WAL escapes
  // ---------------------------------------------------------------------------

  ghost predicate AllSeen(w: World, lo: nat, hi: nat)
  {
    forall id :: InSpan(id, lo, hi) ==> id in w.seen
  }

  /**
   Every WAL is replayed before it is collected, or the whole list is collected and the
   empty list is polled before the next append.
   */
  ghost predicate Tame(w: World, step: Step)
  {
    match step
    case Append(_) => AllSeen(w, w.since, w.collected)
    case Collect(n) => AllSeen(w, w.collected, n) || n == |w.log|
    case Poll(v, _) => AllSeen(w, w.collected, v) || w.collected == |w.log|
    case Flush(_, _) => true
  }

  ghost predicate NoneEscaped(w: World)
  {
    AllSeen(w, w.since, w.collected) || w.collected == |w.log|
  }

  /** The overlay was filled in the order of the log, and nothing is replayed twice. */
  ghost predicate InOrder(w: World)
  {
    && (forall i, j :: 0 <= i < j < |w.seen| ==> w.seen[i] < w.seen[j])
    && (forall i :: 0 <= i < |w.seen| ==> w.since <= w.seen[i])
    && (forall i :: 0 <= i < |w.seen| ==> w.seen[i] in w.replayed)
    && (forall i, id :: 0 <= i < |w.seen| && InSpan(id, w.collected, |w.log|) && id !in w.replayed ==> w.seen[i] < id)
  }

  lemma {:induction false} MissingAscends(ids: seq<nat>, s: set<nat>)
    requires forall i, j :: 0 <= i < j < |ids| ==> ids[i] < ids[j]
    ensures forall i, j :: 0 <= i < j < |Missing(ids, s)| ==> Missing(ids, s)[i] < Missing(ids, s)[j]
  {
    if ids != [] {
      MissingAscends(ids[1..], s);
      MissingMembers(ids[1..], s);
      var left := Missing(ids[1..], s);
      forall i | 0 <= i < |left|
        ensures ids[0] < left[i]
      {
        assert left[i] in ids[1..];
      }
    }
  }

  lemma PollKeepsOrder(w: World, v: nat, missed: set<nat>)
    requires Inv(w) && InOrder(w) && Enabled(w, Poll(v, missed))
    ensures InOrder(After(w, Poll(v, missed)))
  {
    hide Applied, Replay, RunsAt, Covers, Ids, Missing;
    if w.collected < |w.log| {
      var listed := Ids(w.collected, |w.log|);
      var got := Missing(listed, w.replayed + missed);
      ListedInOrder(w.collected, |w.log|);
      IdsMembers(w.collected, |w.log|);
      MissingMembers(listed, w.replayed + missed);
      MissingAscends(listed, w.replayed + missed);
      forall i | 0 <= i < |got|
        ensures InSpan(got[i], w.collected, |w.log|) && got[i] !in w.replayed && got[i] in listed
      {
        assert got[i] in got;
      }
      Ascending(w.seen, got);
      var r := After(w, Poll(v, missed));
      assert r.seen == w.seen + got && r.replayed == w.replayed + set id | id in listed;
      assert r.since == w.since && r.collected == v && r.log == w.log;
      hide After, Missing, Inv;
      forall i | 0 <= i < |r.seen|
        ensures r.since <= r.seen[i] && r.seen[i] in r.replayed
      {
        assert r.seen[i] == if i < |w.seen| then w.seen[i] else got[i - |w.seen|];
      }
      assert forall id :: InSpan(id, v, |w.log|) ==> InSpan(id, w.collected, |w.log|) && id in listed;
    }
  }

  lemma Ascending(a: seq<nat>, b: seq<nat>)
    requires forall i, j :: 0 <= i < j < |a| ==> a[i] < a[j]
    requires forall i, j :: 0 <= i < j < |b| ==> b[i] < b[j]
    requires forall i, j :: 0 <= i < |a| && 0 <= j < |b| ==> a[i] < b[j]
    ensures forall i, j :: 0 <= i < j < |a + b| ==> (a + b)[i] < (a + b)[j]
  {
  }

  lemma StepKeepsTame(w: World, step: Step)
    requires Inv(w) && InOrder(w) && NoneEscaped(w) && Enabled(w, step) && Tame(w, step)
    ensures NoneEscaped(After(w, step)) && InOrder(After(w, step))
  {
    hide Applied, Replay, Last, RunsAt, Covers, Missing, Ids;
    match step
    case Append(ops) => AppendKeepsTame(w, ops);
    case Poll(v, missed) =>
      hide InOrder;
      PollKeepsOrder(w, v, missed);
      PollLosesNone(w, v, missed);
    case Collect(n) => CollectKeepsTame(w, n);
    case Flush(_, _) =>
  }

  lemma AppendKeepsTame(w: World, ops: Run)
    requires Inv(w) && InOrder(w) && Tame(w, Step.Append(ops))
    ensures NoneEscaped(After(w, Step.Append(ops))) && InOrder(After(w, Step.Append(ops)))
  {
    hide Replay, RunsAt, Covers;
    assert |w.log| !in w.replayed;
  }

  lemma CollectKeepsTame(w: World, n: nat)
    requires InOrder(w) && NoneEscaped(w) && Enabled(w, Step.Collect(n)) && Tame(w, Step.Collect(n))
    requires w.since <= w.collected && w.flushed <= |w.log|
    ensures NoneEscaped(After(w, Step.Collect(n))) && InOrder(After(w, Step.Collect(n)))
  {
    assert forall id :: InSpan(id, n, |w.log|) ==> InSpan(id, w.collected, |w.log|);
    assert forall id :: InSpan(id, w.since, n) ==> InSpan(id, w.since, w.collected) || InSpan(id, w.collected, n);
  }

  lemma PollLosesNone(w: World, v: nat, missed: set<nat>)
    requires NoneEscaped(w) && w.since <= w.collected && Enabled(w, Poll(v, missed)) && Tame(w, Poll(v, missed))
    ensures NoneEscaped(After(w, Poll(v, missed)))
  {
    hide Applied, Missing, Ids;
    if w.collected < |w.log| {
      assert forall id :: id in w.seen ==> id in After(w, Poll(v, missed)).seen;
      assert forall id :: InSpan(id, w.since, v) ==> InSpan(id, w.since, w.collected) || InSpan(id, w.collected, v);
    }
  }

  ghost predicate TameRun(w: World, steps: seq<Step>, t: World)
    decreases |steps|
  {
    if steps == [] then w == t else
      Enabled(w, steps[0]) && Tame(w, steps[0]) && TameRun(After(w, steps[0]), steps[1..], t)
  }

  lemma {:induction false} TameRunsKeep(w: World, steps: seq<Step>, t: World)
    requires Inv(w) && InOrder(w) && NoneEscaped(w) && TameRun(w, steps, t)
    ensures Inv(t) && InOrder(t) && NoneEscaped(t)
    decreases |steps|
  {
    hide Inv, Enabled, After, Tame, NoneEscaped, InOrder;
    if steps != [] {
      StepKeepsInv(w, steps[0]);
      StepKeepsTame(w, steps[0]);
      TameRunsKeep(After(w, steps[0]), steps[1..], t);
    }
  }

  /** A follower that opened without a collection in between. */
  ghost predicate Opened(w: World)
  {
    OpenedOver(w, w.collected, |w.log|, {})
  }

  lemma OpenedInOrder(w: World)
    requires Opened(w)
    ensures Inv(w) && InOrder(w) && NoneEscaped(w)
  {
    hide Replay, RunsAt, Covers, Ids, Missing;
    OpenedInv(w, w.collected, |w.log|, {});
    NoneMissing(Ids(w.collected, |w.log|));
    ListedInOrder(w.collected, |w.log|);
    IdsMembers(w.collected, |w.log|);
    assert w.seen == Ids(w.collected, |w.log|);
    assert forall i :: 0 <= i < |w.seen| ==> w.seen[i] in w.seen;
  }

  /**
   In every run in which no WAL escapes the follower, each read answers with everything
   appended. An overlay is dropped only when the files alone already answer so.
   */
  lemma RunsAreFresh(w: World, steps: seq<Step>, t: World, k: Key)
    requires Opened(w) && TameRun(w, steps, t)
    ensures t.collected <= t.flushed <= |t.log|
    ensures var r := After(t, Poll(t.collected, {}));
            && Val(r.files + r.overlay, k) == Val(Replay(t.log), k)
            && (t.collected == |t.log| ==> Val(t.files, k) == Val(Replay(t.log), k))
  {
    hide TameRun, Opened, InOrder, NoneEscaped;
    OpenedInOrder(w);
    TameRunsKeep(w, steps, t);
    TamePollIsFresh(t, k);
    assert t.log[..|t.log|] == t.log;
  }

  lemma TamePollIsFresh(t: World, k: Key)
    requires Inv(t) && InOrder(t) && NoneEscaped(t)
    ensures var r := After(t, Poll(t.collected, {})); Val(r.files + r.overlay, k) == Val(Replay(t.log), k)
  {
    hide NotOvertaken, Applied, Replay, Last, RunsAt, Covers, Ids, Missing, InOrder;
    PollIsRightWhen(t, t.collected, {}, k);
    PollKeepsOrder(t, t.collected, {});
    var r := After(t, Poll(t.collected, {}));
    if t.collected < |t.log| {
      AllSeenAfter(t);
      OrderIs(r);
      AllAppliedInOrder(r.log, r.seen, r.since, k);
    } else {
      NoWriter(r.log, k);
    }
  }

  lemma OrderIs(r: World)
    requires InOrder(r)
    ensures forall i, j :: 0 <= i < j < |r.seen| ==> r.seen[i] < r.seen[j]
    ensures forall i :: 0 <= i < |r.seen| ==> r.since <= r.seen[i]
  {
  }

  lemma NoWriter(log: seq<Run>, k: Key)
    ensures LastWriter(log, [], k).None?
  {
  }

  lemma AllSeenAfter(t: World)
    requires Inv(t) && NoneEscaped(t) && t.collected < |t.log|
    ensures var r := After(t, Poll(t.collected, {})); forall id :: InSpan(id, r.since, |r.log|) ==> id in r.seen
  {
    hide Applied, Replay, Last, RunsAt, Covers, Ids, Missing;
    PollKeepsInv(t, t.collected, {});
    var r := After(t, Poll(t.collected, {}));
    forall id | InSpan(id, r.since, |r.log|)
      ensures id in r.seen
    {
      if id < t.collected {
        assert InSpan(id, t.since, t.collected);
      } else {
        assert InSpan(id, t.collected, |t.log|);
      }
    }
  }

  // ---------------------------------------------------------------------------
  // A WAL that escapes
  // ---------------------------------------------------------------------------

  lemma ReachesMore(w: World, step: Step, rest: seq<Step>, t: World)
    requires Enabled(w, step) && Reaches(After(w, step), rest, t)
    ensures Reaches(w, [step] + rest, t)
  {
    hide Enabled, After;
    assert ([step] + rest)[1..] == rest;
  }

  /**
   One WAL is replayed; the next, on the same key, is flushed and collected unseen; a
   third, on another key, is appended. This is a run from an opened follower. The poll
   applies only the third, and the first still shadows the file that holds the second.
   */
  lemma EscapedWalIsShadowed(k: Key, j: Key, a: Value, b: Value, w: World, t: World)
    requires k != j && a != b
    requires w == World([PutOnce(k, a)], map[], 0, 0, map[k := Some(a)], {0}, 0, [0])
    requires t == w.(log := [PutOnce(k, a), PutOnce(k, b), PutOnce(j, a)], files := map[k := Some(b)], flushed := 2, collected := 2)
    ensures Opened(w)
    ensures Reaches(w, [Step.Append(PutOnce(k, b)), Flush(2, map[k := Some(b)]), Step.Collect(2), Step.Append(PutOnce(j, a))], t)
    ensures var r := After(t, Poll(2, {})); Val(r.files + r.overlay, k) == Some(a) && Val(Replay(t.log), k) == Some(b)
  {
    var x, y, z := PutOnce(k, a), PutOnce(k, b), PutOnce(j, a);
    LastOnce(k, a);
    LastOnce(k, b);
    LastOnce(j, a);
    ReplayOne(x);
    EmptyReplay();
    ReplaySnoc([x], y);
    ReplaySnoc([x, y], z);
    assert [x] + [y] == [x, y] && [x, y] + [z] == t.log;
    hide Last, PutOnce, Replay, Opened;
    EscapedOpened(w, x);
    var w1 := w.(log := [x, y]);
    var w2 := w1.(files := map[k := Some(b)], flushed := 2);
    var w3 := w2.(collected := 2);
    assert [x, y][..2] == [x, y];
    assert w3.log + [z] == t.log;
    assert Reaches(t, [], t);
    ReachesMore(w3, Step.Append(z), [], t);
    ReachesMore(w2, Step.Collect(2), [Step.Append(z)], t);
    ReachesMore(w1, Flush(2, map[k := Some(b)]), [Step.Collect(2), Step.Append(z)], t);
    ReachesMore(w, Step.Append(y), [Flush(2, map[k := Some(b)]), Step.Collect(2), Step.Append(z)], t);
    EscapedPoll(t, z);
  }

  lemma EscapedOpened(w: World, x: Run)
    requires w.log == [x] && w.flushed == w.collected == 0 && w.files == map[] && w.overlay == Replay([x])
    requires w.replayed == {0} && w.since == 0 && w.seen == [0]
    ensures Opened(w)
  {
    EmptyReplay();
    hide Replay;
    assert w.log[..0] == [];
    assert Ids(0, 1) == [0] && [0][1..] == [];
    assert Missing([0], {}) == [0] + Missing([], {});
    assert RunsAt(w.log, [0]) == [x];
  }

  lemma EscapedPoll(t: World, z: Run)
    requires |t.log| == 3 && t.log[2] == z && t.collected == 2 && t.flushed == 2 && t.replayed == {0}
    ensures After(t, Poll(2, {})).overlay == t.overlay + Last(z) && After(t, Poll(2, {})).files == t.files
  {
    hide Last;
    var store := Readable(t.log, {});
    assert Ids(2, 3) == [2] && [2][1..] == [];
    assert Applied([2], {0}, store) == Last(z) + Applied([], {0, 2}, store);
  }
}

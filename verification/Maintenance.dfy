/**
 What the writer does after each durable write (`maintain_after_write` in
 `src/store/lsm/store.rs`), when no call fails: flush a large memtable, compact, and with
 200 listed WALs flush whatever is left and collect them. Every part is a run of `Writer`.
 */
module Maintenance {
  import opened Keys
  import opened Rows
  import opened Merge
  import opened Codec
  import opened Compaction
  import opened CompactionPlan
  import opened Writer

  // ---------------------------------------------------------------------------
  // The size of a memtable
  // ---------------------------------------------------------------------------

  function EntrySize(k: Key, v: Slot): (n: nat)
  {
    |k| + (if v.Some? then |v.value| else 0) + 8
  }

  ghost function Estimate(t: Table): (n: nat)
    decreases |t|
  {
    if t == map[] then 0 else
      var k :| k in t;
      EntrySize(k, t[k]) + Estimate(t - {k})
  }

  lemma {:induction false} EstimateSplit(t: Table, k: Key)
    requires k in t
    ensures Estimate(t) == EntrySize(k, t[k]) + Estimate(t - {k})
    decreases |t|
  {
    var c :| c in t && Estimate(t) == EntrySize(c, t[c]) + Estimate(t - {c});
    if c != k {
      EstimateSplit(t - {c}, k);
      EstimateSplit(t - {k}, c);
      assert (t - {c}) - {k} == (t - {k}) - {c};
    }
  }

  /** The estimate is the number of bytes the records of the table take up. */
  lemma {:induction false} EstimateIsEncoded(rows: Run, t: Table)
    requires Lists(rows, t) && forall i :: 0 <= i < |rows| ==> Representable(rows[i])
    ensures Estimate(t) == |EncodeRows(rows)|
    decreases |rows|
  {
    hide EncodeRow;
    if rows == [] {
      assert t == map[];
    } else {
      ListsTail(rows, t);
      EstimateIsEncoded(rows[1..], t - {rows[0].key});
      EstimateSplit(t, rows[0].key);
    }
  }

  method EstimateOf(t: Table) returns (n: nat)
    ensures n == Estimate(t)
  {
    n := 0;
    var left := t;
    while left != map[]
      invariant n + Estimate(left) == Estimate(t)
      decreases |left|
    {
      var k :| k in left;
      EstimateSplit(left, k);
      n := n + EntrySize(k, left[k]);
      left := left - {k};
    }
  }

  // ---------------------------------------------------------------------------
  // Runs
  // ---------------------------------------------------------------------------

  lemma {:induction false} ReachesConcat(s: State, a: seq<Step>, t: State, b: seq<Step>, u: State)
    requires Reaches(s, a, t) && Reaches(t, b, u)
    ensures Reaches(s, a + b, u)
    decreases |a|
  {
    hide Enabled, After;
    if a == [] {
      assert a + b == b;
    } else {
      ReachesConcat(After(s, a[0]), a[1..], t, b, u);
      assert (a + b)[1..] == a[1..] + b;
    }
  }

  ghost predicate NoWrites(steps: seq<Step>)
  {
    forall i :: 0 <= i < |steps| ==> !steps[i].Append? && !steps[i].Stage? && !steps[i].Drain? && !steps[i].Crash?
  }

  /** Steps that write nothing meet no staged key, and change neither what is acknowledged nor what is staged. */
  lemma {:induction false} QuietRun(s: State, steps: seq<Step>, t: State, k: Key)
    requires Reaches(s, steps, t) && NoWrites(steps)
    ensures CalmRun(s, steps, k) && t.committed == s.committed && t.buffer == s.buffer
    decreases |steps|
  {
    hide Stack, Replay, Last, Layout;
    if steps != [] {
      QuietRun(After(s, steps[0]), steps[1..], t, k);
    }
  }

  /** Such a run changes no read and no restart. */
  lemma QuietRunKeeps(s: State, steps: seq<Step>, t: State, k: Key)
    requires FilesInv(s) && KeyInv(s, k) && Reaches(s, steps, t) && NoWrites(steps)
    ensures FilesInv(t) && KeyInv(t, k)
    ensures Val(Stack(t.ssts) + t.mem, k) == Val(Stack(s.ssts) + s.mem, k)
  {
    hide Reaches, Stack, Replay, Last, FilesInv, Recoverable, PhaseFits, Settled;
    QuietRun(s, steps, t, k);
    RunsKeepInv(s, steps, t, k);
  }

  // ---------------------------------------------------------------------------
  // Flush
  // ---------------------------------------------------------------------------

  lemma EndsOf(rows: Run, t: Table, l0: SstRec)
    requires Lists(rows, t) && rows != [] && l0.table == t && l0.minKey == rows[0].key && l0.maxKey == rows[|rows| - 1].key
    ensures CoversTable(l0)
  {
    hide Lt;
    forall k | k in t
      ensures InFile(l0, k)
    {
      assert Row(k, t[k]) in rows;
      Asymmetric(k, l0.minKey);
      Asymmetric(k, l0.maxKey);
      Irreflexive(k);
    }
  }

  lemma FlushRun(s: State, l0: SstRec, r: State)
    requires s.phase.Idle? && s.mem != map[] && l0.table == s.mem && l0.level == 0 && l0.seqNo == s.nextSst && CoversTable(l0)
    requires r == s.(mem := Discarded(s.mem, s.mem), ssts := s.ssts + [l0], nextSst := s.nextSst + 1, flushed := true)
    ensures Reaches(s, [Snapshot, Publish(l0), Discard], r)
  {
    hide CoversTable, Discarded;
    ReachesThree(s, Snapshot, Publish(l0), Discard);
  }

  /** A table that is still what was flushed is discarded whole. */
  lemma DiscardAll(t: Table)
    ensures Discarded(t, t) == map[]
  {
  }

  /** The memtable becomes one level-0 file when it is large or the flush is forced, and otherwise stays. */
  method Flush(s: State, force: bool, size: nat) returns (r: State, ghost steps: seq<Step>)
    requires s.phase.Idle?
    ensures Reaches(s, steps, r) && NoWrites(steps) && r.phase.Idle? && r.wals == s.wals
    ensures s.mem != map[] && (force || Estimate(s.mem) >= 32 * 1024 * 1024) ==>
              && r.mem == map[] && r.flushed && |r.ssts| == |s.ssts| + 1 && r.ssts[..|s.ssts|] == s.ssts
              && r.ssts[|s.ssts|].level == 0 && r.ssts[|s.ssts|].seqNo == s.nextSst && r.ssts[|s.ssts|].table == s.mem
    ensures s.mem != map[] && !force && Estimate(s.mem) < 32 * 1024 * 1024 ==> r == s
    ensures s.mem == map[] ==> r == s.(flushed := true)
  {
    hide Discarded, CoversTable, Lists;
    steps := [];
    if s.mem == map[] {
      r, steps := s.(flushed := true), [FlushNothing];
      ReachesOne(s, FlushNothing, r);
      return;
    }
    var est := EstimateOf(s.mem);
    if !force && est < 32 * 1024 * 1024 {
      assert Reaches(s, [], s);
      return s, [];
    }
    var rows := InOrder(s.mem);
    ListingLists(s.mem);
    SomeRows(rows, s.mem);
    var l0 := SstRec(s.nextSst, 0, rows[0].key, rows[|rows| - 1].key, size, s.mem);
    EndsOf(rows, s.mem, l0);
    var left := DiscardFlushed(s.mem, s.mem);
    DiscardAll(s.mem);
    r := s.(mem := left, ssts := s.ssts + [l0], nextSst := s.nextSst + 1, flushed := true);
    steps := [Snapshot, Publish(l0), Discard];
    FlushRun(s, l0, r);
  }

  lemma SomeRows(rows: Run, t: Table)
    requires Lists(rows, t) && t != map[]
    ensures rows != []
  {
    var k :| k in t;
    assert Row(k, t[k]) in rows;
  }

  // ---------------------------------------------------------------------------
  // Compaction
  // ---------------------------------------------------------------------------

  /** A finished pass is a step of the writer. */
  lemma PassIsStep(s: State, plan: Plan, r: seq<SstRec>)
    requires FilesInv(s) && s.phase.Idle? && PassDone(s.ssts, s.nextSst, plan, r)
    ensures Enabled(s, Compact(plan.pick, plan.l1))
    ensures After(s, Compact(plan.pick, plan.l1)) == s.(ssts := r, nextSst := s.nextSst + 1)
  {
    hide Planned, Layout, Replacement, Replaced, Selection, Tight;
    PlannedSelects(s.ssts, plan.pick, plan.lo, plan.hi, plan.order, plan.w);
  }

  /** One pass on the writer's files. */
  method CompactFiles(s: State, size: nat) returns (r: State, ghost steps: seq<Step>)
    requires FilesInv(s) && s.phase.Idle?
    ensures Reaches(s, steps, r) && NoWrites(steps) && FilesInv(r) && r == s.(ssts := r.ssts, nextSst := r.nextSst)
    ensures |Level(r.ssts, 0)| < 4 && BytesAt(r.ssts, Level(r.ssts, 0)) <= 128 * 1024 * 1024
    ensures AtRest(s.ssts) ==> r == s
    ensures !AtRest(s.ssts) ==> Level(r.ssts, 0) == {}
  {
    hide Layout, PassDone, AtRest, Triggered, Stack, Live, Count;
    TriggeredIs(s.ssts);
    var ssts, plan := CompactInner(s.ssts, s.nextSst, size);
    if !Triggered(s.ssts) {
      assert Reaches(s, [], s);
      return s, [];
    }
    r := s.(ssts := ssts, nextSst := s.nextSst + 1);
    PassIsStep(s, plan, ssts);
    steps := [Compact(plan.pick, plan.l1)];
    ReachesOne(s, Compact(plan.pick, plan.l1), r);
  }

  // ---------------------------------------------------------------------------
  // The whole of it
  // ---------------------------------------------------------------------------

  /**
   Maintenance leaves level 0 small, collects all WALs once 200 are listed, unless there is
   no file, and changes neither a read nor what a restart brings back.
   */
  method Maintain(s: State, size0: nat, size1: nat, size2: nat) returns (r: State, ghost steps: seq<Step>)
    requires FilesInv(s) && s.phase.Idle?
    ensures Reaches(s, steps, r) && NoWrites(steps) && FilesInv(r) && r.phase.Idle?
    ensures |s.wals| >= 200 ==> r.mem == map[] && (r.ssts != [] ==> r.wals == [])
    ensures |s.wals| < 200 ==> r.wals == s.wals && |Level(r.ssts, 0)| < 4
    ensures forall k :: KeyInv(s, k) ==> KeyInv(r, k) && Val(Stack(r.ssts) + r.mem, k) == Val(Stack(s.ssts) + s.mem, k)
  {
    hide FilesInv, KeyInv, Stack, AtRest, Level, BytesAt, NoWrites, Reaches;
    var flushed, a := Flush(s, false, size0);
    FilesKept(s, a, flushed);
    var compacted, b := CompactFiles(flushed, size1);
    ReachesConcat(s, a, flushed, b, compacted);
    QuietConcat(a, b);
    r, steps := compacted, a + b;
    if |s.wals| >= 200 {
      var forced, c := Flush(compacted, true, size2);
      ReachesConcat(s, steps, compacted, c, forced);
      QuietConcat(steps, c);
      FilesKept(s, steps + c, forced);
      r := if forced.ssts == [] then forced else forced.(wals := []);
      ReachesOne(forced, Step.Collect, r);
      ReachesConcat(s, steps + c, forced, [Step.Collect], r);
      QuietOne();
      QuietConcat(steps + c, [Step.Collect]);
      steps := steps + c + [Step.Collect];
      FilesKept(s, steps, r);
    }
    forall k | KeyInv(s, k)
      ensures KeyInv(r, k) && Val(Stack(r.ssts) + r.mem, k) == Val(Stack(s.ssts) + s.mem, k)
    {
      QuietRunKeeps(s, steps, r, k);
    }
  }

  lemma QuietConcat(a: seq<Step>, b: seq<Step>)
    requires NoWrites(a) && NoWrites(b)
    ensures NoWrites(a + b)
  {
  }

  lemma QuietOne()
    ensures NoWrites([Step.Collect])
  {
  }

  lemma {:induction false} FilesKept(s: State, steps: seq<Step>, t: State)
    requires FilesInv(s) && Reaches(s, steps, t)
    ensures FilesInv(t)
    decreases |steps|
  {
    hide FilesInv, Enabled, After;
    if steps != [] {
      StepKeepsFiles(s, steps[0]);
      FilesKept(After(s, steps[0]), steps[1..], t);
    }
  }
}

/**
 The writer (`src/store/lsm/store.rs`): staged writes, durable appends, memtable flush,
 compaction, WAL collection, crash and replay, as a state machine. The write gate makes
 every step but `Stage` exclusive; staging may fall between any two steps. An append that
 fails leaves the state as it was, so only successful ones are steps.
 */
module Writer {
  import opened Keys
  import opened Wrappers
  import opened Rows
  import opened Merge
  import opened Compaction

  // ---------------------------------------------------------------------------
  // Operation lists
  // ---------------------------------------------------------------------------

  /** The last operation on each key. */
  function Last(ops: Run): (t: Table)
  {
    if ops == [] then map[] else Last(ops[..|ops| - 1])[ops[|ops| - 1].key := ops[|ops| - 1].value]
  }

  lemma {:induction false} LastConcat(a: Run, b: Run)
    ensures Last(a + b) == Last(a) + Last(b)
    decreases |b|
  {
    if b == [] {
      assert a + b == a;
    } else {
      LastConcat(a, b[..|b| - 1]);
      assert (a + b)[..|a + b| - 1] == a + b[..|b| - 1];
    }
  }

  lemma {:induction false} LastRow(ops: Run)
    ensures forall k :: k in Last(ops) ==> Row(k, Last(ops)[k]) in ops
    ensures forall row :: row in ops ==> row.key in Last(ops)
    decreases |ops|
  {
    if ops != [] {
      var n := |ops| - 1;
      LastRow(ops[..n]);
      assert ops == ops[..n] + [ops[n]];
    }
  }

  /** Listed WALs replayed in order. */
  function Replay(wals: seq<Run>): (t: Table)
  {
    if wals == [] then map[] else Replay(wals[..|wals| - 1]) + Last(wals[|wals| - 1])
  }

  lemma ReplaySnoc(wals: seq<Run>, ops: Run)
    ensures Replay(wals + [ops]) == Replay(wals) + Last(ops)
  {
    assert (wals + [ops])[..|wals|] == wals;
  }

  /** `apply_mem`: one insert per operation. */
  method ApplyMem(mem: Table, updates: Run) returns (r: Table)
    ensures r == mem + Last(updates)
  {
    r := mem;
    for i := 0 to |updates|
      invariant r == mem + Last(updates[..i])
    {
      assert updates[..i + 1][..i] == updates[..i];
      r := r[updates[i].key := updates[i].value];
    }
    assert updates[..|updates|] == updates;
  }

  /** The replay loop of a restart. */
  method ReplayWals(wals: seq<Run>) returns (r: Table)
    ensures r == Replay(wals)
  {
    r := map[];
    for i := 0 to |wals|
      invariant r == Replay(wals[..i])
    {
      assert wals[..i + 1][..i] == wals[..i];
      r := ApplyMem(r, wals[i]);
    }
    assert wals[..|wals|] == wals;
  }

  /** The memtable without the entries that still hold the flushed value. */
  function Discarded(mem: Table, snapshot: Table): (r: Table)
  {
    map k | k in mem && !(k in snapshot && mem[k] == snapshot[k]) :: mem[k]
  }

  /** `discard_flushed`: compare and remove, key by key. */
  method DiscardFlushed(mem: Table, snapshot: Table) returns (r: Table)
    ensures r == Discarded(mem, snapshot)
  {
    r := mem;
    var left := snapshot.Keys;
    while left != {}
      invariant left <= snapshot.Keys
      invariant forall k :: k in r <==> k in mem && (k in left || k !in snapshot || mem[k] != snapshot[k])
      invariant forall k :: k in r ==> r[k] == mem[k]
      decreases |left|
    {
      var k :| k in left;
      if k in r && r[k] == snapshot[k] {
        r := r - {k};
      }
      left := left - {k};
    }
  }

  // ---------------------------------------------------------------------------
  // States and steps
  // ---------------------------------------------------------------------------

  /** What a key reads as; a tombstone and an absent key read the same. */
  function Val(t: Table, k: Key): (v: Slot)
  {
    if k in t then t[k] else None
  }

  datatype Phase = Idle | Snapshotted(table: Table) | Published(table: Table)

  /**
   `committed` is what acknowledged durable writes add up to and `flushed` says that no write
   was acknowledged since the last flush; the code keeps neither.
   */
  datatype State = State(
    mem: Table,
    wals: seq<Run>,
    ssts: seq<SstRec>,
    nextSst: nat,
    buffer: Run,
    phase: Phase,
    flushed: bool,
    committed: Table)

  datatype Step =
    | Stage(row: Row<Slot>)
    | Drain(n: nat)
    | Append(ops: Run)
    | Snapshot
    | FlushNothing
    | Publish(l0: SstRec)
    | Abandon
    | Discard
    | Compact(pick: seq<bool>, l1: SstRec)
    | Collect
    | Crash

  ghost predicate Enabled(s: State, step: Step)
  {
    match step
    case Stage(_) => true
    case Drain(n) => s.phase.Idle? && n <= |s.buffer|
    case Append(_) => s.phase.Idle?
    case Snapshot => s.phase.Idle? && s.mem != map[]
    case FlushNothing => s.phase.Idle? && s.mem == map[]
    case Publish(l0) => s.phase.Snapshotted? && l0.table == s.phase.table && l0.level == 0 && l0.seqNo == s.nextSst && CoversTable(l0)
    case Abandon => s.phase.Snapshotted?
    case Discard => s.phase.Published?
    case Compact(pick, l1) =>
      s.phase.Idle? && |pick| == |s.ssts| && Selection(s.ssts, pick) && l1.seqNo == s.nextSst && Replacement(s.ssts, pick, l1)
    case Collect => s.phase.Idle? && s.flushed
    case Crash => true
  }

  /** Dropping every listed WAL; nothing happens without an SST. */
  function Collected(s: State): (r: State)
  {
    if s.ssts == [] then s else s.(wals := [])
  }

  /** One past the highest SST sequence listed. */
  ghost function HighWater(ssts: seq<SstRec>): (n: nat)
    ensures Below(ssts, n)
  {
    if ssts == [] then 0 else
      var m := HighWater(ssts[..|ssts| - 1]);
      if ssts[|ssts| - 1].seqNo < m then m else ssts[|ssts| - 1].seqNo + 1
  }

  ghost function After(s: State, step: Step): (r: State)
    requires Enabled(s, step)
  {
    match step
    case Stage(row) => s.(mem := s.mem[row.key := row.value], buffer := s.buffer + [row])
    case Drain(n) =>
      s.(wals := s.wals + [s.buffer[..n]], buffer := s.buffer[n..], flushed := false,
         committed := s.committed + Last(s.buffer[..n]))
    case Append(ops) =>
      s.(wals := s.wals + [ops], mem := s.mem + Last(ops), flushed := false, committed := s.committed + Last(ops))
    case Snapshot => s.(phase := Snapshotted(s.mem))
    case FlushNothing => s.(flushed := true)
    case Publish(l0) =>
      s.(ssts := s.ssts + [l0], nextSst := s.nextSst + 1, phase := Published(l0.table), flushed := true)
    case Abandon => s.(phase := Idle, nextSst := s.nextSst + 1)
    case Discard => s.(mem := Discarded(s.mem, s.phase.table), phase := Idle)
    case Compact(pick, l1) => s.(ssts := Replaced(s.ssts, pick, l1), nextSst := s.nextSst + 1)
    case Collect => Collected(s)
    case Crash =>
      s.(mem := Replay(s.wals), buffer := [], phase := Idle, nextSst := HighWater(s.ssts), flushed := false,
         committed := Stack(s.ssts) + Replay(s.wals))
  }

  // ---------------------------------------------------------------------------
  // What every step keeps
  // ---------------------------------------------------------------------------

  /** A read sees the committed write with the staged one on top. */
  ghost predicate ReadsRight(s: State, k: Key)
  {
    Val(Stack(s.ssts) + s.mem, k) == Val(s.committed + Last(s.buffer), k)
  }

  /** The files alone answer with the committed value, or with one staged since. */
  ghost predicate Settled(s: State, k: Key)
  {
    Val(Stack(s.ssts), k) == Val(s.committed, k) || Row(k, Val(Stack(s.ssts), k)) in s.buffer
  }

  /** A restart finds the committed value, or one staged since. */
  ghost predicate Recoverable(s: State, k: Key)
  {
    if k in Replay(s.wals) then Replay(s.wals)[k] == Val(s.committed, k) else Settled(s, k)
  }

  ghost predicate PhaseFits(s: State, k: Key)
  {
    match s.phase
    case Idle => true
    case Snapshotted(t) =>
      if k in t then k in s.mem && (t[k] == Val(s.committed, k) || Row(k, t[k]) in s.buffer) else Settled(s, k)
    case Published(t) => k in t ==> k in Stack(s.ssts) && Stack(s.ssts)[k] == t[k]
  }

  ghost predicate KeyInv(s: State, k: Key)
  {
    ReadsRight(s, k) && Recoverable(s, k) && PhaseFits(s, k) && (s.flushed ==> Settled(s, k))
  }

  ghost predicate FilesInv(s: State)
  {
    Layout(s.ssts) && Below(s.ssts, s.nextSst) && (s.phase.Snapshotted? ==> s.phase.table != map[])
  }

  /** The batch does not meet the key staged with another value. */
  ghost predicate Agree(ops: Run, buffer: Run, k: Key)
  {
    k in Last(ops) && k in Last(buffer) ==> Last(ops)[k] == Last(buffer)[k]
  }

  ghost predicate Calm(s: State, step: Step, k: Key)
  {
    step.Append? ==> Agree(step.ops, s.buffer, k)
  }

  lemma StageKeeps(s: State, row: Row<Slot>, k: Key)
    requires KeyInv(s, k)
    ensures KeyInv(After(s, Stage(row)), k)
  {
    var r := After(s, Stage(row));
    assert Last(r.buffer) == Last(s.buffer)[row.key := row.value] by {
      assert r.buffer[..|s.buffer|] == s.buffer;
    }
    StagedKey(s, row, k);
  }

  lemma StagedKey(s: State, row: Row<Slot>, k: Key)
    requires KeyInv(s, k) && Last(s.buffer + [row]) == Last(s.buffer)[row.key := row.value]
    ensures KeyInv(After(s, Stage(row)), k)
  {
    hide Stack, Replay, Last;
  }

  lemma DrainKeeps(s: State, n: nat, k: Key)
    requires KeyInv(s, k) && Enabled(s, Drain(n))
    ensures KeyInv(After(s, Drain(n)), k)
  {
    hide Stack, Replay, Last;
    var a, b := s.buffer[..n], s.buffer[n..];
    assert s.buffer == a + b;
    LastConcat(a, b);
    LastRow(a);
    ReplaySnoc(s.wals, a);
  }

  /** An append keeps a read right exactly when its key is not staged with another value. */
  lemma AppendKeepsRead(s: State, ops: Run, k: Key)
    requires KeyInv(s, k) && Enabled(s, Append(ops))
    ensures ReadsRight(After(s, Append(ops)), k) <==> Agree(ops, s.buffer, k)
  {
    hide Stack, Replay, Last;
  }

  lemma AppendKeeps(s: State, ops: Run, k: Key)
    requires KeyInv(s, k) && Enabled(s, Append(ops)) && Agree(ops, s.buffer, k)
    ensures KeyInv(After(s, Append(ops)), k)
  {
    hide Stack, Replay, Last;
    AppendKeepsRead(s, ops, k);
    ReplaySnoc(s.wals, ops);
  }

  lemma SnapshotKeeps(s: State, k: Key)
    requires KeyInv(s, k) && Enabled(s, Snapshot)
    ensures KeyInv(After(s, Snapshot), k)
  {
    hide Stack, Replay, Last;
    LastRow(s.buffer);
  }

  lemma FlushNothingKeeps(s: State, k: Key)
    requires KeyInv(s, k) && Enabled(s, FlushNothing)
    ensures KeyInv(After(s, FlushNothing), k)
  {
    hide Stack, Replay, Last;
    LastRow(s.buffer);
  }

  lemma PublishKeeps(s: State, l0: SstRec, k: Key)
    requires KeyInv(s, k) && Enabled(s, Publish(l0))
    ensures KeyInv(After(s, Publish(l0)), k)
  {
    hide Stack, Replay, Last, CoversTable;
    StackSnoc(s.ssts, l0);
    var r := After(s, Publish(l0));
    if k in l0.table {
      PublishedKey(s, l0, k);
    } else {
      assert Val(Stack(r.ssts), k) == Val(Stack(s.ssts), k) && Val(Stack(r.ssts) + r.mem, k) == Val(Stack(s.ssts) + s.mem, k);
    }
  }

  lemma PublishedKey(s: State, l0: SstRec, k: Key)
    requires KeyInv(s, k) && Enabled(s, Publish(l0)) && k in l0.table && Stack(s.ssts + [l0]) == Stack(s.ssts) + l0.table
    ensures KeyInv(After(s, Publish(l0)), k)
  {
    hide Stack, Replay, Last, CoversTable;
  }

  lemma CompactKeeps(s: State, pick: seq<bool>, l1: SstRec, k: Key)
    requires KeyInv(s, k) && FilesInv(s) && Enabled(s, Compact(pick, l1))
    ensures KeyInv(After(s, Compact(pick, l1)), k)
  {
    hide Stack, Replay, Last, Layout, Selection, Replacement, Replaced;
    CompactionPreservesMap(s.ssts, pick, l1);
    SameLive(Stack(s.ssts), Stack(After(s, Compact(pick, l1)).ssts), k);
  }

  lemma SameLive(a: Table, b: Table, k: Key)
    requires Live(a) == Live(b)
    ensures Val(a, k) == Val(b, k)
  {
    assert k in Live(a) <==> k in Live(b);
    assert k in Live(a) ==> Live(a)[k] == Live(b)[k];
  }

  lemma StepKeepsKey(s: State, step: Step, k: Key)
    requires KeyInv(s, k) && FilesInv(s) && Enabled(s, step) && Calm(s, step, k)
    ensures KeyInv(After(s, step), k)
  {
    hide Stack, Replay, Last, Layout;
    match step
    case Stage(row) => StageKeeps(s, row, k);
    case Drain(n) => DrainKeeps(s, n, k);
    case Append(ops) => AppendKeeps(s, ops, k);
    case Snapshot => SnapshotKeeps(s, k);
    case FlushNothing => FlushNothingKeeps(s, k);
    case Publish(l0) => PublishKeeps(s, l0, k);
    case Abandon =>
    case Discard =>
    case Compact(pick, l1) => CompactKeeps(s, pick, l1, k);
    case Collect => CollectKeeps(s, k);
    case Crash => CrashKeeps(s, k);
  }

  lemma CollectKeeps(s: State, k: Key)
    requires KeyInv(s, k) && Enabled(s, Collect)
    ensures KeyInv(After(s, Collect), k)
  {
    hide Stack, Last;
  }

  lemma CrashKeeps(s: State, k: Key)
    ensures KeyInv(After(s, Crash), k)
  {
    hide Stack, Replay;
  }

  lemma PublishLayout(ssts: seq<SstRec>, l0: SstRec)
    requires Layout(ssts) && Below(ssts, l0.seqNo) && l0.level == 0 && l0.table != map[] && CoversTable(l0)
    ensures Layout(ssts + [l0])
  {
    hide CoversTable;
  }

  lemma StepKeepsFiles(s: State, step: Step)
    requires FilesInv(s) && Enabled(s, step)
    ensures FilesInv(After(s, step))
  {
    match step
    case Publish(l0) =>
      hide Layout;
      PublishLayout(s.ssts, l0);
    case Compact(pick, l1) =>
      hide Layout, Selection, Replacement, Replaced;
      CompactionKeepsLayout(s.ssts, pick, l1);
    case _ =>
      hide Layout;
  }

  lemma StepKeepsInv(s: State, step: Step, k: Key)
    requires FilesInv(s) && KeyInv(s, k) && Enabled(s, step) && Calm(s, step, k)
    ensures FilesInv(After(s, step)) && KeyInv(After(s, step), k)
  {
    hide KeyInv, FilesInv, Enabled, After, Calm;
    StepKeepsFiles(s, step);
    StepKeepsKey(s, step, k);
  }

  // ---------------------------------------------------------------------------
  // Whole runs
  // ---------------------------------------------------------------------------

  const EMPTY: State := State(map[], [], [], 0, [], Idle, false, map[])

  ghost predicate Reaches(s: State, steps: seq<Step>, t: State)
    decreases |steps|
  {
    if steps == [] then s == t else Enabled(s, steps[0]) && Reaches(After(s, steps[0]), steps[1..], t)
  }

  /** No append of the run meets the key staged with another value. */
  ghost predicate CalmRun(s: State, steps: seq<Step>, k: Key)
    decreases |steps|
  {
    steps != [] ==> Enabled(s, steps[0]) && Calm(s, steps[0], k) && CalmRun(After(s, steps[0]), steps[1..], k)
  }

  lemma {:induction false} RunsKeepInv(s: State, steps: seq<Step>, t: State, k: Key)
    requires FilesInv(s) && KeyInv(s, k) && Reaches(s, steps, t) && CalmRun(s, steps, k)
    ensures FilesInv(t) && KeyInv(t, k)
    decreases |steps|
  {
    hide FilesInv, KeyInv, Enabled, After, Calm;
    if steps != [] {
      StepKeepsInv(s, steps[0], k);
      RunsKeepInv(After(s, steps[0]), steps[1..], t, k);
    }
  }

  /**
   For every key and every run in which no append meets that key staged with another value:
   reads answer with the committed write under the staged one, and a restart brings back the
   committed value, or one staged since. With nothing staged for the key it is exact.
   */
  lemma RunsAreDurable(steps: seq<Step>, t: State, k: Key)
    requires Reaches(EMPTY, steps, t) && CalmRun(EMPTY, steps, k)
    ensures Val(Stack(t.ssts) + t.mem, k) == Val(t.committed + Last(t.buffer), k)
    ensures var r := After(t, Crash);
            var back := Val(Stack(r.ssts) + r.mem, k);
            && (back == Val(t.committed, k) || Row(k, back) in t.buffer)
            && (k !in Last(t.buffer) ==> back == Val(t.committed, k))
  {
    hide Reaches, CalmRun, KeyInv;
    EmptyInv(k);
    RunsKeepInv(EMPTY, steps, t, k);
    RestartExact(t, k);
  }

  lemma EmptyInv(k: Key)
    ensures KeyInv(EMPTY, k)
  {
  }

  lemma RestartExact(t: State, k: Key)
    requires KeyInv(t, k)
    ensures Val(Stack(t.ssts) + t.mem, k) == Val(t.committed + Last(t.buffer), k)
    ensures var r := After(t, Crash);
            var back := Val(Stack(r.ssts) + r.mem, k);
            && (back == Val(t.committed, k) || Row(k, back) in t.buffer)
            && (k !in Last(t.buffer) ==> back == Val(t.committed, k))
  {
    hide Stack, Replay, Last;
    LastRow(t.buffer);
  }

  // ---------------------------------------------------------------------------
  // Collecting without a flush
  // ---------------------------------------------------------------------------

  /** What a caller of `gc_wal` can check of a listed key: the files already answer for it. */
  ghost predicate FilesAnswer(s: State, k: Key)
  {
    k in Replay(s.wals) ==>
      if k in Last(s.buffer) then
        Val(Stack(s.ssts), k) == Replay(s.wals)[k] || Row(k, Val(Stack(s.ssts), k)) in s.buffer
      else
        k in s.mem ==> Val(Stack(s.ssts), k) == s.mem[k]
  }

  /** The public collection checks only that some SST exists; it is safe for a key exactly when the files answer. */
  lemma CollectSafeWhen(s: State, k: Key)
    requires KeyInv(s, k) && s.ssts != []
    ensures Recoverable(Collected(s), k) <==> FilesAnswer(s, k)
  {
    hide Stack, Last;
    LastRow(s.buffer);
    assert k !in Replay([]);
    hide Replay;
  }

  function PutOnce(k: Key, v: Value): (ops: Run)
  {
    [Row(k, Some(v))]
  }

  function FileOf(k: Key, v: Value): (l0: SstRec)
  {
    SstRec(0, 0, k, k, 0, map[k := Some(v)])
  }

  lemma LastOnce(k: Key, v: Value)
    ensures Last(PutOnce(k, v)) == map[k := Some(v)]
  {
    assert PutOnce(k, v)[..0] == [];
  }

  /** A write that was put and then flushed. */
  lemma PutAndFlush(k: Key, v: Value, s: State)
    requires s == State(map[], [PutOnce(k, v)], [FileOf(k, v)], 1, [], Idle, true, map[k := Some(v)])
    ensures Reaches(EMPTY, [Append(PutOnce(k, v)), Snapshot, Publish(FileOf(k, v)), Discard], s)
  {
    LastOnce(k, v);
    Irreflexive(k);
    assert Last([]) == map[];
    hide Last;
    var ops, l0 := PutOnce(k, v), FileOf(k, v);
    var s1 := EMPTY.(mem := map[k := Some(v)], wals := [ops], committed := map[k := Some(v)]);
    assert After(EMPTY, Append(ops)) == s1;
    var s2 := s1.(phase := Snapshotted(map[k := Some(v)]));
    assert k in s1.mem;
    assert After(s1, Snapshot) == s2 && Enabled(s2, Publish(l0));
    var s3 := s2.(phase := Published(map[k := Some(v)]), ssts := [l0], nextSst := 1, flushed := true);
    assert After(s2, Publish(l0)) == s3 && After(s3, Discard) == s;
    ReachesOne(s3, Discard, s);
    ReachesMore(s2, Publish(l0), [Discard], s);
    ReachesMore(s1, Snapshot, [Publish(l0), Discard], s);
    ReachesMore(EMPTY, Append(ops), [Snapshot, Publish(l0), Discard], s);
  }

  lemma ReachesOne(s: State, step: Step, t: State)
    requires Enabled(s, step) && After(s, step) == t
    ensures Reaches(s, [step], t)
  {
    hide Enabled, After;
    assert [step][1..] == [];
    assert Reaches(t, [], t);
  }

  lemma ReachesMore(s: State, step: Step, rest: seq<Step>, t: State)
    requires Enabled(s, step) && Reaches(After(s, step), rest, t)
    ensures Reaches(s, [step] + rest, t)
  {
    hide Enabled, After;
    assert ([step] + rest)[1..] == rest;
  }

  /** After a flush, put and then collect: the acknowledged write is gone after a restart. */
  lemma CollectLosesWrite(k: Key, v: Value, w: Value, s: State)
    requires v != w && s == State(map[], [PutOnce(k, v)], [FileOf(k, v)], 1, [], Idle, true, map[k := Some(v)])
    ensures var put := After(s, Append(PutOnce(k, w)));
            var back := After(Collected(put), Crash);
            Val(put.committed, k) == Some(w) && Val(Stack(back.ssts) + back.mem, k) == Some(v)
  {
    LastOnce(k, w);
    hide Last;
    assert [FileOf(k, v)][..0] == [];
  }

  /**
   Staging while a batch on the same key is being written: once everything is durable the
   writer still reads the batch, and a restart brings back the staged value.
   */
  lemma RacingStage(k: Key, v: Value, w: Value)
    requires v != w
    ensures var s := After(After(After(EMPTY, Stage(Row(k, Some(w)))), Append(PutOnce(k, v))), Drain(1));
            && Reaches(EMPTY, [Stage(Row(k, Some(w))), Append(PutOnce(k, v)), Drain(1)], s)
            && s.buffer == [] && Val(s.committed, k) == Some(w)
            && Val(Stack(s.ssts) + s.mem, k) == Some(v)
            && Val(Stack(s.ssts) + After(s, Crash).mem, k) == Some(w)
  {
    LastOnce(k, v);
    LastOnce(k, w);
    hide Last;
    var s1 := After(EMPTY, Stage(Row(k, Some(w))));
    assert s1 == EMPTY.(mem := map[k := Some(w)], buffer := PutOnce(k, w));
    var s2 := After(s1, Append(PutOnce(k, v)));
    assert s2.buffer[..1] == PutOnce(k, w) && s2.buffer[1..] == [];
    var s := After(s2, Drain(1));
    assert s.wals == [PutOnce(k, v), PutOnce(k, w)];
    assert s.wals[..1] == [PutOnce(k, v)] && s.wals[..1][..0] == [];
    ReachesThree(EMPTY, Stage(Row(k, Some(w))), Append(PutOnce(k, v)), Drain(1));
  }

  lemma ReachesThree(s: State, a: Step, b: Step, c: Step)
    requires Enabled(s, a) && Enabled(After(s, a), b) && Enabled(After(After(s, a), b), c)
    ensures Reaches(s, [a, b, c], After(After(After(s, a), b), c))
  {
    hide Enabled, After;
    var s1 := After(s, a);
    var s2 := After(s1, b);
    ReachesOne(s2, c, After(s2, c));
    ReachesMore(s1, b, [c], After(s2, c));
    ReachesMore(s, a, [b, c], After(s2, c));
    assert [a] + [b, c] == [a, b, c] && [b] + [c] == [b, c];
  }
}

/**
 Staged writes and durable appends of one writer, in every run (`src/store/lsm/store.rs`):
 the memtable follows the order in which operations are issued, the log the order in which
 they are listed. A staged write is listed only when it is drained, so an append issued
 later can be listed before it.
 */
module StageOrder {
  import opened Keys
  import opened Rows
  import opened Merge
  import opened Compaction
  import opened Writer
  import opened Replays

  /**
   `issued` are the operations since the last restart in the order issued, `order` the same
   in the order listed, with those still staged at the end, and `base` what the restart found.
   */
  datatype Traced = Traced(s: State, base: Table, issued: seq<Run>, order: seq<nat>)

  /** How many operations are listed. */
  function Listed(t: Traced): (n: int)
  {
    |t.order| - |t.s.buffer|
  }

  ghost function Next(t: Traced, step: Step): (r: Traced)
    requires Enabled(t.s, step) && Listed(t) >= 0
  {
    var s := After(t.s, step);
    match step
    case Stage(row) => Traced(s, t.base, t.issued + [[row]], t.order + [|t.issued|])
    case Append(ops) =>
      Traced(s, t.base, t.issued + [ops], t.order[..Listed(t)] + [|t.issued|] + t.order[Listed(t)..])
    case Crash => Traced(s, Stack(t.s.ssts) + Replay(t.s.wals), [], [])
    case _ => t.(s := s)
  }

  // ---------------------------------------------------------------------------
  // What every step keeps
  // ---------------------------------------------------------------------------

  /** The log and the buffer are the operations in list order. */
  ghost predicate Ordered(t: Traced)
  {
    && Listed(t) >= 0
    && Known(t.issued, t.order) && (forall id :: InSpan(id, 0, |t.issued|) ==> id in t.order)
    && t.s.committed == t.base + Replay(RunsAt(t.issued, t.order[..Listed(t)]))
    && Last(t.s.buffer) == Replay(RunsAt(t.issued, t.order[Listed(t)..]))
    && Singles(t.s.buffer) == RunsAt(t.issued, t.order[Listed(t)..])
  }

  /** Each staged row as a batch of its own. */
  ghost function Singles(buffer: Run): (runs: seq<Run>)
    ensures |runs| == |buffer|
  {
    seq(|buffer|, i requires 0 <= i < |buffer| => [buffer[i]])
  }

  /** The memtable over the files is the operations in the order issued. */
  ghost predicate Reads(t: Traced)
  {
    && FilesInv(t.s)
    && (forall k :: Val(Stack(t.s.ssts) + t.s.mem, k) == Val(t.base + Replay(t.issued), k))
    && (t.s.phase.Snapshotted? ==> t.s.phase.table.Keys <= t.s.mem.Keys)
    && (t.s.phase.Published? ==>
          forall k :: k in t.s.phase.table ==> k in Stack(t.s.ssts) && Stack(t.s.ssts)[k] == t.s.phase.table[k])
  }

  lemma {:induction false} BufferReplays(buffer: Run)
    ensures Last(buffer) == Replay(Singles(buffer))
    decreases |buffer|
  {
    if buffer == [] {
    } else {
      var n := |buffer| - 1;
      BufferReplays(buffer[..n]);
      assert Singles(buffer) == Singles(buffer[..n]) + [[buffer[n]]];
      ReplaySnoc(Singles(buffer[..n]), [buffer[n]]);
      OneRow(buffer[n]);
    }
  }

  lemma OneRow(row: Row<Slot>)
    ensures Last([row]) == map[row.key := row.value]
  {
    var ops: Run := [row];
    assert ops[..0] == [];
  }

  lemma StageOrdered(t: Traced, row: Row<Slot>)
    requires Ordered(t)
    ensures Ordered(Next(t, Stage(row)))
  {
    hide Replay, Last;
    var r, l := Next(t, Stage(row)), Listed(t);
    RunsAtGrows(t.issued, [[row]], t.order[..l]);
    RunsAtGrows(t.issued, [[row]], t.order[l..]);
    assert r.order[..l] == t.order[..l] && r.order[l..] == t.order[l..] + [|t.issued|];
    RunsAtConcat(r.issued, t.order[l..], [|t.issued|]);
    assert RunsAt(r.issued, [|t.issued|]) == [[row]];
    assert Singles(r.s.buffer) == Singles(t.s.buffer) + [[row]];
    BufferReplays(r.s.buffer);
    IssuedOnce(t, r);
  }

  /** Every operation issued has its place in the order. */
  lemma IssuedOnce(t: Traced, r: Traced)
    requires (forall id :: InSpan(id, 0, |t.issued|) ==> id in t.order) && |r.issued| == |t.issued| + 1
    requires (forall id :: id in t.order ==> id in r.order) && |t.issued| in r.order
    ensures forall id :: InSpan(id, 0, |r.issued|) ==> id in r.order
  {
    forall id | InSpan(id, 0, |r.issued|)
      ensures id in r.order
    {
      assert id == |t.issued| || InSpan(id, 0, |t.issued|);
    }
  }

  lemma AppendOrdered(t: Traced, ops: Run)
    requires Ordered(t) && Enabled(t.s, Append(ops))
    ensures Ordered(Next(t, Append(ops)))
  {
    hide Replay, Last;
    var r, l := Next(t, Append(ops)), Listed(t);
    var a, b := t.order[..l], t.order[l..];
    RunsAtGrows(t.issued, [ops], a);
    RunsAtGrows(t.issued, [ops], b);
    assert Listed(r) == l + 1 && r.order[..l + 1] == a + [|t.issued|] && r.order[l + 1..] == b;
    RunsAtConcat(r.issued, a, [|t.issued|]);
    assert RunsAt(r.issued, [|t.issued|]) == [ops];
    ReplayOne(ops);
    PlusAssoc(t.base, Replay(RunsAt(t.issued, a)), Last(ops));
    assert t.order == a + b;
    assert forall id :: id in t.order ==> id in r.order;
    assert r.order[l] == |t.issued|;
    IssuedOnce(t, r);
  }

  lemma DrainOrdered(t: Traced, n: nat)
    requires Ordered(t) && Enabled(t.s, Drain(n))
    ensures Ordered(Next(t, Drain(n)))
  {
    hide Replay, Last;
    var r, l := Next(t, Drain(n)), Listed(t);
    var a, b, c := t.order[..l], t.order[l..l + n], t.order[l + n..];
    var x, y := t.s.buffer[..n], t.s.buffer[n..];
    assert r.order[..l + n] == a + b && r.order[l + n..] == c;
    RunsAtConcat(t.issued, a, b);
    assert RunsAt(t.issued, b) == RunsAt(t.issued, t.order[l..])[..n] && RunsAt(t.issued, c) == RunsAt(t.issued, t.order[l..])[n..];
    assert Singles(x) == Singles(t.s.buffer)[..n] && Singles(y) == Singles(t.s.buffer)[n..];
    BufferReplays(x);
    BufferReplays(y);
    PlusAssoc(t.base, Replay(RunsAt(t.issued, a)), Last(x));
  }

  lemma CrashOrdered(t: Traced)
    requires Ordered(t)
    ensures Ordered(Next(t, Crash))
  {
    var r := Next(t, Crash);
    NoRuns([]);
    hide Replay;
    assert r.order[..0] == [] && r.order[0..] == [];
    BufferReplays([]);
    assert Singles([]) == RunsAt([], []);
  }

  lemma StepKeepsOrdered(t: Traced, step: Step)
    requires Ordered(t) && Enabled(t.s, step)
    ensures Ordered(Next(t, step))
  {
    match step
    case Stage(row) => StageOrdered(t, row);
    case Append(ops) => AppendOrdered(t, ops);
    case Drain(n) => DrainOrdered(t, n);
    case Crash => CrashOrdered(t);
    case _ =>
      hide Replay, Last, RunsAt, Singles, Stack;
  }

  /** One more operation on top of both sides. */
  lemma OneMore(t: Traced, ops: Run, k: Key)
    requires Reads(t)
    ensures Val(Stack(t.s.ssts) + (t.s.mem + Last(ops)), k) == Val(t.base + Replay(t.issued + [ops]), k)
  {
    hide Replay, Last, Stack;
    ReplaySnoc(t.issued, ops);
    assert Val(Stack(t.s.ssts) + t.s.mem, k) == Val(t.base + Replay(t.issued), k);
  }

  lemma PublishReads(t: Traced, l0: SstRec)
    requires Reads(t) && Listed(t) >= 0 && Enabled(t.s, Publish(l0))
    ensures Reads(Next(t, Publish(l0)))
  {
    hide Replay, Last, Stack, CoversTable, FilesInv;
    StepKeepsFiles(t.s, Publish(l0));
    StackSnoc(t.s.ssts, l0);
    var r := Next(t, Publish(l0));
    forall k
      ensures Val(Stack(r.s.ssts) + r.s.mem, k) == Val(r.base + Replay(r.issued), k)
    {
      assert Val(Stack(t.s.ssts) + t.s.mem, k) == Val(t.base + Replay(t.issued), k);
    }
  }

  lemma CompactReads(t: Traced, pick: seq<bool>, l1: SstRec)
    requires Reads(t) && Listed(t) >= 0 && Enabled(t.s, Compact(pick, l1))
    ensures Reads(Next(t, Compact(pick, l1)))
  {
    hide Replay, Last, Stack, Layout, Selection, Replacement, Replaced;
    StepKeepsFiles(t.s, Compact(pick, l1));
    CompactionPreservesMap(t.s.ssts, pick, l1);
    var r := Next(t, Compact(pick, l1));
    forall k
      ensures Val(Stack(r.s.ssts) + r.s.mem, k) == Val(r.base + Replay(r.issued), k)
    {
      assert Val(Stack(t.s.ssts) + t.s.mem, k) == Val(t.base + Replay(t.issued), k);
      SameLive(Stack(t.s.ssts), Stack(r.s.ssts), k);
    }
  }

  lemma WriteReads(t: Traced, step: Step)
    requires Reads(t) && Listed(t) >= 0 && Enabled(t.s, step) && (step.Stage? || step.Append?)
    ensures Reads(Next(t, step))
  {
    hide Replay, Last, Stack, FilesInv;
    StepKeepsFiles(t.s, step);
    var ops := if step.Stage? then [step.row] else step.ops;
    if step.Stage? {
      OneRow(step.row);
      assert t.s.mem[step.row.key := step.row.value] == t.s.mem + map[step.row.key := step.row.value];
    }
    forall k
      ensures Val(Stack(t.s.ssts) + (t.s.mem + Last(ops)), k) == Val(t.base + Replay(t.issued + [ops]), k)
    {
      OneMore(t, ops, k);
    }
  }

  lemma DiscardReads(t: Traced)
    requires Reads(t) && Listed(t) >= 0 && Enabled(t.s, Discard)
    ensures Reads(Next(t, Discard))
  {
    hide Replay, Last, Stack, FilesInv;
    StepKeepsFiles(t.s, Discard);
    var r := Next(t, Discard);
    forall k
      ensures Val(Stack(r.s.ssts) + r.s.mem, k) == Val(r.base + Replay(r.issued), k)
    {
      assert Val(Stack(t.s.ssts) + t.s.mem, k) == Val(t.base + Replay(t.issued), k);
    }
  }

  lemma StepKeepsReads(t: Traced, step: Step)
    requires Reads(t) && Listed(t) >= 0 && Enabled(t.s, step)
    ensures Reads(Next(t, step))
  {
    hide Replay, Last, Stack, FilesInv;
    StepKeepsFiles(t.s, step);
    match step
    case Stage(_) => WriteReads(t, step);
    case Append(_) => WriteReads(t, step);
    case Publish(l0) => PublishReads(t, l0);
    case Discard => DiscardReads(t);
    case Compact(pick, l1) => CompactReads(t, pick, l1);
    case Crash => EmptyReplay();
    case _ =>
  }

  const START: Traced := Traced(EMPTY, map[], [], [])

  ghost predicate Traces(t: Traced, steps: seq<Step>, u: Traced)
    decreases |steps|
  {
    if steps == [] then t == u else
      Enabled(t.s, steps[0]) && Listed(t) >= 0 && Traces(Next(t, steps[0]), steps[1..], u)
  }

  lemma {:induction false} RunsKeep(t: Traced, steps: seq<Step>, u: Traced)
    requires Ordered(t) && Reads(t) && Traces(t, steps, u)
    ensures Ordered(u) && Reads(u)
    decreases |steps|
  {
    hide Reads, Enabled, Next;
    if steps != [] {
      StepKeepsOrdered(t, steps[0]);
      StepKeepsReads(t, steps[0]);
      RunsKeep(Next(t, steps[0]), steps[1..], u);
    }
  }

  /** The trace adds nothing to the writer: every run of it has one. */
  lemma {:induction false} RunsAreTraced(t: Traced, steps: seq<Step>, s: State) returns (u: Traced)
    requires Ordered(t) && Reaches(t.s, steps, s)
    ensures Traces(t, steps, u) && u.s == s
    decreases |steps|
  {
    hide Enabled, After, Stack, Replay, RunsAt, Last, Singles;
    if steps == [] {
      u := t;
    } else {
      StepKeepsOrdered(t, steps[0]);
      assert Next(t, steps[0]).s == After(t.s, steps[0]);
      u := RunsAreTraced(Next(t, steps[0]), steps[1..], s);
    }
  }

  lemma StartKeeps()
    ensures Ordered(START) && Reads(START)
  {
    NoRuns([]);
    EmptyReplay();
    assert START.order[..0] == [] && START.order[0..] == [];
    assert Singles([]) == RunsAt([], []);
  }

  /**
   In every run of the writer, appends that meet staged keys included: a read answers with
   the committed write under the staged one if and only if the key was not overtaken, that
   is, the operations issued after the one listed last on the key, but listed before it,
   leave the key as that one does.
   */
  lemma ReadsAreRightWhen(steps: seq<Step>, s: State, k: Key) returns (t: Traced)
    requires Reaches(EMPTY, steps, s)
    ensures Traces(START, steps, t) && t.s == s && Known(t.issued, t.order)
    ensures Val(Stack(s.ssts) + s.mem, k) == Val(s.committed + Last(s.buffer), k) <==> NotOvertaken(t.issued, t.order, k)
  {
    hide Replay, Last, Stack, NotOvertaken, Traces, RunsAt;
    StartKeeps();
    t := RunsAreTraced(START, steps, s);
    RunsKeep(START, steps, t);
    var a, b := t.order[..Listed(t)], t.order[Listed(t)..];
    RunsAtConcat(t.issued, a, b);
    assert a + b == t.order;
    PlusAssoc(t.base, Replay(RunsAt(t.issued, a)), Last(t.s.buffer));
    OverBase(t.base, t.issued, t.order, k);
  }

  /** The same comparison over what a restart found, when every operation is applied. */
  lemma OverBase(base: Table, log: seq<Run>, ids: seq<nat>, k: Key)
    requires Known(log, ids) && forall id :: InSpan(id, 0, |log|) ==> id in ids
    ensures Val(base + Replay(log), k) == Val(base + Replay(RunsAt(log, ids)), k) <==> NotOvertaken(log, ids, k)
  {
    hide Replay, Last, RunsAt, NotOvertaken, LastWriter;
    RightWhenNotOvertaken(log, ids, k);
    WriterDecides(log, ids, k);
    if LastWriter(log, ids, k).None? {
      forall id | InSpan(id, 0, |log|)
        ensures k !in Last(log[id])
      {
        var i :| 0 <= i < |ids| && ids[i] == id;
      }
      SilentFrom(log, 0, k);
      assert log[0..] == log;
    } else {
      KeyInLog(log, ids[LastWriter(log, ids, k).value], k);
    }
  }

  lemma KeyInLog(log: seq<Run>, a: nat, k: Key)
    requires a < |log| && k in Last(log[a])
    ensures k in Replay(log)
  {
    hide Replay, Last;
    assert log == log[..a] + ([log[a]] + log[a + 1..]);
    ReplayConcat(log[..a], [log[a]] + log[a + 1..]);
    ReplayConcat([log[a]], log[a + 1..]);
    ReplayOne(log[a]);
  }

  // ---------------------------------------------------------------------------
  // Restarts
  // ---------------------------------------------------------------------------

  ghost predicate ListedAgrees(s: State, k: Key)
  {
    k in Replay(s.wals) ==> Replay(s.wals)[k] == Val(s.committed, k)
  }

  lemma StepKeepsListed(s: State, step: Step, k: Key)
    requires ListedAgrees(s, k) && Enabled(s, step)
    ensures ListedAgrees(After(s, step), k)
  {
    EmptyReplay();
    hide Replay, Last, Stack;
    match step
    case Drain(n) => ReplaySnoc(s.wals, s.buffer[..n]);
    case Append(ops) => ReplaySnoc(s.wals, ops);
    case _ =>
  }

  lemma {:induction false} RunsKeepListed(s: State, steps: seq<Step>, t: State, k: Key)
    requires ListedAgrees(s, k) && Reaches(s, steps, t)
    ensures ListedAgrees(t, k)
    decreases |steps|
  {
    hide ListedAgrees, Enabled, After;
    if steps != [] {
      StepKeepsListed(s, steps[0], k);
      RunsKeepListed(After(s, steps[0]), steps[1..], t, k);
    }
  }

  /** In every run a restart brings back the committed value of each key a listed WAL writes. */
  lemma ListedComesBack(steps: seq<Step>, s: State, k: Key)
    requires Reaches(EMPTY, steps, s) && k in Replay(s.wals)
    ensures var r := After(s, Crash); Val(Stack(r.ssts) + r.mem, k) == Val(s.committed, k)
  {
    EmptyReplay();
    hide Replay, Stack, Reaches;
    RunsKeepListed(EMPTY, steps, s, k);
  }
}

/**
 Several writers over one prefix (`src/store/lsm/store.rs`): a writer looks at the ownership
 record and only later swaps the manifest, so one that was superseded in between can still
 list a WAL, publish a file or clear the list. `log` holds every listed, that is
 acknowledged, append. Staged writes and the refresh of a stale opening are left out.
 */
module Takeover {
  import opened Keys
  import opened Wrappers
  import opened Merge
  import opened Writer
  import opened Replays

  /** `held` are the WALs applied to the memtable since its last flush; the code does not keep it. */
  datatype View = View(loaded: bool, checked: bool, mem: Table, held: seq<nat>)

  /** `order` are the WALs applied to the files, flush by flush. The first `collected` WALs are no longer listed. */
  datatype System = System(
    log: seq<Run>,
    collected: nat,
    files: Table,
    order: seq<nat>,
    owner: Option<nat>,
    views: map<nat, View>)

  datatype Step =
    | Claim(i: nat)
    | Load(i: nat)
    | Check(i: nat)
    | List(i: nat, ops: Run)
    | PublishFile(i: nat)
    | ClearList(i: nat)

  predicate Enabled(s: System, step: Step)
  {
    match step
    case Claim(i) => i !in s.views
    case Load(i) => i in s.views && !s.views[i].loaded && s.collected <= |s.log|
    case Check(i) => i in s.views && s.views[i].loaded && s.owner == Some(i)
    case List(i, _) => i in s.views && s.views[i].loaded && s.views[i].checked
    case PublishFile(i) => i in s.views && s.views[i].loaded && s.views[i].checked
    case ClearList(i) => i in s.views && s.views[i].loaded && s.views[i].mem == map[]
  }

  function After(s: System, step: Step): (r: System)
    requires Enabled(s, step)
  {
    match step
    case Claim(i) => s.(owner := Some(i), views := s.views[i := View(false, false, map[], [])])
    case Load(i) =>
      s.(views := s.views[i := View(true, false, Replay(s.log[s.collected..]), Ids(s.collected, |s.log|))])
    case Check(i) => s.(views := s.views[i := s.views[i].(checked := true)])
    case List(i, ops) =>
      var v := s.views[i];
      s.(log := s.log + [ops], views := s.views[i := View(true, false, v.mem + Last(ops), v.held + [|s.log|])])
    case PublishFile(i) =>
      var v := s.views[i];
      s.(files := s.files + v.mem, order := s.order + v.held, views := s.views[i := View(true, false, map[], [])])
    case ClearList(i) => s.(collected := |s.log|)
  }

  /** What a restart brings back. */
  function Restarted(s: System): (t: Table)
    requires s.collected <= |s.log|
  {
    s.files + Replay(s.log[s.collected..])
  }

  // ---------------------------------------------------------------------------
  // Exactly what survives, in every run
  // ---------------------------------------------------------------------------

  /** Files and memtables hold exactly the WALs applied to them, in order. */
  ghost predicate Inv(s: System)
  {
    && s.collected <= |s.log|
    && Known(s.log, s.order) && s.files == Replay(RunsAt(s.log, s.order))
    && forall i :: i in s.views ==> Holds(s.log, s.views[i])
  }

  ghost predicate Holds(log: seq<Run>, v: View)
  {
    Known(log, v.held) && v.mem == Replay(RunsAt(log, v.held))
  }

  lemma HoldsGrows(log: seq<Run>, ops: Run, v: View)
    requires Holds(log, v)
    ensures Holds(log + [ops], v)
    ensures Holds(log + [ops], v.(mem := v.mem + Last(ops), held := v.held + [|log|]))
  {
    hide Replay, Last;
    RunsAtGrows(log, [ops], v.held);
    RunsAtConcat(log + [ops], v.held, [|log|]);
    assert RunsAt(log + [ops], [|log|]) == [ops];
    ReplayOne(ops);
  }

  lemma HoldsNothing(log: seq<Run>, v: View)
    requires v.held == [] && v.mem == map[]
    ensures Holds(log, v)
  {
    EmptyReplay();
    assert RunsAt(log, []) == [];
  }

  lemma ListKeepsInv(s: System, i: nat, ops: Run)
    requires Inv(s) && Enabled(s, List(i, ops))
    ensures Inv(After(s, List(i, ops)))
  {
    hide Replay, Last, RunsAt, Holds;
    RunsAtGrows(s.log, [ops], s.order);
    var r := After(s, List(i, ops));
    forall j | j in r.views
      ensures Holds(r.log, r.views[j])
    {
      HoldsGrows(s.log, ops, s.views[j]);
      if j == i {
        SameView(r.log, s.views[i].(mem := s.views[i].mem + Last(ops), held := s.views[i].held + [|s.log|]), r.views[i]);
      }
    }
  }

  lemma SameView(log: seq<Run>, v: View, u: View)
    requires Holds(log, v) && u.mem == v.mem && u.held == v.held
    ensures Holds(log, u)
  {
  }

  lemma StepKeepsInv(s: System, step: Step)
    requires Inv(s) && Enabled(s, step)
    ensures Inv(After(s, step))
  {
    hide Replay, Last, RunsAt, Holds;
    match step
    case Claim(i) => HoldsNothing(s.log, After(s, step).views[i]);
    case Load(i) => LoadHolds(s, i);
    case Check(i) => SameView(s.log, s.views[i], After(s, step).views[i]);
    case List(i, ops) => ListKeepsInv(s, i, ops);
    case PublishFile(i) =>
      HoldsNothing(s.log, After(s, step).views[i]);
      PublishApplies(s, i);
    case ClearList(_) =>
  }

  lemma LoadHolds(s: System, i: nat)
    requires Inv(s) && Enabled(s, Load(i))
    ensures Holds(s.log, After(s, Load(i)).views[i])
  {
    hide Replay;
    RunsAtSpan(s.log, s.collected, |s.log|);
    assert s.log[s.collected..|s.log|] == s.log[s.collected..];
  }

  lemma PublishApplies(s: System, i: nat)
    requires Inv(s) && Enabled(s, PublishFile(i))
    ensures var r := After(s, PublishFile(i)); Known(r.log, r.order) && r.files == Replay(RunsAt(r.log, r.order))
  {
    hide Replay, RunsAt;
    assert Holds(s.log, s.views[i]);
    RunsAtConcat(s.log, s.order, s.views[i].held);
  }

  const NOTHING: System := System([], 0, map[], [], None, map[])

  ghost predicate Reaches(s: System, steps: seq<Step>, t: System)
    decreases |steps|
  {
    if steps == [] then s == t else Enabled(s, steps[0]) && Reaches(After(s, steps[0]), steps[1..], t)
  }

  lemma {:induction false} RunsKeepInv(s: System, steps: seq<Step>, t: System)
    requires Inv(s) && Reaches(s, steps, t)
    ensures Inv(t)
    decreases |steps|
  {
    hide Inv, Enabled, After;
    if steps != [] {
      StepKeepsInv(s, steps[0]);
      RunsKeepInv(After(s, steps[0]), steps[1..], t);
    }
  }

  /**
   In every interleaving of any number of writers: a restart brings back what was
   acknowledged for a key, and a writer's reads answer with it, if and only if the key was
   not overtaken by WALs that were not applied after the one that decides it.
   */
  lemma AcknowledgedSurvivesWhen(steps: seq<Step>, s: System, k: Key)
    requires Reaches(NOTHING, steps, s)
    ensures Inv(s)
    ensures Known(s.log, s.order + Ids(s.collected, |s.log|))
    ensures Val(Restarted(s), k) == Val(Replay(s.log), k) <==> NotOvertaken(s.log, s.order + Ids(s.collected, |s.log|), k)
    ensures forall i :: i in s.views ==>
              && Known(s.log, s.order + s.views[i].held)
              && (Val(s.files + s.views[i].mem, k) == Val(Replay(s.log), k) <==> NotOvertaken(s.log, s.order + s.views[i].held, k))
  {
    hide Replay, RunsAt, NotOvertaken, Reaches;
    assert Inv(NOTHING) by {
      HoldsNothing([], View(false, false, map[], []));
    }
    RunsKeepInv(NOTHING, steps, s);
    RunsAtSpan(s.log, s.collected, |s.log|);
    assert s.log[s.collected..|s.log|] == s.log[s.collected..];
    RunsAtConcat(s.log, s.order, Ids(s.collected, |s.log|));
    RightWhenNotOvertaken(s.log, s.order + Ids(s.collected, |s.log|), k);
    forall i | i in s.views
      ensures Known(s.log, s.order + s.views[i].held)
      ensures Val(s.files + s.views[i].mem, k) == Val(Replay(s.log), k) <==> NotOvertaken(s.log, s.order + s.views[i].held, k)
    {
      assert Holds(s.log, s.views[i]);
      RunsAtConcat(s.log, s.order, s.views[i].held);
      RightWhenNotOvertaken(s.log, s.order + s.views[i].held, k);
    }
  }

  // ---------------------------------------------------------------------------
  // Fencing
  // ---------------------------------------------------------------------------

  /** How often writer `i` lists a WAL or publishes a file. */
  ghost function Writes(steps: seq<Step>, i: nat): (n: nat)
  {
    if steps == [] then 0 else
      (if (steps[0].List? || steps[0].PublishFile?) && steps[0].i == i then 1 else 0) + Writes(steps[1..], i)
  }

  /**
   Once another writer owns the store, a superseded one lists or publishes at most once more,
   however long the run, and not at all unless it had already looked at the record.
   */
  lemma {:induction false} SupersededWritesOnce(s: System, steps: seq<Step>, t: System, i: nat)
    requires Reaches(s, steps, t) && i in s.views && s.owner != Some(i)
    ensures Writes(steps, i) <= if s.views[i].checked then 1 else 0
    decreases |steps|
  {
    hide Replay, Last;
    if steps != [] {
      SupersededWritesOnce(After(s, steps[0]), steps[1..], t, i);
    }
  }

  // ---------------------------------------------------------------------------
  // Orderly takeovers
  // ---------------------------------------------------------------------------

  /** Only the writer that loaded last lists, publishes and collects. */
  predicate Orderly(cur: Option<nat>, step: Step)
  {
    step.List? || step.PublishFile? || step.ClearList? ==> cur == Some(step.i)
  }

  function Current(cur: Option<nat>, step: Step): (r: Option<nat>)
  {
    if step.Load? then Some(step.i) else cur
  }

  /** A restart and the current writer answer with everything acknowledged. */
  ghost predicate Right(s: System, cur: Option<nat>)
  {
    && s.collected <= |s.log|
    && (cur.Some? ==> cur.value in s.views)
    && (forall k :: Val(Restarted(s), k) == Val(Replay(s.log), k))
    && (cur.Some? ==> forall k :: Val(s.files + s.views[cur.value].mem, k) == Val(Replay(s.log), k))
  }

  /** A key a suffix of the log writes has the value the suffix gives it. */
  lemma SuffixDecides(log: seq<Run>, c: nat)
    requires c <= |log|
    ensures forall k :: k in Replay(log[c..]) ==> k in Replay(log) && Replay(log)[k] == Replay(log[c..])[k]
  {
    hide Replay;
    assert log == log[..c] + log[c..];
    ReplayConcat(log[..c], log[c..]);
  }

  lemma ListIsRight(s: System, i: nat, ops: Run)
    requires Right(s, Some(i)) && Enabled(s, List(i, ops))
    ensures Right(After(s, List(i, ops)), Some(i))
  {
    hide Replay, Last;
    ListedRestart(s, i, ops);
    ReplaySnoc(s.log, ops);
    var r := After(s, List(i, ops));
    PlusAssoc(s.files, s.views[i].mem, Last(ops));
    forall k
      ensures Val(r.files + r.views[i].mem, k) == Val(Replay(r.log), k)
    {
      assert Val(s.files + s.views[i].mem, k) == Val(Replay(s.log), k);
    }
  }

  /** Whoever lists it, a listed append comes back at a restart. */
  lemma ListedRestart(s: System, i: nat, ops: Run)
    requires s.collected <= |s.log| && (forall k :: Val(Restarted(s), k) == Val(Replay(s.log), k)) && Enabled(s, List(i, ops))
    ensures forall k :: Val(Restarted(After(s, List(i, ops))), k) == Val(Replay(s.log + [ops]), k)
  {
    hide Replay, Last;
    ReplaySnoc(s.log, ops);
    ReplaySnoc(s.log[s.collected..], ops);
    assert (s.log + [ops])[s.collected..] == s.log[s.collected..] + [ops];
    PlusAssoc(s.files, Replay(s.log[s.collected..]), Last(ops));
    forall k
      ensures Val(Restarted(After(s, List(i, ops))), k) == Val(Replay(s.log + [ops]), k)
    {
      assert Val(Restarted(s), k) == Val(Replay(s.log), k);
    }
  }

  lemma PublishIsRight(s: System, i: nat)
    requires Right(s, Some(i)) && Enabled(s, PublishFile(i))
    ensures Right(After(s, PublishFile(i)), Some(i))
  {
    hide Replay;
    SuffixDecides(s.log, s.collected);
    var r := After(s, PublishFile(i));
    forall k
      ensures Val(Restarted(r), k) == Val(Replay(r.log), k)
      ensures Val(r.files + r.views[i].mem, k) == Val(Replay(r.log), k)
    {
      assert Val(s.files + s.views[i].mem, k) == Val(Replay(s.log), k);
    }
  }

  lemma CollectIsRight(s: System, i: nat)
    requires Right(s, Some(i)) && Enabled(s, ClearList(i))
    ensures Right(After(s, ClearList(i)), Some(i))
  {
    hide Replay;
    assert s.log[|s.log|..] == [];
    EmptyReplay();
    var r := After(s, ClearList(i));
    forall k
      ensures Val(Restarted(r), k) == Val(Replay(r.log), k)
      ensures Val(r.files + r.views[i].mem, k) == Val(Replay(r.log), k)
    {
      assert Val(s.files + s.views[i].mem, k) == Val(Replay(s.log), k);
    }
  }

  lemma LoadIsRight(s: System, cur: Option<nat>, i: nat)
    requires Right(s, cur) && Enabled(s, Load(i))
    ensures Right(After(s, Load(i)), Some(i))
  {
    hide Replay;
    var r := After(s, Load(i));
    forall k
      ensures Val(Restarted(r), k) == Val(Replay(r.log), k)
      ensures Val(r.files + r.views[i].mem, k) == Val(Replay(r.log), k)
    {
      assert Val(Restarted(s), k) == Val(Replay(s.log), k);
    }
  }

  lemma StepIsRight(s: System, cur: Option<nat>, step: Step)
    requires Right(s, cur) && Enabled(s, step) && Orderly(cur, step)
    ensures Right(After(s, step), Current(cur, step))
  {
    match step
    case Claim(_) =>
    case Load(i) => LoadIsRight(s, cur, i);
    case Check(_) =>
    case List(i, ops) => ListIsRight(s, i, ops);
    case PublishFile(i) => PublishIsRight(s, i);
    case ClearList(i) => CollectIsRight(s, i);
  }

  ghost predicate OrderlyRun(s: System, cur: Option<nat>, steps: seq<Step>, t: System, last: Option<nat>)
    decreases |steps|
  {
    if steps == [] then s == t && cur == last else
      Enabled(s, steps[0]) && Orderly(cur, steps[0]) && OrderlyRun(After(s, steps[0]), Current(cur, steps[0]), steps[1..], t, last)
  }

  lemma {:induction false} OrderlyRunsKeep(s: System, cur: Option<nat>, steps: seq<Step>, t: System, last: Option<nat>)
    requires Right(s, cur) && OrderlyRun(s, cur, steps, t, last)
    ensures Right(t, last)
    decreases |steps|
  {
    hide Right, Enabled, After, Orderly;
    if steps != [] {
      StepIsRight(s, cur, steps[0]);
      OrderlyRunsKeep(After(s, steps[0]), Current(cur, steps[0]), steps[1..], t, last);
    }
  }

  /** Through any number of orderly takeovers every acknowledged append survives. */
  lemma OrderlyTakeoversKeep(steps: seq<Step>, t: System, last: Option<nat>)
    requires OrderlyRun(NOTHING, None, steps, t, last)
    ensures Right(t, last)
  {
    assert NOTHING.log[0..] == [];
    OrderlyRunsKeep(NOTHING, None, steps, t, last);
  }

  // ---------------------------------------------------------------------------
  // A late append
  // ---------------------------------------------------------------------------

  /** The successor publishes all it holds and clears the list. */
  ghost function Settled(s: System, i: nat): (r: System)
    requires Enabled(s, Check(i))
  {
    After(After(After(s, Check(i)), PublishFile(i)), ClearList(i))
  }

  lemma SettledRestart(s: System, i: nat)
    requires Enabled(s, Check(i))
    ensures var r := Settled(s, i); r.log == s.log && r.collected == |s.log| && Restarted(r) == s.files + s.views[i].mem
  {
    hide Replay;
    assert s.log[|s.log|..] == [];
    EmptyReplay();
  }

  /**
   A superseded writer lists an append after its successor loaded. While it stays listed a
   restart brings it back. The successor does not see it, and once the successor publishes
   and collects, it survives for a key exactly when it left the key as it was.
   */
  lemma LateAppendSurvivesWhen(s: System, former: nat, successor: nat, ops: Run, k: Key)
    requires Right(s, Some(successor)) && s.owner == Some(successor) && former != successor && s.views[successor].loaded
    requires Enabled(s, List(former, ops))
    ensures var t := After(s, List(former, ops));
            && Val(Restarted(t), k) == Val(Replay(t.log), k)
            && Enabled(t, Check(successor))
            && (Val(t.files + t.views[successor].mem, k) == Val(Replay(t.log), k) <==> LeavesAlone(s.log, ops, k))
            && var u := Settled(t, successor);
               && u.collected <= |u.log|
               && (Val(Restarted(u), k) == Val(Replay(u.log), k) <==> LeavesAlone(s.log, ops, k))
  {
    hide Replay, Last, Settled, Restarted;
    ListedRestart(s, former, ops);
    ReplaySnoc(s.log, ops);
    SettledRestart(After(s, List(former, ops)), successor);
    assert Val(s.files + s.views[successor].mem, k) == Val(Replay(s.log), k);
  }

  predicate LeavesAlone(log: seq<Run>, ops: Run, k: Key)
  {
    k in Last(ops) ==> Last(ops)[k] == Val(Replay(log), k)
  }

  lemma {:induction false} ReachesMore(s: System, steps: seq<Step>, t: System, step: Step)
    requires Reaches(s, steps, t) && Enabled(t, step)
    ensures Reaches(s, steps + [step], After(t, step))
    decreases |steps|
  {
    hide Enabled, After;
    var all := steps + [step];
    if steps == [] {
      assert all[1..] == [];
    } else {
      ReachesMore(After(s, steps[0]), steps[1..], t, step);
      assert all[1..] == steps[1..] + [step];
    }
  }

  /**
   Such a run from nothing: the first writer looks at the ownership record, the second
   claims it and loads, the first lists its append, and the second writes another key,
   publishes and collects. The acknowledged append is gone.
   */
  lemma LateAppendIsLost(k: Key, j: Key, v: Value) returns (steps: seq<Step>, s: System)
    requires j != k
    ensures Reaches(NOTHING, steps, s) && s.collected <= |s.log|
    ensures Val(Replay(s.log), k) == Some(v) && Val(Restarted(s), k) == None
  {
    var x, y := PutOnce(k, v), PutOnce(j, v);
    LastOnce(k, v);
    LastOnce(j, v);
    EmptyReplay();
    ReplayOne(x);
    ReplaySnoc([x], y);
    hide Replay, Last, PutOnce;
    var s1 := After(NOTHING, Claim(0));
    ReachesMore(NOTHING, [], NOTHING, Claim(0));
    var s2 := After(s1, Load(0));
    ReachesMore(NOTHING, [] + [Claim(0)], s1, Load(0));
    var s3 := After(s2, Check(0));
    ReachesMore(NOTHING, [] + [Claim(0)] + [Load(0)], s2, Check(0));
    var s4 := After(s3, Claim(1));
    ReachesMore(NOTHING, [] + [Claim(0)] + [Load(0)] + [Check(0)], s3, Claim(1));
    var s5 := After(s4, Load(1));
    ReachesMore(NOTHING, [] + [Claim(0)] + [Load(0)] + [Check(0)] + [Claim(1)], s4, Load(1));
    assert NOTHING.log[0..] == [];
    steps, s := LostFrom([] + [Claim(0)] + [Load(0)] + [Check(0)] + [Claim(1)] + [Load(1)], s5, x, y);
    assert [x] + [y] == s.log;
  }

  lemma LostFrom(before: seq<Step>, s5: System, x: Run, y: Run) returns (steps: seq<Step>, s: System)
    requires Reaches(NOTHING, before, s5)
    requires s5.log == [] && s5.collected == 0 && s5.files == map[] && s5.owner == Some(1) && 0 in s5.views && 1 in s5.views
    requires s5.views[0].loaded && s5.views[0].checked && s5.views[1].loaded && s5.views[1].mem == map[]
    ensures Reaches(NOTHING, steps, s) && s.log == [x] + [y] && s.collected <= |s.log| && Restarted(s) == Last(y)
  {
    hide Replay, Last, Reaches;
    var s6 := After(s5, List(0, x));
    ReachesMore(NOTHING, before, s5, List(0, x));
    var s7 := After(s6, Check(1));
    ReachesMore(NOTHING, before + [List(0, x)], s6, Check(1));
    var s8 := After(s7, List(1, y));
    ReachesMore(NOTHING, before + [List(0, x)] + [Check(1)], s7, List(1, y));
    steps, s := LostAfter(before + [List(0, x)] + [Check(1)] + [List(1, y)], s8, y);
  }

  lemma LostAfter(before: seq<Step>, s8: System, y: Run) returns (steps: seq<Step>, s: System)
    requires Reaches(NOTHING, before, s8) && s8.files == map[] && s8.owner == Some(1) && s8.collected <= |s8.log|
    requires 1 in s8.views && s8.views[1].loaded && s8.views[1].mem == Last(y)
    ensures Reaches(NOTHING, steps, s) && s.log == s8.log && s.collected <= |s.log| && Restarted(s) == Last(y)
  {
    hide Replay, Last, Reaches;
    var s9 := After(s8, Check(1));
    ReachesMore(NOTHING, before, s8, Check(1));
    var s10 := After(s9, PublishFile(1));
    ReachesMore(NOTHING, before + [Check(1)], s9, PublishFile(1));
    s := After(s10, ClearList(1));
    steps := before + [Check(1)] + [PublishFile(1)] + [ClearList(1)];
    ReachesMore(NOTHING, before + [Check(1)] + [PublishFile(1)], s10, ClearList(1));
    assert s.log[|s.log|..] == [];
    EmptyReplay();
  }
}

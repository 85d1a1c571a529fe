/**
 WALs applied in some order beside the log they come from. A process may read only some of
 the WALs, and some of them twice; these lemmas say exactly when it ends up with the value
 the whole log gives a key.
 */
module Replays {
  import opened Keys
  import opened Wrappers
  import opened Merge
  import opened Writer

  lemma {:induction false} ReplayConcat(a: seq<Run>, b: seq<Run>)
    ensures Replay(a + b) == Replay(a) + Replay(b)
    decreases |b|
  {
    hide Last;
    if b == [] {
      assert a + b == a;
    } else {
      ReplayConcat(a, b[..|b| - 1]);
      assert (a + b)[..|a + b| - 1] == a + b[..|b| - 1];
      PlusAssoc(Replay(a), Replay(b[..|b| - 1]), Last(b[|b| - 1]));
    }
  }

  lemma ReplayOne(ops: Run)
    ensures Replay([ops]) == Last(ops)
  {
    var wals: seq<Run> := [ops];
    assert wals[..0] == [];
  }

  lemma EmptyReplay()
    ensures Replay([]) == map[]
  {
  }

  // ---------------------------------------------------------------------------
  // Ids
  // ---------------------------------------------------------------------------

  function Ids(lo: nat, hi: nat): (ids: seq<nat>)
    requires lo <= hi
  {
    seq(hi - lo, i requires 0 <= i < hi - lo => lo + i)
  }

  predicate InSpan(id: int, lo: nat, hi: nat)
  {
    lo <= id < hi
  }

  lemma IdsMembers(lo: nat, hi: nat)
    requires lo <= hi
    ensures forall id :: id in Ids(lo, hi) <==> InSpan(id, lo, hi)
  {
    forall id | InSpan(id, lo, hi)
      ensures id in Ids(lo, hi)
    {
      assert Ids(lo, hi)[id - lo] == id;
    }
  }

  ghost predicate Known(log: seq<Run>, ids: seq<nat>)
  {
    forall i :: 0 <= i < |ids| ==> ids[i] < |log|
  }

  /** The WALs with these ids, in their order. */
  function RunsAt(log: seq<Run>, ids: seq<nat>): (runs: seq<Run>)
    requires Known(log, ids)
  {
    seq(|ids|, i requires 0 <= i < |ids| => log[ids[i]])
  }

  lemma RunsAtGrows(log: seq<Run>, more: seq<Run>, ids: seq<nat>)
    requires Known(log, ids)
    ensures Known(log + more, ids) && RunsAt(log + more, ids) == RunsAt(log, ids)
  {
  }

  lemma RunsAtConcat(log: seq<Run>, a: seq<nat>, b: seq<nat>)
    requires Known(log, a) && Known(log, b)
    ensures Known(log, a + b) && RunsAt(log, a + b) == RunsAt(log, a) + RunsAt(log, b)
    ensures Replay(RunsAt(log, a + b)) == Replay(RunsAt(log, a)) + Replay(RunsAt(log, b))
  {
    hide Replay;
    assert RunsAt(log, a + b) == RunsAt(log, a) + RunsAt(log, b);
    ReplayConcat(RunsAt(log, a), RunsAt(log, b));
  }

  lemma RunsAtSnoc(log: seq<Run>, ids: seq<nat>)
    requires Known(log, ids) && ids != []
    ensures var n := |ids| - 1; RunsAt(log, ids) == RunsAt(log, ids[..n]) + [log[ids[n]]]
  {
  }

  lemma NoRuns(log: seq<Run>)
    ensures Replay(RunsAt(log, [])) == map[]
  {
  }

  lemma RunsAtSpan(log: seq<Run>, lo: nat, hi: nat)
    requires lo <= hi <= |log|
    ensures Known(log, Ids(lo, hi)) && RunsAt(log, Ids(lo, hi)) == log[lo..hi]
  {
  }

  // ---------------------------------------------------------------------------
  // The writer that decides a key
  // ---------------------------------------------------------------------------

  /** The position of the last applied WAL that writes the key. */
  ghost function LastWriter(log: seq<Run>, ids: seq<nat>, k: Key): (p: Option<nat>)
    requires Known(log, ids)
    ensures p.Some? ==> p.value < |ids| && k in Last(log[ids[p.value]])
  {
    if ids == [] then None
    else if k in Last(log[ids[|ids| - 1]]) then Some(|ids| - 1)
    else LastWriter(log, ids[..|ids| - 1], k)
  }

  /** The key is applied exactly when a WAL writes it, with the value of the last one that does. */
  lemma {:induction false} WriterDecides(log: seq<Run>, ids: seq<nat>, k: Key)
    requires Known(log, ids)
    ensures var p, t := LastWriter(log, ids, k), Replay(RunsAt(log, ids));
            && (k in t <==> p.Some?)
            && (p.Some? ==> t[k] == Last(log[ids[p.value]])[k])
            && forall i :: 0 <= i < |ids| && (p.None? || i > p.value) ==> k !in Last(log[ids[i]])
    decreases |ids|
  {
    hide Last, Replay, RunsAt;
    if ids == [] {
      NoRuns(log);
    } else {
      var n := |ids| - 1;
      WriterDecides(log, ids[..n], k);
      RunsAtSnoc(log, ids);
      ReplaySnoc(RunsAt(log, ids[..n]), log[ids[n]]);
    }
  }

  /** The WALs from `a` on that are not among `ids`. */
  function Unseen(log: seq<Run>, ids: seq<nat>, a: nat): (runs: seq<Run>)
    requires a <= |log|
    decreases |log| - a
  {
    if a == |log| then [] else (if a in ids then [] else [log[a]]) + Unseen(log, ids, a + 1)
  }

  /** WALs silent on a key do not matter to its replay. */
  lemma {:induction false} SilentSkipped(log: seq<Run>, ids: seq<nat>, a: nat, k: Key)
    requires a <= |log| && forall i :: 0 <= i < |ids| && a <= ids[i] < |log| ==> k !in Last(log[ids[i]])
    ensures k in Replay(log[a..]) <==> k in Replay(Unseen(log, ids, a))
    ensures k in Replay(log[a..]) ==> Replay(log[a..])[k] == Replay(Unseen(log, ids, a))[k]
    decreases |log| - a
  {
    hide Last, Replay;
    if a == |log| {
      assert log[a..] == [];
    } else {
      SilentSkipped(log, ids, a + 1, k);
      assert log[a..] == [log[a]] + log[a + 1..];
      ReplayConcat([log[a]], log[a + 1..]);
      ReplayOne(log[a]);
      if a in ids {
        assert [] + Unseen(log, ids, a + 1) == Unseen(log, ids, a + 1);
      } else {
        ReplayConcat([log[a]], Unseen(log, ids, a + 1));
      }
    }
  }

  lemma {:induction false} SilentFrom(log: seq<Run>, a: nat, k: Key)
    requires a <= |log| && forall id :: InSpan(id, a, |log|) ==> k !in Last(log[id])
    ensures k !in Replay(log[a..])
    decreases |log| - a
  {
    hide Last, Replay;
    if a == |log| {
      assert log[a..] == [];
      EmptyReplay();
    } else {
      SilentFrom(log, a + 1, k);
      assert InSpan(a, a, |log|);
      assert log[a..] == [log[a]] + log[a + 1..];
      ReplayConcat([log[a]], log[a + 1..]);
      ReplayOne(log[a]);
    }
  }

  lemma {:induction false} NothingUnseen(log: seq<Run>, ids: seq<nat>, a: nat)
    requires a <= |log| && forall id :: InSpan(id, a, |log|) ==> id in ids
    ensures Unseen(log, ids, a) == []
    decreases |log| - a
  {
    if a < |log| {
      assert InSpan(a, a, |log|);
      NothingUnseen(log, ids, a + 1);
    }
  }

  /** What the log says of a key, from one of its writers on. */
  lemma WriterAndLater(log: seq<Run>, a: nat, k: Key)
    requires a < |log| && k in Last(log[a])
    ensures Val(Replay(log), k) == if k in Replay(log[a + 1..]) then Replay(log[a + 1..])[k] else Last(log[a])[k]
  {
    hide Last, Replay;
    assert log == log[..a] + log[a..] && log[a..] == [log[a]] + log[a + 1..];
    ReplayConcat(log[..a], log[a..]);
    ReplayConcat([log[a]], log[a + 1..]);
    ReplayOne(log[a]);
  }

  /**
   The WALs that come after the last applied writer of the key in the log, but were not
   applied after it, leave the key as that writer left it. Where no applied WAL writes the
   key, those never applied leave it absent.
   */
  ghost predicate NotOvertaken(log: seq<Run>, ids: seq<nat>, k: Key)
    requires Known(log, ids)
  {
    var p := LastWriter(log, ids, k);
    if p.Some? then
      var missed := Replay(Unseen(log, ids[p.value + 1..], ids[p.value] + 1));
      k in missed ==> missed[k] == Last(log[ids[p.value]])[k]
    else
      Val(Replay(Unseen(log, ids, 0)), k) == None
  }

  /** Applying WALs in any order gives a key the value of the whole log exactly when it was not overtaken. */
  lemma RightWhenNotOvertaken(log: seq<Run>, ids: seq<nat>, k: Key)
    requires Known(log, ids)
    ensures Val(Replay(RunsAt(log, ids)), k) == Val(Replay(log), k) <==> NotOvertaken(log, ids, k)
  {
    hide Last, Replay, RunsAt, Unseen;
    WriterDecides(log, ids, k);
    var p := LastWriter(log, ids, k);
    hide LastWriter;
    if p.Some? {
      WriterAndLater(log, ids[p.value], k);
      SilentSkipped(log, ids[p.value + 1..], ids[p.value] + 1, k);
    } else {
      SilentSkipped(log, ids, 0, k);
      assert log[0..] == log;
    }
  }
}

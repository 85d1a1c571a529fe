/**
 Compaction of the SST list (`compact_inner` in `src/store/lsm/store.rs`). Tables are
 taken with their blob pointers already dereferenced. The list is oldest first and its
 position is the recency.
 */
module Compaction {
  import opened Keys
  import opened Merge

  datatype SstRec = SstRec(seqNo: nat, level: nat, minKey: Key, maxKey: Key, size: nat, table: Table)

  /** The table a list of files stands for: a later file wins. */
  ghost function Stack(ssts: seq<SstRec>): (t: Table)
  {
    if ssts == [] then map[] else Stack(ssts[..|ssts| - 1]) + ssts[|ssts| - 1].table
  }

  lemma StackSnoc(ssts: seq<SstRec>, s: SstRec)
    ensures Stack(ssts + [s]) == Stack(ssts) + s.table
  {
    assert (ssts + [s])[..|ssts|] == ssts;
  }

  predicate Meets(s: SstRec, lo: Key, hi: Key)
  {
    !Lt(s.maxKey, lo) && !Lt(hi, s.minKey)
  }

  // ---------------------------------------------------------------------------
  // The layout every manifest keeps
  // ---------------------------------------------------------------------------

  ghost predicate CoversTable(s: SstRec)
  {
    forall k :: k in s.table ==> InFile(s, k)
  }

  /**
   Write sequences strictly ascend, every level-1 file precedes every level-0 file, ranges
   cover their tables, and no key lives in two level-1 files.
   */
  ghost predicate Layout(ssts: seq<SstRec>)
  {
    && (forall i :: 0 <= i < |ssts| ==> ssts[i].level <= 1 && ssts[i].table != map[] && CoversTable(ssts[i]))
    && (forall i, j :: 0 <= i < j < |ssts| ==> ssts[i].seqNo < ssts[j].seqNo)
    && (forall i, j :: 0 <= i < j < |ssts| && ssts[j].level == 1 ==> ssts[i].level == 1)
    && (forall i, j :: 0 <= i < j < |ssts| && ssts[j].level == 1 ==> ssts[i].table.Keys !! ssts[j].table.Keys)
  }

  ghost predicate Below(ssts: seq<SstRec>, n: nat)
  {
    forall i :: 0 <= i < |ssts| ==> ssts[i].seqNo < n
  }

  // ---------------------------------------------------------------------------
  // Splitting the list
  // ---------------------------------------------------------------------------

  /** The files whose flag is `b`, in list order. */
  function Part(ssts: seq<SstRec>, pick: seq<bool>, b: bool): (r: seq<SstRec>)
    requires |pick| == |ssts|
  {
    if ssts == [] then [] else
      var n := |ssts| - 1;
      Part(ssts[..n], pick[..n], b) + if pick[n] == b then [ssts[n]] else []
  }

  /** No file with flag `b` mentions `k`. */
  ghost predicate Silent(ssts: seq<SstRec>, pick: seq<bool>, b: bool, k: Key)
    requires |pick| == |ssts|
  {
    forall i :: 0 <= i < |ssts| && pick[i] == b ==> k !in ssts[i].table
  }

  lemma {:induction false} PartDecides(ssts: seq<SstRec>, pick: seq<bool>, b: bool, k: Key)
    requires |pick| == |ssts| && Silent(ssts, pick, !b, k)
    ensures k in Stack(ssts) <==> k in Stack(Part(ssts, pick, b))
    ensures k in Stack(ssts) ==> Stack(ssts)[k] == Stack(Part(ssts, pick, b))[k]
    decreases |ssts|
  {
    if ssts != [] {
      var n := |ssts| - 1;
      PartDecides(ssts[..n], pick[..n], b, k);
      var p := Part(ssts[..n], pick[..n], b);
      if pick[n] == b {
        assert (p + [ssts[n]])[..|p|] == p;
      } else {
        assert Part(ssts, pick, b) == p;
      }
    }
  }

  lemma {:induction false} PartSilent(ssts: seq<SstRec>, pick: seq<bool>, b: bool, k: Key)
    requires |pick| == |ssts| && Silent(ssts, pick, b, k)
    ensures k !in Stack(Part(ssts, pick, b))
    decreases |ssts|
  {
    if ssts != [] {
      var n := |ssts| - 1;
      PartSilent(ssts[..n], pick[..n], b, k);
      var p := Part(ssts[..n], pick[..n], b);
      if pick[n] == b {
        assert (p + [ssts[n]])[..|p|] == p;
      } else {
        assert Part(ssts, pick, b) == p;
      }
    }
  }

  /** Every file of a part sits in the list, in the same order. */
  lemma {:induction false} PartFrom(ssts: seq<SstRec>, pick: seq<bool>, b: bool) returns (at: seq<nat>)
    requires |pick| == |ssts|
    ensures |at| == |Part(ssts, pick, b)|
    ensures forall i :: 0 <= i < |at| ==> at[i] < |ssts| && pick[at[i]] == b && Part(ssts, pick, b)[i] == ssts[at[i]]
    ensures forall i, j :: 0 <= i < j < |at| ==> at[i] < at[j]
    decreases |ssts|
  {
    if ssts == [] {
      at := [];
    } else {
      var n := |ssts| - 1;
      at := PartFrom(ssts[..n], pick[..n], b);
      if pick[n] == b {
        at := at + [n];
      }
    }
  }

  // ---------------------------------------------------------------------------
  // The compaction
  // ---------------------------------------------------------------------------

  predicate InFile(s: SstRec, k: Key)
  {
    !Lt(k, s.minKey) && !Lt(s.maxKey, k)
  }

  /**
   What the planner selects: every level-0 file, every level-1 file meeting their common
   key range, and possibly further level-1 files.
   */
  ghost predicate Selection(ssts: seq<SstRec>, pick: seq<bool>)
  {
    && |pick| == |ssts|
    && (forall i :: 0 <= i < |ssts| && ssts[i].level == 0 ==> pick[i])
    && (forall i, j, k ::
          (0 <= i < |ssts| && 0 <= j < |ssts| && ssts[i].level == 0 && k in ssts[i].table && InFile(ssts[j], k)) ==> pick[j])
  }

  /** All files mentioning a key are selected, or none is. */
  lemma SelectedTogether(ssts: seq<SstRec>, pick: seq<bool>, k: Key)
    requires Layout(ssts) && Selection(ssts, pick)
    ensures Silent(ssts, pick, true, k) || Silent(ssts, pick, false, k)
  {
    if i, j :| 0 <= i < |ssts| && 0 <= j < |ssts| && pick[i] && !pick[j] && k in ssts[i].table && k in ssts[j].table {
      TakenWith(ssts, pick, i, j, k);
      assert false;
    }
  }

  lemma TakenWith(ssts: seq<SstRec>, pick: seq<bool>, i: nat, j: nat, k: Key)
    requires Layout(ssts) && Selection(ssts, pick) && i < |ssts| && j < |ssts| && pick[i]
    requires k in ssts[i].table && k in ssts[j].table
    ensures pick[j]
  {
    assert CoversTable(ssts[j]) && InFile(ssts[j], k);
  }

  ghost function LiveTable(t: Table): Table
  {
    map k | k in t && t[k].Some? :: t[k]
  }

  /** The list after compacting `pick`; `l1` is the replacement, absent when no live key remains. */
  ghost function Replaced(ssts: seq<SstRec>, pick: seq<bool>, l1: SstRec): (r: seq<SstRec>)
    requires |pick| == |ssts|
  {
    Part(ssts, pick, false) + if l1.table == map[] then [] else [l1]
  }

  ghost predicate Replacement(ssts: seq<SstRec>, pick: seq<bool>, l1: SstRec)
    requires |pick| == |ssts|
  {
    l1.level == 1 && CoversTable(l1) && Below(ssts, l1.seqNo) && l1.table == LiveTable(Stack(Part(ssts, pick, true)))
  }

  lemma ReplacedStack(ssts: seq<SstRec>, pick: seq<bool>, l1: SstRec)
    requires |pick| == |ssts|
    ensures Stack(Replaced(ssts, pick, l1)) == Stack(Part(ssts, pick, false)) + l1.table
  {
    var p := Part(ssts, pick, false);
    if l1.table == map[] {
      assert p + [] == p;
    } else {
      assert (p + [l1])[..|p|] == p;
    }
  }

  /** Compaction changes no answer: the live contents of the list stay the same. */
  lemma CompactionPreservesMap(ssts: seq<SstRec>, pick: seq<bool>, l1: SstRec)
    requires Layout(ssts) && |pick| == |ssts| && Selection(ssts, pick) && Replacement(ssts, pick, l1)
    ensures Live(Stack(Replaced(ssts, pick, l1))) == Live(Stack(ssts))
  {
    hide Stack, Part, Silent, Layout, Selection;
    ReplacedStack(ssts, pick, l1);
    var before, after := Stack(ssts), Stack(Replaced(ssts, pick, l1));
    forall k
      ensures (k in before && before[k].Some?) <==> (k in after && after[k].Some?)
      ensures k in before && before[k].Some? ==> after[k] == before[k]
    {
      SelectedTogether(ssts, pick, k);
      if Silent(ssts, pick, false, k) {
        PartDecides(ssts, pick, true, k);
        PartSilent(ssts, pick, false, k);
      } else {
        PartDecides(ssts, pick, false, k);
        PartSilent(ssts, pick, true, k);
      }
    }
  }

  /** Compaction keeps the layout; in particular no key ends up in two level-1 files. */
  lemma CompactionKeepsLayout(ssts: seq<SstRec>, pick: seq<bool>, l1: SstRec)
    requires Layout(ssts) && Selection(ssts, pick) && Replacement(ssts, pick, l1)
    ensures Layout(Replaced(ssts, pick, l1)) && Below(Replaced(ssts, pick, l1), l1.seqNo + 1)
  {
    hide Stack, Part;
    var p, r := Part(ssts, pick, false), Replaced(ssts, pick, l1);
    var at := PartFrom(ssts, pick, false);
    forall i | 0 <= i < |p|
      ensures p[i].level == 1 && p[i].table.Keys !! l1.table.Keys
    {
      forall k | k in p[i].table
        ensures k !in l1.table
      {
        SelectedTogether(ssts, pick, k);
        assert k in ssts[at[i]].table && !pick[at[i]];
        PartSilent(ssts, pick, true, k);
      }
    }
  }
}

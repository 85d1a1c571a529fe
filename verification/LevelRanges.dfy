/**
 Whether level-1 key ranges stay apart under compaction (`compact_inner` in
 `src/store/lsm/store.rs`). Without the fold they do. With it they do exactly when no file
 left alone lies between live keys of the files taken.
 */
module LevelRanges {
  import opened Keys
  import opened Wrappers
  import opened Merge
  import opened Compaction
  import opened CompactionPlan

  predicate Apart(a: SstRec, b: SstRec)
  {
    Lt(a.maxKey, b.minKey) || Lt(b.maxKey, a.minKey)
  }

  ghost predicate RangesApart(ssts: seq<SstRec>)
  {
    forall i, j :: 0 <= i < j < |ssts| && ssts[i].level == 1 && ssts[j].level == 1 ==> Apart(ssts[i], ssts[j])
  }

  /** The table holds keys on both sides of the file's range. */
  ghost predicate Straddled(u: SstRec, t: Table)
  {
    exists a, b :: a in t && b in t && Lt(a, u.minKey) && Lt(u.maxKey, b)
  }

  ghost predicate NoneStraddled(ssts: seq<SstRec>, pick: seq<bool>, t: Table)
    requires |pick| == |ssts|
  {
    forall u :: 0 <= u < |ssts| && !pick[u] ==> !Straddled(ssts[u], t)
  }

  // ---------------------------------------------------------------------------
  // Keys of the files taken lie beside every file left alone
  // ---------------------------------------------------------------------------

  lemma TakenFrom(ssts: seq<SstRec>, pick: seq<bool>, k: Key) returns (i: nat)
    requires |pick| == |ssts| && k in Stack(Part(ssts, pick, true))
    ensures i < |ssts| && pick[i] && k in ssts[i].table
  {
    if Silent(ssts, pick, true, k) {
      PartSilent(ssts, pick, true, k);
    }
    i :| 0 <= i < |ssts| && pick[i] && k in ssts[i].table;
  }

  lemma ApartPair(ssts: seq<SstRec>, i: nat, j: nat)
    requires RangesApart(ssts) && i < |ssts| && j < |ssts| && i != j && ssts[i].level == 1 && ssts[j].level == 1
    ensures Apart(ssts[i], ssts[j])
  {
    hide Lt;
    if i < j {
      assert Apart(ssts[i], ssts[j]);
    } else {
      assert Apart(ssts[j], ssts[i]);
    }
  }

  lemma BesideApart(p: SstRec, u: SstRec, k: Key)
    requires Apart(p, u) && InFile(p, k)
    ensures Lt(k, u.minKey) || Lt(u.maxKey, k)
  {
    hide Lt;
    Total(k, p.minKey);
    Total(k, p.maxKey);
    if Lt(p.maxKey, u.minKey) {
      if k != p.maxKey {
        Transitive(k, p.maxKey, u.minKey);
      }
    } else {
      if k != p.minKey {
        Transitive(u.maxKey, p.minKey, k);
      }
    }
  }

  lemma KeyBeside(ssts: seq<SstRec>, pick: seq<bool>, u: nat, k: Key)
    requires Layout(ssts) && RangesApart(ssts) && Selection(ssts, pick) && u < |ssts| && !pick[u]
    requires k in Stack(Part(ssts, pick, true))
    ensures Lt(k, ssts[u].minKey) || Lt(ssts[u].maxKey, k)
  {
    hide Lt, Stack, Part;
    var i := TakenFrom(ssts, pick, k);
    assert CoversTable(ssts[i]) && InFile(ssts[i], k);
    if ssts[i].level == 1 {
      ApartPair(ssts, i, u);
      BesideApart(ssts[i], ssts[u], k);
    }
  }

  // ---------------------------------------------------------------------------
  // The exact condition
  // ---------------------------------------------------------------------------

  lemma {:induction false} PartHolds(ssts: seq<SstRec>, pick: seq<bool>, b: bool, u: nat)
    requires |pick| == |ssts| && u < |ssts| && pick[u] == b
    ensures ssts[u] in Part(ssts, pick, b)
    decreases |ssts|
  {
    var n := |ssts| - 1;
    if u < n {
      PartHolds(ssts[..n], pick[..n], b, u);
    }
  }

  /** A new file with tight ends is apart from a file it does not straddle. */
  lemma NewApart(u: SstRec, l1: SstRec)
    requires l1.minKey in l1.table && l1.maxKey in l1.table && CoversTable(l1) && !Lt(u.maxKey, u.minKey)
    requires forall k :: k in l1.table ==> Lt(k, u.minKey) || Lt(u.maxKey, k)
    ensures Apart(u, l1) <==> !Straddled(u, l1.table)
  {
    hide Lt;
    if Straddled(u, l1.table) {
      var a, b :| a in l1.table && b in l1.table && Lt(a, u.minKey) && Lt(u.maxKey, b);
      assert InFile(l1, a) && InFile(l1, b);
      if Lt(u.maxKey, l1.minKey) {
        NotBoth(u, l1.minKey, a);
      }
      if Lt(l1.maxKey, u.minKey) {
        NotBothAbove(u, l1.maxKey, b);
      }
    }
  }

  /** A key below the file cannot be at or above one that lies past it. */
  lemma NotBoth(u: SstRec, min: Key, a: Key)
    requires Lt(u.maxKey, min) && Lt(a, u.minKey) && !Lt(u.maxKey, u.minKey)
    ensures Lt(a, min)
  {
    hide Lt;
    Total(u.minKey, u.maxKey);
    if u.minKey != u.maxKey {
      Transitive(a, u.minKey, u.maxKey);
    }
    Transitive(a, u.maxKey, min);
  }

  lemma NotBothAbove(u: SstRec, max: Key, b: Key)
    requires Lt(max, u.minKey) && Lt(u.maxKey, b) && !Lt(u.maxKey, u.minKey)
    ensures Lt(max, b)
  {
    hide Lt;
    Total(u.minKey, u.maxKey);
    if u.minKey != u.maxKey {
      Transitive(max, u.minKey, u.maxKey);
    }
    Transitive(max, u.maxKey, b);
  }

  lemma KeptApart(ssts: seq<SstRec>, pick: seq<bool>)
    requires RangesApart(ssts) && |pick| == |ssts|
    ensures RangesApart(Part(ssts, pick, false))
  {
    hide Part, Apart;
    var at := PartFrom(ssts, pick, false);
    var p := Part(ssts, pick, false);
    forall i, j | 0 <= i < j < |p| && p[i].level == 1 && p[j].level == 1
      ensures Apart(p[i], p[j])
    {
      assert at[i] < at[j] && p[i] == ssts[at[i]] && p[j] == ssts[at[j]];
    }
  }

  lemma LastApart(p: seq<SstRec>, l1: SstRec)
    requires RangesApart(p) && l1.level == 1 && forall i :: 0 <= i < |p| ==> p[i].level == 1
    ensures RangesApart(p + [l1]) <==> forall i :: 0 <= i < |p| ==> Apart(p[i], l1)
  {
    hide Apart;
    var r := p + [l1];
    assert r[|p|] == l1 && forall i :: 0 <= i < |p| ==> r[i] == p[i];
    if RangesApart(r) {
      forall i | 0 <= i < |p|
        ensures Apart(p[i], l1)
      {
        assert Apart(r[i], r[|p|]);
      }
    }
  }

  /**
   From a list whose level-1 ranges are apart, the list after the pass has them apart if
   and only if no file left alone has live keys of the files taken on both sides.
   */
  lemma ApartWhen(ssts: seq<SstRec>, pick: seq<bool>, l1: SstRec)
    requires |pick| == |ssts|
    requires Layout(ssts) && RangesApart(ssts) && Selection(ssts, pick) && Replacement(ssts, pick, l1) && Tight(l1)
    ensures RangesApart(Replaced(ssts, pick, l1)) <==> NoneStraddled(ssts, pick, LiveTable(Stack(Part(ssts, pick, true))))
  {
    hide Lt, Stack, Part, Apart, RangesApart, Straddled, LiveTable, Layout, Selection;
    var p := Part(ssts, pick, false);
    KeptApart(ssts, pick);
    if l1.table == map[] {
      assert p + [] == p;
      forall u | 0 <= u < |ssts|
        ensures !Straddled(ssts[u], l1.table)
      {
        NothingStraddles(ssts[u], l1.table);
      }
    } else {
      forall u | 0 <= u < |ssts| && !pick[u]
        ensures Apart(ssts[u], l1) <==> !Straddled(ssts[u], l1.table)
      {
        LeftAlone(ssts, pick, l1, u);
      }
      KeptFiles(ssts, pick);
      LastApart(p, l1);
      if NoneStraddled(ssts, pick, l1.table) {
        forall i | 0 <= i < |p|
          ensures Apart(p[i], l1)
        {
          assert p[i] in p;
          var u :| 0 <= u < |ssts| && !pick[u] && ssts[u] == p[i];
        }
      }
      if RangesApart(p + [l1]) {
        forall u | 0 <= u < |ssts| && !pick[u]
          ensures !Straddled(ssts[u], l1.table)
        {
          PartHolds(ssts, pick, false, u);
          var i :| 0 <= i < |p| && p[i] == ssts[u];
          assert Apart(p[i], l1);
        }
      }
    }
  }

  lemma NothingStraddles(u: SstRec, t: Table)
    requires t == map[]
    ensures !Straddled(u, t)
  {
  }

  lemma KeptFiles(ssts: seq<SstRec>, pick: seq<bool>)
    requires Layout(ssts) && Selection(ssts, pick)
    ensures var p := Part(ssts, pick, false);
            && (forall i :: 0 <= i < |p| ==> p[i].level == 1)
            && (forall s :: s in p ==> exists u :: 0 <= u < |ssts| && !pick[u] && ssts[u] == s)
  {
    hide Part;
    var at := PartFrom(ssts, pick, false);
    var p := Part(ssts, pick, false);
    forall s | s in p
      ensures exists u :: 0 <= u < |ssts| && !pick[u] && ssts[u] == s
    {
      var i :| 0 <= i < |p| && p[i] == s;
      assert ssts[at[i]] == s;
    }
  }

  lemma LeftAlone(ssts: seq<SstRec>, pick: seq<bool>, l1: SstRec, u: nat)
    requires Layout(ssts) && RangesApart(ssts) && Selection(ssts, pick) && Replacement(ssts, pick, l1) && Tight(l1)
    requires l1.table != map[] && u < |ssts| && !pick[u]
    ensures Apart(ssts[u], l1) <==> !Straddled(ssts[u], l1.table)
  {
    hide Lt, Stack, Part;
    RangeNotEmpty(ssts[u]);
    forall k | k in l1.table
      ensures Lt(k, ssts[u].minKey) || Lt(ssts[u].maxKey, k)
    {
      KeyBeside(ssts, pick, u, k);
    }
    NewApart(ssts[u], l1);
  }

  // ---------------------------------------------------------------------------
  // Without the fold
  // ---------------------------------------------------------------------------

  /** Every file taken meets the level-0 range, so the file left alone has all their keys on one side. */
  lemma OneSided(ssts: seq<SstRec>, pick: seq<bool>, lo: Key, hi: Key, order: seq<nat>, w: nat, u: nat, k: Key)
    requires Layout(ssts) && RangesApart(ssts) && Planned(ssts, pick, lo, hi, order, w) && Count(ssts, 1) < L1_MERGE_COUNT
    requires u < |ssts| && !pick[u] && k in Stack(Part(ssts, pick, true))
    ensures Lt(ssts[u].maxKey, lo) || Lt(hi, ssts[u].minKey)
    ensures Lt(ssts[u].maxKey, lo) ==> Lt(ssts[u].maxKey, k)
    ensures Lt(hi, ssts[u].minKey) ==> Lt(k, ssts[u].minKey)
  {
    hide Lt, Stack, Part, Count;
    var i := TakenFrom(ssts, pick, k);
    RangeNotEmpty(ssts[u]);
    assert CoversTable(ssts[i]) && InFile(ssts[i], k);
    if ssts[i].level == 0 {
      Beyond(ssts[u], lo, hi, k, ssts[i]);
    } else {
      ApartPair(ssts, i, u);
      BesideHull(ssts[u], lo, hi, k, ssts[i]);
    }
  }

  /** Keys of a level-0 file lie in the range. */
  lemma Beyond(u: SstRec, lo: Key, hi: Key, k: Key, f: SstRec)
    requires InFile(f, k) && !Lt(f.minKey, lo) && !Lt(hi, f.maxKey)
    ensures Lt(u.maxKey, lo) ==> Lt(u.maxKey, k)
    ensures Lt(hi, u.minKey) ==> Lt(k, u.minKey)
  {
    hide Lt;
    if Lt(u.maxKey, lo) {
      Stretch(u.maxKey, lo, f.minKey);
      Stretch(u.maxKey, f.minKey, k);
    }
    if Lt(hi, u.minKey) {
      StretchDown(k, f.maxKey, hi, u.minKey);
    }
  }

  lemma Stretch(a: Key, b: Key, c: Key)
    requires Lt(a, b) && !Lt(c, b)
    ensures Lt(a, c)
  {
    hide Lt;
    Total(b, c);
    if b != c {
      Transitive(a, b, c);
    }
  }

  lemma StretchDown(k: Key, max: Key, hi: Key, b: Key)
    requires !Lt(max, k) && !Lt(hi, max) && Lt(hi, b)
    ensures Lt(k, b)
  {
    hide Lt;
    Total(max, hi);
    if max != hi {
      Transitive(max, hi, b);
    }
    Total(k, max);
    if k != max {
      Transitive(k, max, b);
    }
  }

  /** A level-1 file that meets the range and is apart from `u` lies on the range's side of it. */
  lemma BesideHull(u: SstRec, lo: Key, hi: Key, k: Key, f: SstRec)
    requires InFile(f, k) && Meets(f, lo, hi) && Apart(f, u) && !Lt(u.maxKey, u.minKey)
    ensures Lt(u.maxKey, lo) ==> Lt(u.maxKey, k)
    ensures Lt(hi, u.minKey) ==> Lt(k, u.minKey)
  {
    hide Lt;
    if Lt(u.maxKey, lo) {
      Stretch(u.maxKey, lo, f.maxKey);
      if Lt(f.maxKey, u.minKey) {
        Stretch(f.maxKey, u.minKey, u.maxKey);
        Asymmetric(f.maxKey, u.maxKey);
      }
      Stretch(u.maxKey, f.minKey, k);
    }
    if Lt(hi, u.minKey) {
      StretchDown(f.minKey, hi, hi, u.minKey) by {
        Irreflexive(hi);
      }
      if Lt(u.maxKey, f.minKey) {
        Stretch(f.minKey, u.minKey, u.maxKey);
        Asymmetric(f.minKey, u.maxKey);
      }
      StretchDown(k, f.maxKey, f.maxKey, u.minKey) by {
        Irreflexive(f.maxKey);
      }
    }
  }

  /** With fewer than sixteen level-1 files their ranges stay apart. */
  lemma ApartWithoutFold(ssts: seq<SstRec>, plan: Plan, seqNo: nat, r: seq<SstRec>)
    requires Layout(ssts) && RangesApart(ssts) && PassDone(ssts, seqNo, plan, r) && Count(ssts, 1) < L1_MERGE_COUNT
    ensures RangesApart(r)
  {
    hide Lt, Stack, Part, Count, Layout, RangesApart, Planned, Tight, Selection;
    var t := LiveTable(Stack(Part(ssts, plan.pick, true)));
    PlannedSelects(ssts, plan.pick, plan.lo, plan.hi, plan.order, plan.w);
    ApartWhen(ssts, plan.pick, plan.l1);
    forall u | 0 <= u < |ssts| && !plan.pick[u]
      ensures !Straddled(ssts[u], t)
    {
      if a, b :| a in t && b in t && Lt(a, ssts[u].minKey) && Lt(ssts[u].maxKey, b) {
        OneSided(ssts, plan.pick, plan.lo, plan.hi, plan.order, plan.w, u, a);
        OneSided(ssts, plan.pick, plan.lo, plan.hi, plan.order, plan.w, u, b);
        NotOneSided(ssts[u], a, b) by {
          LayoutRange(ssts, u);
        }
      }
    }
  }

  lemma LayoutRange(ssts: seq<SstRec>, u: nat)
    requires Layout(ssts) && u < |ssts|
    ensures !Lt(ssts[u].maxKey, ssts[u].minKey)
  {
    RangeNotEmpty(ssts[u]);
  }

  lemma NotOneSided(u: SstRec, a: Key, b: Key)
    requires Lt(a, u.minKey) && Lt(u.maxKey, b) && !Lt(u.maxKey, u.minKey)
    ensures !Lt(u.maxKey, a) && !Lt(b, u.minKey)
  {
    hide Lt;
    Stretch(a, u.minKey, u.maxKey);
    Asymmetric(a, u.maxKey);
    if Lt(b, u.minKey) {
      Stretch(b, u.minKey, u.maxKey);
      Asymmetric(b, u.maxKey);
    }
  }

  // ---------------------------------------------------------------------------
  // A fold that breaks the ranges
  // ---------------------------------------------------------------------------

  function OneKey(i: Byte, level: nat, seqNo: nat, size: nat): (s: SstRec)
  {
    SstRec(seqNo, level, [i], [i], size, map[[i] := Some([])])
  }

  /** Sixteen single-key level-1 files, the last two the smallest, and a level-0 file on the first key. */
  ghost predicate IsSample(ssts: seq<SstRec>)
  {
    && |ssts| == 17 && ssts[16] == OneKey(0, 0, 16, 1)
    && forall i :: 0 <= i < 16 ==> ssts[i] == OneKey(i, 1, i, if i >= 14 then 1 else 10)
  }

  ghost predicate IsIdentity(order: seq<nat>)
  {
    |order| == 16 && forall x :: 0 <= x < 16 ==> order[x] == x
  }

  lemma OneByteOrder()
    ensures forall a: Byte, b: Byte :: Lt([a], [b]) <==> a < b
  {
    forall a: Byte, b: Byte
      ensures Lt([a], [b]) <==> a < b
    {
      assert [a][1..] == [] && [b][1..] == [];
    }
  }

  lemma {:induction false} SampleCount(ssts: seq<SstRec>, n: nat)
    requires IsSample(ssts) && n <= 16
    ensures Count(ssts[..n], 1) == n && Count(ssts[..n], 0) == 0
  {
    if n > 0 {
      SampleCount(ssts, n - 1);
      assert ssts[..n][..n - 1] == ssts[..n - 1];
    }
  }

  lemma SampleOrder(ssts: seq<SstRec>, order: seq<nat>)
    requires IsSample(ssts) && IsIdentity(order)
    ensures Count(ssts, 1) == 16 && Count(ssts, 0) == 1
    ensures SmallestPair(ssts, order, 14)
  {
    hide Lt;
    OneByteOrder();
    SampleCount(ssts, 16);
    assert ssts[..17] == ssts;
  }

  lemma SampleLayout(ssts: seq<SstRec>)
    requires IsSample(ssts)
    ensures Layout(ssts)
  {
    hide Lt;
    OneByteOrder();
    forall i | 0 <= i < 17
      ensures CoversTable(ssts[i]) && ssts[i].table != map[]
    {
      assert ssts[i].minKey in ssts[i].table;
    }
  }

  lemma SampleApart(ssts: seq<SstRec>)
    requires IsSample(ssts)
    ensures RangesApart(ssts)
  {
    hide Lt;
    OneByteOrder();
  }

  lemma {:induction false} PartHas(ssts: seq<SstRec>, pick: seq<bool>, i: nat, k: Key)
    requires |pick| == |ssts| && i < |ssts| && pick[i] && k in ssts[i].table
    requires forall j, x :: 0 <= j < |ssts| && x in ssts[j].table ==> ssts[j].table[x].Some?
    ensures k in LiveTable(Stack(Part(ssts, pick, true)))
    decreases |ssts|
  {
    var n := |ssts| - 1;
    PartUnfold(ssts, pick);
    AllSome(ssts[..n], pick[..n]);
    if i < n {
      PartHas(ssts[..n], pick[..n], i, k);
    }
  }

  lemma {:induction false} AllSome(ssts: seq<SstRec>, pick: seq<bool>)
    requires |pick| == |ssts|
    requires forall j, x :: 0 <= j < |ssts| && x in ssts[j].table ==> ssts[j].table[x].Some?
    ensures forall x :: x in Stack(Part(ssts, pick, true)) ==> Stack(Part(ssts, pick, true))[x].Some?
    decreases |ssts|
  {
    if ssts != [] {
      var n := |ssts| - 1;
      PartUnfold(ssts, pick);
      AllSome(ssts[..n], pick[..n]);
    }
  }

  /**
   The rule merges the first, fifteenth and sixteenth file and leaves the sixth alone. The
   ranges were apart before; whatever file the pass writes, they are not apart after.
   */
  lemma FoldedRangesMayMeet(ssts: seq<SstRec>, pick: seq<bool>, order: seq<nat>, l1: SstRec)
    requires IsSample(ssts) && IsIdentity(order)
    requires |pick| == 17 && forall i :: 0 <= i < 17 ==> pick[i] == (i == 0 || i >= 14)
    requires Replacement(ssts, pick, l1) && Tight(l1)
    ensures Layout(ssts) && RangesApart(ssts) && Planned(ssts, pick, [0], [0], order, 14)
    ensures !RangesApart(Replaced(ssts, pick, l1))
  {
    PartHas(ssts, pick, 0, [0]);
    PartHas(ssts, pick, 15, [15]);
    OneByteOrder();
    hide Lt, Stack, Part, LiveTable, Layout, RangesApart, Planned, Selection, Tight, Replaced, Replacement;
    SampleLayout(ssts);
    SampleApart(ssts);
    SamplePlanned(ssts, pick, order);
    PlannedSelects(ssts, pick, [0], [0], order, 14);
    ApartWhen(ssts, pick, l1);
    assert Lt([0], ssts[5].minKey) && Lt(ssts[5].maxKey, [15]);
    assert !pick[5] && Straddled(ssts[5], LiveTable(Stack(Part(ssts, pick, true))));
  }

  lemma SamplePlanned(ssts: seq<SstRec>, pick: seq<bool>, order: seq<nat>)
    requires IsSample(ssts) && IsIdentity(order)
    requires |pick| == 17 && forall i :: 0 <= i < 17 ==> pick[i] == (i == 0 || i >= 14)
    ensures Planned(ssts, pick, [0], [0], order, 14)
  {
    hide Lt, SmallestPair, Count;
    SampleOrder(ssts, order);
    OneByteOrder();
    assert ssts[16].level == 0 && ssts[16].minKey == [0] && ssts[16].maxKey == [0];
  }
}

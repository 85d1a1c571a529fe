/** How `compact_inner` (`src/store/lsm/store.rs`) chooses the files to merge, and what it writes. */
module CompactionPlan {
  import opened Keys
  import opened Wrappers
  import opened Rows
  import opened Merge
  import opened Compaction

  const L0_TRIGGER: nat := 4

  const L0_BYTES_TRIGGER: nat := 128 * 1024 * 1024

  const L1_MERGE_COUNT: nat := 16

  function Count(ssts: seq<SstRec>, level: nat): (n: nat)
  {
    if ssts == [] then 0 else Count(ssts[..|ssts| - 1], level) + if ssts[|ssts| - 1].level == level then 1 else 0
  }

  function L0Bytes(ssts: seq<SstRec>): (n: nat)
  {
    if ssts == [] then 0 else
      L0Bytes(ssts[..|ssts| - 1]) + if ssts[|ssts| - 1].level == 0 then ssts[|ssts| - 1].size else 0
  }

  /** The key range spanned by the level-0 files; both ends are the empty string when there is none. */
  ghost predicate Hull(ssts: seq<SstRec>, lo: Key, hi: Key)
  {
    && (forall i :: 0 <= i < |ssts| && ssts[i].level == 0 ==> !Lt(ssts[i].minKey, lo) && !Lt(hi, ssts[i].maxKey))
    && (Count(ssts, 0) == 0 ==> lo == [] && hi == [])
    && (Count(ssts, 0) > 0 ==> exists i :: 0 <= i < |ssts| && ssts[i].level == 0 && ssts[i].minKey == lo)
    && (Count(ssts, 0) > 0 ==> exists i :: 0 <= i < |ssts| && ssts[i].level == 0 && ssts[i].maxKey == hi)
  }

  /** The level-1 files by ascending smallest key. */
  ghost predicate ByMin(ssts: seq<SstRec>, order: seq<nat>)
  {
    && |order| == Count(ssts, 1)
    && (forall x :: 0 <= x < |order| ==> order[x] < |ssts| && ssts[order[x]].level == 1)
    && (forall x, y :: 0 <= x < y < |order| ==> order[x] != order[y] && Le(ssts[order[x]].minKey, ssts[order[y]].minKey))
  }

  function PairSize(ssts: seq<SstRec>, order: seq<nat>, w: nat): (n: nat)
    requires w + 1 < |order| && order[w] < |ssts| && order[w + 1] < |ssts|
  {
    ssts[order[w]].size + ssts[order[w + 1]].size
  }

  /** No neighbouring pair is smaller than `w`, and none before it is as small. */
  lemma PairIsSmallest(ssts: seq<SstRec>, order: seq<nat>, w: nat, x: nat)
    requires SmallestPair(ssts, order, w) && x + 1 < |order|
    ensures var a, b := ssts[order[w]], ssts[order[w + 1]];
            var c, d := ssts[order[x]], ssts[order[x + 1]];
            a.size + b.size <= c.size + d.size && (x < w ==> a.size + b.size < c.size + d.size)
  {
    assert PairSize(ssts, order, w) <= PairSize(ssts, order, x);
  }

  /** Window `w` is the first neighbouring pair of least total size. */
  ghost predicate SmallestPair(ssts: seq<SstRec>, order: seq<nat>, w: nat)
  {
    && ByMin(ssts, order) && w + 1 < |order|
    && (forall x :: 0 <= x < |order| - 1 ==> PairSize(ssts, order, w) <= PairSize(ssts, order, x))
    && (forall x :: 0 <= x < w ==> PairSize(ssts, order, w) < PairSize(ssts, order, x))
  }

  function SmallerKey(a: Key, b: Key): (k: Key)
  {
    if Lt(b, a) then b else a
  }

  function LargerKey(a: Key, b: Key): (k: Key)
  {
    if Lt(a, b) then b else a
  }

  /** The range spanned by the folded pair. */
  predicate MeetsPair(ssts: seq<SstRec>, order: seq<nat>, w: nat, s: SstRec)
    requires w + 1 < |order| && order[w] < |ssts| && order[w + 1] < |ssts|
  {
    var a, b := ssts[order[w]], ssts[order[w + 1]];
    Meets(s, SmallerKey(a.minKey, b.minKey), LargerKey(a.maxKey, b.maxKey))
  }

  predicate Triggered(ssts: seq<SstRec>)
  {
    Count(ssts, 0) >= L0_TRIGGER || L0Bytes(ssts) > L0_BYTES_TRIGGER || Count(ssts, 1) >= L1_MERGE_COUNT
  }

  /** The files of one level, by position. */
  ghost function Level(ssts: seq<SstRec>, level: nat): (at: set<nat>)
  {
    set i: nat | i < |ssts| && ssts[i].level == level
  }

  /** The total size of the files at some positions. */
  ghost function BytesAt(ssts: seq<SstRec>, at: set<nat>): (n: nat)
    requires forall i :: i in at ==> i < |ssts|
  {
    if at == {} then 0 else
      var i :| i in at;
      ssts[i].size + BytesAt(ssts, at - {i})
  }

  lemma {:induction false} BytesSplit(ssts: seq<SstRec>, at: set<nat>, i: nat)
    requires (forall j :: j in at ==> j < |ssts|) && i in at
    ensures BytesAt(ssts, at) == ssts[i].size + BytesAt(ssts, at - {i})
    decreases |at|
  {
    var j :| j in at && BytesAt(ssts, at) == ssts[j].size + BytesAt(ssts, at - {j});
    if j != i {
      BytesSplit(ssts, at - {j}, i);
      BytesSplit(ssts, at - {i}, j);
      assert (at - {j}) - {i} == (at - {i}) - {j};
    }
  }

  lemma {:induction false} BytesSame(ssts: seq<SstRec>, more: seq<SstRec>, at: set<nat>)
    requires ssts <= more && forall i :: i in at ==> i < |ssts|
    ensures BytesAt(more, at) == BytesAt(ssts, at)
    decreases |at|
  {
    if at != {} {
      var i :| i in at;
      BytesSplit(ssts, at, i);
      BytesSplit(more, at, i);
      BytesSame(ssts, more, at - {i});
    }
  }

  /** The loops count the files of a level and the bytes of level 0. */
  lemma {:induction false} CountIs(ssts: seq<SstRec>, level: nat)
    ensures Count(ssts, level) == |Level(ssts, level)|
    decreases |ssts|
  {
    if ssts == [] {
      assert Level(ssts, level) == {};
    } else {
      CountIs(ssts[..|ssts| - 1], level);
      LevelMore(ssts, level);
    }
  }

  lemma {:induction false} BytesAre(ssts: seq<SstRec>)
    ensures L0Bytes(ssts) == BytesAt(ssts, Level(ssts, 0))
    decreases |ssts|
  {
    if ssts == [] {
      assert Level(ssts, 0) == {};
    } else {
      var n := |ssts| - 1;
      var zero := Level(ssts[..n], 0);
      BytesAre(ssts[..n]);
      LevelMore(ssts, 0);
      hide Level, BytesAt;
      BytesSame(ssts[..n], ssts, zero);
      if ssts[n].level == 0 {
        BytesSplit(ssts, zero + {n}, n);
        assert (zero + {n}) - {n} == zero;
      } else {
        assert zero + {} == zero;
      }
    }
  }

  lemma LevelMore(ssts: seq<SstRec>, level: nat)
    requires ssts != []
    ensures var n := |ssts| - 1;
            && n !in Level(ssts[..n], level)
            && Level(ssts, level) == Level(ssts[..n], level) + if ssts[n].level == level then {n} else {}
  {
    var n := |ssts| - 1;
    assert forall i :: 0 <= i < n ==> ssts[..n][i] == ssts[i];
  }

  /** Few and small level-0 files, and few level-1 files. */
  ghost predicate AtRest(ssts: seq<SstRec>)
  {
    |Level(ssts, 0)| < 4 && BytesAt(ssts, Level(ssts, 0)) <= 128 * 1024 * 1024 && |Level(ssts, 1)| < 16
  }

  lemma TriggeredIs(ssts: seq<SstRec>)
    ensures Triggered(ssts) <==> !AtRest(ssts)
  {
    CountIs(ssts, 0);
    CountIs(ssts, 1);
    BytesAre(ssts);
  }

  /** The exact selection rule. */
  ghost predicate Planned(ssts: seq<SstRec>, pick: seq<bool>, lo: Key, hi: Key, order: seq<nat>, w: nat)
  {
    && |pick| == |ssts| && Hull(ssts, lo, hi)
    && (Count(ssts, 1) >= L1_MERGE_COUNT ==> SmallestPair(ssts, order, w))
    && forall i :: 0 <= i < |ssts| ==>
         pick[i] == (ssts[i].level == 0 ||
                     (ssts[i].level == 1 && (Meets(ssts[i], lo, hi) ||
                                             (Count(ssts, 1) >= L1_MERGE_COUNT && MeetsPair(ssts, order, w, ssts[i])))))
  }

  /**
   The rule in full: every level-0 file, every level-1 file that reaches into the range of
   level 0, and with sixteen level-1 files or more also those that reach into the range of
   the first neighbouring pair of least size.
   */
  lemma PlannedExactly(ssts: seq<SstRec>, pick: seq<bool>, lo: Key, hi: Key, order: seq<nat>, w: nat, i: nat)
    requires Planned(ssts, pick, lo, hi, order, w) && i < |ssts| == |pick|
    ensures |Level(ssts, 1)| >= 16 ==> w + 1 < |order| && order[w] < |ssts| && order[w + 1] < |ssts|
    ensures var s := ssts[i];
            pick[i] <==>
            || s.level == 0
            || (s.level == 1 && !Lt(s.maxKey, lo) && !Lt(hi, s.minKey))
            || (s.level == 1 && |Level(ssts, 1)| >= 16 &&
                var a, b := ssts[order[w]], ssts[order[w + 1]];
                !Lt(s.maxKey, a.minKey) && (!Lt(a.maxKey, s.minKey) || !Lt(b.maxKey, s.minKey)))
  {
    hide Hull;
    CountIs(ssts, 1);
    if Count(ssts, 1) >= L1_MERGE_COUNT {
      var a, b, s := ssts[order[w]], ssts[order[w + 1]], ssts[i];
      assert Le(a.minKey, b.minKey);
      PairRange(a, b, s);
    }
  }

  lemma PairRange(a: SstRec, b: SstRec, s: SstRec)
    requires Le(a.minKey, b.minKey)
    ensures Meets(s, SmallerKey(a.minKey, b.minKey), LargerKey(a.maxKey, b.maxKey)) <==>
            !Lt(s.maxKey, a.minKey) && (!Lt(a.maxKey, s.minKey) || !Lt(b.maxKey, s.minKey))
  {
    hide Lt;
    Asymmetric(a.minKey, b.minKey);
    Irreflexive(a.minKey);
    Total(a.maxKey, b.maxKey);
    if Lt(a.maxKey, b.maxKey) && Lt(b.maxKey, s.minKey) {
      Transitive(a.maxKey, b.maxKey, s.minKey);
    }
    if Lt(b.maxKey, a.maxKey) && Lt(a.maxKey, s.minKey) {
      Transitive(b.maxKey, a.maxKey, s.minKey);
    }
  }

  lemma PlannedSelects(ssts: seq<SstRec>, pick: seq<bool>, lo: Key, hi: Key, order: seq<nat>, w: nat)
    requires Layout(ssts) && Planned(ssts, pick, lo, hi, order, w)
    ensures Selection(ssts, pick)
  {
    forall i, j, k | 0 <= i < |ssts| && 0 <= j < |ssts| && ssts[i].level == 0 && k in ssts[i].table && InFile(ssts[j], k)
      ensures pick[j]
    {
      assert CoversTable(ssts[i]) && InFile(ssts[i], k);
      StrictTotalOrder();
      assert Meets(ssts[j], lo, hi);
    }
  }

  // ---------------------------------------------------------------------------
  // Planning
  // ---------------------------------------------------------------------------

  method HullOf(ssts: seq<SstRec>) returns (lo: Key, hi: Key)
    ensures Hull(ssts, lo, hi)
  {
    hide Hull;
    lo, hi := [], [];
    var seen := false;
    EmptyHull(ssts[..0]);
    for i := 0 to |ssts|
      invariant seen == (Count(ssts[..i], 0) > 0)
      invariant Hull(ssts[..i], lo, hi)
    {
      assert ssts[..i + 1][..i] == ssts[..i];
      HullMore(ssts[..i + 1], lo, hi);
      if ssts[i].level == 0 {
        lo := if seen then SmallerKey(lo, ssts[i].minKey) else ssts[i].minKey;
        hi := if seen then LargerKey(hi, ssts[i].maxKey) else ssts[i].maxKey;
        seen := true;
      }
    }
    assert ssts[..|ssts|] == ssts;
  }

  lemma EmptyHull(ssts: seq<SstRec>)
    requires ssts == []
    ensures Hull(ssts, [], [])
  {
  }

  /** How one more file widens the range. */
  lemma HullMore(ssts: seq<SstRec>, lo: Key, hi: Key)
    requires ssts != [] && Hull(ssts[..|ssts| - 1], lo, hi)
    ensures var n := |ssts| - 1;
            var seen := Count(ssts[..n], 0) > 0;
            if ssts[n].level != 0 then Hull(ssts, lo, hi)
            else if !seen then Hull(ssts, ssts[n].minKey, ssts[n].maxKey)
            else Hull(ssts, SmallerKey(lo, ssts[n].minKey), LargerKey(hi, ssts[n].maxKey))
  {
    var n := |ssts| - 1;
    var part := ssts[..n];
    assert forall i :: 0 <= i < n ==> part[i] == ssts[i];
    if Count(part, 0) == 0 {
      NoneCounted(part, 0);
      Irreflexive(ssts[n].minKey);
      Irreflexive(ssts[n].maxKey);
    } else if ssts[n].level == 0 {
      HullBounds(ssts, lo, hi);
    }
  }

  lemma HullBounds(ssts: seq<SstRec>, lo: Key, hi: Key)
    requires ssts != [] && Hull(ssts[..|ssts| - 1], lo, hi)
    ensures var n := |ssts| - 1;
            forall i :: 0 <= i < |ssts| && ssts[i].level == 0 ==>
              !Lt(ssts[i].minKey, SmallerKey(lo, ssts[n].minKey)) && !Lt(LargerKey(hi, ssts[n].maxKey), ssts[i].maxKey)
  {
    hide Lt;
    var n := |ssts| - 1;
    var part := ssts[..n];
    forall i | 0 <= i < |ssts| && ssts[i].level == 0
      ensures !Lt(ssts[i].minKey, SmallerKey(lo, ssts[n].minKey)) && !Lt(LargerKey(hi, ssts[n].maxKey), ssts[i].maxKey)
    {
      assert i < n ==> part[i] == ssts[i];
      NotBelow(ssts[i].minKey, lo, ssts[n].minKey, i == n);
      NotAbove(ssts[i].maxKey, hi, ssts[n].maxKey, i == n);
    }
  }

  lemma NotBelow(k: Key, lo: Key, other: Key, same: bool)
    requires if same then k == other else !Lt(k, lo)
    ensures !Lt(k, SmallerKey(lo, other))
  {
    hide Lt;
    Irreflexive(k);
    Asymmetric(other, lo);
    if !same && Lt(other, lo) && Lt(k, other) {
      Transitive(k, other, lo);
    }
  }

  lemma NotAbove(k: Key, hi: Key, other: Key, same: bool)
    requires if same then k == other else !Lt(hi, k)
    ensures !Lt(LargerKey(hi, other), k)
  {
    hide Lt;
    Irreflexive(k);
    Asymmetric(other, hi);
    if !same && Lt(hi, other) && Lt(other, k) {
      Transitive(hi, other, k);
    }
  }

  lemma {:induction false} NoneCounted(ssts: seq<SstRec>, level: nat)
    requires Count(ssts, level) == 0
    ensures forall i :: 0 <= i < |ssts| ==> ssts[i].level != level
  {
    if ssts != [] {
      NoneCounted(ssts[..|ssts| - 1], level);
    }
  }

  /** Orders the level-1 files by smallest key. */
  method OrderByMin(ssts: seq<SstRec>) returns (order: seq<nat>)
    ensures ByMin(ssts, order)
  {
    order := [];
    for i := 0 to |ssts|
      invariant ByMin(ssts[..i], order)
    {
      assert ssts[..i + 1][..i] == ssts[..i];
      if ssts[i].level == 1 {
        order := InsertByMin(ssts[..i + 1], order, i);
      }
    }
    assert ssts[..|ssts|] == ssts;
  }

  method InsertByMin(ssts: seq<SstRec>, order: seq<nat>, i: nat) returns (r: seq<nat>)
    requires i + 1 == |ssts| && ssts[i].level == 1 && ByMin(ssts[..i], order)
    ensures ByMin(ssts, r)
  {
    hide Lt;
    var p := 0;
    while p < |order| && Le(ssts[order[p]].minKey, ssts[i].minKey)
      invariant 0 <= p <= |order|
      invariant forall x :: 0 <= x < p ==> Le(ssts[order[x]].minKey, ssts[i].minKey)
    {
      p := p + 1;
    }
    AboveInsertion(ssts, order, i, p);
    InsertedInOrder(ssts, order, i, p);
    r := order[..p] + [i] + order[p..];
  }

  /** The files from the insertion point on start at or after the new one. */
  lemma AboveInsertion(ssts: seq<SstRec>, order: seq<nat>, i: nat, p: nat)
    requires i + 1 == |ssts| && ByMin(ssts[..i], order) && p <= |order|
    requires p < |order| ==> !Le(ssts[order[p]].minKey, ssts[i].minKey)
    ensures forall x :: p <= x < |order| ==> Le(ssts[i].minKey, ssts[order[x]].minKey)
  {
    hide Lt;
    forall x | p <= x < |order|
      ensures Le(ssts[i].minKey, ssts[order[x]].minKey)
    {
      var a, b, c := ssts[i].minKey, ssts[order[p]].minKey, ssts[order[x]].minKey;
      Total(a, b);
      if x > p && b != c {
        assert Le(b, c);
        Transitive(a, b, c);
      }
    }
  }

  lemma InsertedInOrder(ssts: seq<SstRec>, order: seq<nat>, i: nat, p: nat)
    requires i + 1 == |ssts| && ssts[i].level == 1 && ByMin(ssts[..i], order) && p <= |order|
    requires forall x :: 0 <= x < p ==> Le(ssts[order[x]].minKey, ssts[i].minKey)
    requires forall x :: p <= x < |order| ==> Le(ssts[i].minKey, ssts[order[x]].minKey)
    ensures ByMin(ssts, order[..p] + [i] + order[p..])
  {
    hide Lt, Le;
    var r := order[..p] + [i] + order[p..];
    forall x | 0 <= x < |r|
      ensures r[x] == if x < p then order[x] else if x == p then i else order[x - 1]
    {
    }
    forall x, y | 0 <= x < y < |r|
      ensures r[x] != r[y] && Le(ssts[r[x]].minKey, ssts[r[y]].minKey)
    {
      var x', y' := if x < p then x else x - 1, if y < p then y else y - 1;
      if x != p && y != p {
        assert r[x] == order[x'] && r[y] == order[y'];
      }
    }
  }

  method FindSmallestPair(ssts: seq<SstRec>, order: seq<nat>) returns (w: nat)
    requires ByMin(ssts, order) && |order| >= 2
    ensures SmallestPair(ssts, order, w)
  {
    w := 0;
    for x := 1 to |order| - 1
      invariant w < x
      invariant forall y :: 0 <= y < x ==> PairSize(ssts, order, w) <= PairSize(ssts, order, y)
      invariant forall y :: 0 <= y < w ==> PairSize(ssts, order, w) < PairSize(ssts, order, y)
    {
      if PairSize(ssts, order, x) < PairSize(ssts, order, w) {
        w := x;
      }
    }
  }

  method PlanCompaction(ssts: seq<SstRec>)
    returns (go: bool, pick: seq<bool>, ghost lo: Key, ghost hi: Key, ghost order: seq<nat>, ghost w: nat)
    ensures go == !AtRest(ssts)
    ensures go ==> Planned(ssts, pick, lo, hi, order, w)
  {
    hide Hull, SmallestPair, Count, AtRest, L0Bytes;
    TriggeredIs(ssts);
    go, pick, order, w := Triggered(ssts), [], [], 0;
    lo, hi := [], [];
    if !go {
      return;
    }
    var l, h := HullOf(ssts);
    lo, hi := l, h;
    var fold, byMin, at := Count(ssts, 1) >= L1_MERGE_COUNT, [], 0;
    if fold {
      byMin := OrderByMin(ssts);
      at := FindSmallestPair(ssts, byMin);
      order, w := byMin, at;
      assert SmallestPairInRange(ssts, byMin, at) by {
        PairInRange(ssts, byMin, at);
      }
    }
    for i := 0 to |ssts|
      invariant |pick| == i
      invariant forall j :: 0 <= j < i ==>
                  pick[j] == (ssts[j].level == 0 ||
                              (ssts[j].level == 1 && (Meets(ssts[j], l, h) || (fold && MeetsPair(ssts, byMin, at, ssts[j])))))
    {
      var s := ssts[i];
      pick := pick + [s.level == 0 || (s.level == 1 && (Meets(s, l, h) || (fold && MeetsPair(ssts, byMin, at, s))))];
    }
  }

  ghost predicate SmallestPairInRange(ssts: seq<SstRec>, order: seq<nat>, w: nat)
  {
    w + 1 < |order| && order[w] < |ssts| && order[w + 1] < |ssts|
  }

  lemma PairInRange(ssts: seq<SstRec>, order: seq<nat>, w: nat)
    requires SmallestPair(ssts, order, w)
    ensures SmallestPairInRange(ssts, order, w)
  {
  }

  // ---------------------------------------------------------------------------
  // Writing the replacement
  // ---------------------------------------------------------------------------

  /** The selected files of one level, newest first. */
  ghost function PickedRuns(ssts: seq<SstRec>, pick: seq<bool>, level: nat): (runs: seq<Run>)
    requires |pick| == |ssts|
  {
    if ssts == [] then [] else
      var n := |ssts| - 1;
      (if pick[n] && ssts[n].level == level then [Listing(ssts[n].table)] else []) + PickedRuns(ssts[..n], pick[..n], level)
  }

  lemma {:induction false} PickedRunsSorted(ssts: seq<SstRec>, pick: seq<bool>, level: nat)
    requires |pick| == |ssts|
    ensures AllSorted(PickedRuns(ssts, pick, level))
    decreases |ssts|
  {
    hide Listing;
    if ssts != [] {
      var n := |ssts| - 1;
      PickedRunsSorted(ssts[..n], pick[..n], level);
      ListingLists(ssts[n].table);
    }
  }

  lemma {:induction false} NoneOfLevel(ssts: seq<SstRec>, pick: seq<bool>, level: nat)
    requires |pick| == |ssts| && forall i :: 0 <= i < |ssts| ==> ssts[i].level != level
    ensures PickedRuns(ssts, pick, level) == []
    decreases |ssts|
  {
    if ssts != [] {
      NoneOfLevel(ssts[..|ssts| - 1], pick[..|ssts| - 1], level);
    }
  }

  lemma ListingAsMap(t: Table)
    ensures Sorted(Listing(t)) && AsMap(Listing(t)) == t
  {
    ListingLists(t);
    AsMapLists(Listing(t));
    SameListing(Listing(t), AsMap(Listing(t)), t);
  }

  lemma PartUnfold(ssts: seq<SstRec>, pick: seq<bool>)
    requires |pick| == |ssts| && ssts != []
    ensures var n := |ssts| - 1;
            Stack(Part(ssts, pick, true)) ==
            Stack(Part(ssts[..n], pick[..n], true)) + if pick[n] then ssts[n].table else map[]
  {
    hide Stack, Part;
    var n := |ssts| - 1;
    var p := Part(ssts[..n], pick[..n], true);
    PartSnoc(ssts, pick);
    if pick[n] {
      StackSnoc(p, ssts[n]);
    } else {
      assert p + [] == p && Stack(p) + map[] == Stack(p);
    }
  }

  lemma PartSnoc(ssts: seq<SstRec>, pick: seq<bool>)
    requires |pick| == |ssts| && ssts != []
    ensures var n := |ssts| - 1;
            Part(ssts, pick, true) == Part(ssts[..n], pick[..n], true) + if pick[n] then [ssts[n]] else []
  {
  }

  /** Level 0 before level 1, each newest first, is newest first altogether. */
  lemma {:induction false} PickedRunsMerge(ssts: seq<SstRec>, pick: seq<bool>)
    requires |pick| == |ssts| && LevelsInOrder(ssts)
    ensures AllSorted(PickedRuns(ssts, pick, 0) + PickedRuns(ssts, pick, 1))
    ensures Merged(PickedRuns(ssts, pick, 0) + PickedRuns(ssts, pick, 1)) == Stack(Part(ssts, pick, true))
    decreases |ssts|
  {
    hide Listing, Stack, Part, AsMap, Merged;
    PickedRunsSorted(ssts, pick, 0);
    PickedRunsSorted(ssts, pick, 1);
    if ssts == [] {
      NothingPicked(ssts, pick);
    } else {
      var n := |ssts| - 1;
      var a, b := PickedRuns(ssts[..n], pick[..n], 0), PickedRuns(ssts[..n], pick[..n], 1);
      PickedRunsMerge(ssts[..n], pick[..n]);
      PartUnfold(ssts, pick);
      if pick[n] {
        var x := Listing(ssts[n].table);
        ListingAsMap(ssts[n].table);
        var all := PickedRuns(ssts, pick, 0) + PickedRuns(ssts, pick, 1);
        if ssts[n].level == 0 {
          assert PickedRuns(ssts, pick, 0) == [x] + a && PickedRuns(ssts, pick, 1) == [] + b;
          assert all == [x] + (a + b);
        } else {
          NoneOfLevel(ssts[..n], pick[..n], 0);
          assert PickedRuns(ssts, pick, 0) == [] + a && PickedRuns(ssts, pick, 1) == [x] + b;
          assert all == [x] + (a + b);
        }
        MergedPush(x, a + b);
      } else {
        assert [] + a == a && [] + b == b;
        assert Stack(Part(ssts[..n], pick[..n], true)) + map[] == Stack(Part(ssts[..n], pick[..n], true));
      }
    }
  }

  lemma NothingPicked(ssts: seq<SstRec>, pick: seq<bool>)
    requires ssts == [] && pick == []
    ensures PickedRuns(ssts, pick, 0) + PickedRuns(ssts, pick, 1) == []
    ensures Merged([]) == map[] && Stack(Part(ssts, pick, true)) == map[]
  {
  }

  lemma MergedPush(x: Run, runs: seq<Run>)
    requires Sorted(x) && AllSorted(runs)
    ensures AllSorted([x] + runs) && Merged([x] + runs) == Merged(runs) + AsMap(x)
  {
    hide AsMap, Sorted;
    assert ([x] + runs)[1..] == runs;
  }

  /** Files are of level 0 or 1, and level 1 comes first. */
  ghost predicate LevelsInOrder(ssts: seq<SstRec>)
  {
    && (forall i :: 0 <= i < |ssts| ==> ssts[i].level <= 1)
    && (forall i, j :: 0 <= i < j < |ssts| && ssts[j].level == 1 ==> ssts[i].level == 1)
  }

  /** The scans of the selected files of one level, from the newest to the oldest. */
  method GatherLevel(ssts: seq<SstRec>, pick: seq<bool>, level: nat) returns (runs: seq<Run>)
    requires |pick| == |ssts|
    ensures runs == PickedRuns(ssts, pick, level)
  {
    hide Listing, PickedRuns;
    runs := [];
    var i := |ssts|;
    assert ssts[..i] == ssts && pick[..i] == pick;
    ghost var all := PickedRuns(ssts, pick, level);
    while i > 0
      invariant i <= |ssts|
      invariant runs + PickedRuns(ssts[..i], pick[..i], level) == all
    {
      i := i - 1;
      PickedRunsAt(ssts, pick, level, i);
      if pick[i] && ssts[i].level == level {
        var rows := InOrder(ssts[i].table);
        runs := runs + [rows];
      }
    }
    PickedRunsNone(ssts[..0], pick[..0], level);
  }

  lemma PickedRunsNone(ssts: seq<SstRec>, pick: seq<bool>, level: nat)
    requires ssts == [] && pick == []
    ensures PickedRuns(ssts, pick, level) == []
  {
  }

  lemma PickedRunsAt(ssts: seq<SstRec>, pick: seq<bool>, level: nat, i: nat)
    requires |pick| == |ssts| && i < |ssts|
    ensures PickedRuns(ssts[..i + 1], pick[..i + 1], level) ==
            (if pick[i] && ssts[i].level == level then [Listing(ssts[i].table)] else []) + PickedRuns(ssts[..i], pick[..i], level)
  {
    hide Listing;
    assert ssts[..i + 1][..i] == ssts[..i] && pick[..i + 1][..i] == pick[..i];
  }

  /** The live rows of the selected files, merged newest first, and the files that stay. */
  method MergePicked(ssts: seq<SstRec>, pick: seq<bool>) returns (rows: seq<Row<Value>>, kept: seq<SstRec>)
    requires |pick| == |ssts| && LevelsInOrder(ssts)
    ensures rows == Listing(Live(Stack(Part(ssts, pick, true)))) && kept == Part(ssts, pick, false)
  {
    hide Listing, PickedRuns, Stack, Merged, Live;
    var sources := GatherLevel(ssts, pick, 0);
    var older := GatherLevel(ssts, pick, 1);
    PickedRunsMerge(ssts, pick);
    rows := MergeSources(sources + older);
    kept := [];
    for i := 0 to |ssts|
      invariant kept == Part(ssts[..i], pick[..i], false)
    {
      assert ssts[..i + 1][..i] == ssts[..i] && pick[..i + 1][..i] == pick[..i];
      if !pick[i] {
        kept := kept + [ssts[i]];
      }
    }
    assert ssts[..|ssts|] == ssts && pick[..|pick|] == pick;
  }

  /** Live rows as the table of a file. */
  function TableOf(rows: seq<Row<Value>>): (t: Table)
  {
    if rows == [] then map[] else TableOf(rows[..|rows| - 1])[rows[|rows| - 1].key := Some(rows[|rows| - 1].value)]
  }

  lemma {:induction false} TableOfHas(rows: seq<Row<Value>>)
    ensures forall k :: k in TableOf(rows) ==> TableOf(rows)[k].Some? && Row(k, TableOf(rows)[k].value) in rows
    ensures forall row :: row in rows ==> row.key in TableOf(rows)
    decreases |rows|
  {
    if rows != [] {
      var n := |rows| - 1;
      TableOfHas(rows[..n]);
      assert rows == rows[..n] + [rows[n]];
    }
  }

  lemma TableOfLive(t: Table, rows: seq<Row<Value>>)
    requires Lists(rows, Live(t))
    ensures TableOf(rows) == LiveTable(t)
  {
    TableOfHas(rows);
    hide TableOf;
    var r := TableOf(rows);
    forall k
      ensures k in r <==> k in t && t[k].Some?
      ensures k in r ==> r[k] == t[k]
    {
      if k in r {
        assert Row(k, r[k].value) in rows;
      }
      if k in t && t[k].Some? {
        assert Row(k, Live(t)[k]) in rows;
      }
    }
  }

  /** The range of a written file ends in keys it holds. */
  ghost predicate Tight(s: SstRec)
  {
    s.table != map[] ==> s.minKey in s.table && s.maxKey in s.table
  }

  /** What a pass decided and wrote. */
  datatype Plan = Plan(pick: seq<bool>, lo: Key, hi: Key, order: seq<nat>, w: nat, l1: SstRec)

  ghost predicate PassDone(ssts: seq<SstRec>, seqNo: nat, plan: Plan, r: seq<SstRec>)
  {
    && Planned(ssts, plan.pick, plan.lo, plan.hi, plan.order, plan.w)
    && |plan.pick| == |ssts| && Replacement(ssts, plan.pick, plan.l1) && plan.l1.seqNo == seqNo && Tight(plan.l1)
    && r == Replaced(ssts, plan.pick, plan.l1)
  }

  /** A finished pass leaves no level-0 file. */
  lemma PassClears(ssts: seq<SstRec>, seqNo: nat, plan: Plan, r: seq<SstRec>)
    requires PassDone(ssts, seqNo, plan, r)
    ensures Level(r, 0) == {}
  {
    hide Part;
    var at := PartFrom(ssts, plan.pick, false);
  }

  /** The pass: nothing without a trigger, else the planned files give way to their merged live rows. */
  method CompactInner(ssts: seq<SstRec>, seqNo: nat, size: nat) returns (r: seq<SstRec>, ghost plan: Plan)
    requires Layout(ssts) && Below(ssts, seqNo)
    ensures if AtRest(ssts) then r == ssts else PassDone(ssts, seqNo, plan, r) && Level(r, 0) == {}
    ensures |Level(r, 0)| < 4 && BytesAt(r, Level(r, 0)) <= 128 * 1024 * 1024
    ensures Layout(r) && Below(r, seqNo + 1)
    ensures Live(Stack(r)) == Live(Stack(ssts))
    ensures Count(ssts, 1) >= L1_MERGE_COUNT ==> |r| < |ssts|
  {
    hide Layout, Stack, Part, Planned, Selection, Live, CoversTable, LiveTable, Listing, Lists, TableOf, Count,
         LevelsInOrder, Tight, Triggered, AtRest;
    r := ssts;
    TriggeredIs(ssts);
    var go, pick, lo, hi, order, w := PlanCompaction(ssts);
    plan := Plan(pick, lo, hi, order, w, SstRec(seqNo, 1, [], [], size, map[]));
    if !go {
      NotTriggered(ssts);
      RestIs(ssts);
      return;
    }
    PlanLength(ssts, pick, lo, hi, order, w);
    PlannedSelects(ssts, pick, lo, hi, order, w);
    LayoutLevels(ssts);
    var rows, kept := MergePicked(ssts, pick);
    ghost var t := Stack(Part(ssts, pick, true));
    ListingLists(Live(t));
    TableOfLive(t, rows);
    var minKey, maxKey := [], [];
    if rows != [] {
      minKey, maxKey := rows[0].key, rows[|rows| - 1].key;
    }
    var l1 := SstRec(seqNo, 1, minKey, maxKey, size, TableOf(rows));
    plan := plan.(l1 := l1);
    EndsCover(rows, Live(t), l1);
    CompactionPreservesMap(ssts, pick, l1);
    CompactionKeepsLayout(ssts, pick, l1);
    if Count(ssts, 1) >= L1_MERGE_COUNT {
      FoldShrinks(ssts, pick, lo, hi, order, w);
    }
    assert kept + [] == kept;
    r := if rows == [] then kept else kept + [l1];
    assert r == Replaced(ssts, pick, l1) by {
      ReplacedIs(ssts, pick, l1);
    }
    PassClears(ssts, seqNo, plan, r);
  }

  lemma RestIs(ssts: seq<SstRec>)
    requires AtRest(ssts)
    ensures |Level(ssts, 0)| < 4 && BytesAt(ssts, Level(ssts, 0)) <= 128 * 1024 * 1024
  {
  }

  lemma ReplacedIs(ssts: seq<SstRec>, pick: seq<bool>, l1: SstRec)
    requires |pick| == |ssts|
    ensures Replaced(ssts, pick, l1) == Part(ssts, pick, false) + if l1.table == map[] then [] else [l1]
  {
  }

  lemma NotTriggered(ssts: seq<SstRec>)
    requires !Triggered(ssts)
    ensures Count(ssts, 1) < L1_MERGE_COUNT
  {
  }

  lemma LayoutLevels(ssts: seq<SstRec>)
    requires Layout(ssts)
    ensures LevelsInOrder(ssts)
  {
  }

  lemma PlanLength(ssts: seq<SstRec>, pick: seq<bool>, lo: Key, hi: Key, order: seq<nat>, w: nat)
    requires Planned(ssts, pick, lo, hi, order, w)
    ensures |pick| == |ssts|
  {
  }

  /** The first and last key of the rows cover the file's table and belong to it. */
  lemma EndsCover(rows: seq<Row<Value>>, m: map<Key, Value>, s: SstRec)
    requires Lists(rows, m) && s.table == TableOf(rows)
    requires rows != [] ==> s.minKey == rows[0].key && s.maxKey == rows[|rows| - 1].key
    ensures CoversTable(s) && Tight(s) && (s.table == map[] <==> rows == [])
  {
    hide Lt;
    TableOfHas(rows);
    if rows != [] {
      assert rows[0] in rows && rows[|rows| - 1] in rows;
    }
    forall k | k in s.table
      ensures InFile(s, k)
    {
      assert Row(k, s.table[k].value) in rows;
      Asymmetric(k, s.minKey);
      Asymmetric(k, s.maxKey);
      Irreflexive(k);
    }
  }

  lemma RangeNotEmpty(s: SstRec)
    requires s.table != map[] && CoversTable(s)
    ensures !Lt(s.maxKey, s.minKey)
  {
    var k :| k in s.table;
    assert InFile(s, k);
    StrictTotalOrder();
  }

  /** The fold selects both files of the pair, so the list gets shorter. */
  lemma FoldShrinks(ssts: seq<SstRec>, pick: seq<bool>, lo: Key, hi: Key, order: seq<nat>, w: nat)
    requires Layout(ssts) && Planned(ssts, pick, lo, hi, order, w) && Count(ssts, 1) >= L1_MERGE_COUNT
    ensures |Part(ssts, pick, false)| + 2 <= |ssts|
  {
    var a, b := order[w], order[w + 1];
    RangeNotEmpty(ssts[a]);
    RangeNotEmpty(ssts[b]);
    StrictTotalOrder();
    assert MeetsPair(ssts, order, w, ssts[a]) && MeetsPair(ssts, order, w, ssts[b]);
    PartLacksTwo(ssts, pick, a, b);
  }

  lemma {:induction false} PartLacks(ssts: seq<SstRec>, pick: seq<bool>, a: nat)
    requires |pick| == |ssts|
    ensures |Part(ssts, pick, false)| <= |ssts|
    ensures a < |ssts| && pick[a] ==> |Part(ssts, pick, false)| + 1 <= |ssts|
    decreases |ssts|
  {
    if ssts != [] {
      var n := |ssts| - 1;
      PartLacks(ssts[..n], pick[..n], a);
    }
  }

  lemma {:induction false} PartLacksTwo(ssts: seq<SstRec>, pick: seq<bool>, a: nat, b: nat)
    requires |pick| == |ssts| && a < |ssts| && b < |ssts| && a != b && pick[a] && pick[b]
    ensures |Part(ssts, pick, false)| + 2 <= |ssts|
    decreases |ssts|
  {
    var n := |ssts| - 1;
    if a == n {
      PartLacks(ssts[..n], pick[..n], b);
    } else if b == n {
      PartLacks(ssts[..n], pick[..n], a);
    } else {
      PartLacksTwo(ssts[..n], pick[..n], a, b);
    }
  }
}

/**
 Weight accounting of the ghost queue (`remember_ghost` in `src/store/cache.rs`). It is
 exact as long as a key is always remembered with one weight, which holds for immutable
 SST files. A key whose weight changes leaves a stale slot behind, and whether trimming
 keeps the books then depends on exactly the slots it pops.
 */
module GhostQueue {
  import opened CachePolicy

  ghost function Total<K>(weights: map<K, nat>): (n: nat)
    decreases |weights|
  {
    if weights == map[] then 0 else
      var k :| k in weights;
      weights[k] + Total(weights - {k})
  }

  lemma {:induction false} TotalSplit<K>(weights: map<K, nat>, k: K)
    requires k in weights
    ensures Total(weights) == weights[k] + Total(weights - {k})
    decreases |weights|
  {
    var c :| c in weights && Total(weights) == weights[c] + Total(weights - {c});
    if c != k {
      TotalSplit(weights - {c}, k);
      TotalSplit(weights - {k}, c);
      assert (weights - {c}) - {k} == (weights - {k}) - {c};
    }
  }

  /** Every slot and every index entry of a key carries the key's one weight, and the running total is exact. */
  ghost predicate Exact<K(!new)>(g: Ghosts<K>, w: K -> nat)
  {
    && (forall i :: 0 <= i < |g.queue| ==> g.queue[i].1 == w(g.queue[i].0))
    && (forall k :: k in g.weights ==> g.weights[k] == w(k) && (k, w(k)) in g.queue)
    && g.total == Total(g.weights)
  }

  lemma PopGhostExact<K(!new)>(g: Ghosts<K>, w: K -> nat)
    requires Exact(g, w) && g.queue != []
    ensures Exact(PopGhost(g), w)
  {
    var k := g.queue[0].0;
    if k in g.weights {
      TotalSplit(g.weights, k);
    } else {
      assert g.weights - {k} == g.weights;
    }
    assert g.queue == [g.queue[0]] + g.queue[1..];
  }

  lemma {:induction false} TrimExact<K(!new)>(g: Ghosts<K>, w: K -> nat, cap: nat)
    requires Exact(g, w)
    ensures Exact(Trim(g, cap), w)
    ensures Trim(g, cap).total <= cap && |Trim(g, cap).queue| <= GHOST_MAX_ENTRIES
    decreases |g.queue|
  {
    if OverGhostCap(g, cap) && g.queue != [] {
      PopGhostExact(g, w);
      TrimExact(PopGhost(g), w, cap);
    } else if g.queue == [] {
      assert g.weights == map[];
    }
  }

  lemma PushGhostExact<K(!new)>(g: Ghosts<K>, k: K, w: K -> nat)
    requires Exact(g, w) && k !in g.weights && g.total + w(k) <= USIZE_MAX
    ensures Exact(PushGhost(g, k, w(k)), w)
  {
    var r := PushGhost(g, k, w(k));
    TotalSplit(r.weights, k);
    assert r.weights - {k} == g.weights;
    assert r.queue[|g.queue|] == (k, w(k));
  }

  lemma SingleSlot<K(!new)>(g: Ghosts<K>, k: K, w: K -> nat)
    requires Exact(g, w) && k in g.weights && |g.queue| == 1
    ensures g.total == w(k)
  {
    TotalSplit(g.weights, k);
    assert g.weights - {k} == map[];
  }

  /** The newest slot survives trimming when it is the only one of its key and fits by itself. */
  lemma {:induction false} NewestSurvives<K(!new)>(g: Ghosts<K>, k: K, w: K -> nat, cap: nat)
    requires Exact(g, w) && k in g.weights && w(k) <= cap
    requires g.queue != [] && g.queue[|g.queue| - 1].0 == k
    requires forall i :: 0 <= i < |g.queue| - 1 ==> g.queue[i].0 != k
    ensures k in Trim(g, cap).weights
    decreases |g.queue|
  {
    if OverGhostCap(g, cap) {
      if |g.queue| == 1 {
        SingleSlot(g, k, w);
        assert false;
      }
      PopGhostExact(g, w);
      NewestSurvives(PopGhost(g), k, w, cap);
    }
  }

  /** With one weight per key the ghost queue never exceeds its caps and a fresh eviction is remembered. */
  lemma RememberExact<K(!new)>(g: Ghosts<K>, k: K, w: K -> nat, cap: nat)
    requires Exact(g, w) && g.total <= cap && |g.queue| <= GHOST_MAX_ENTRIES
    requires cap + w(k) <= USIZE_MAX
    ensures var r := Remember(g, k, w(k), cap); Exact(r, w) && r.total <= cap && |r.queue| <= GHOST_MAX_ENTRIES
    ensures w(k) <= cap && (forall i :: 0 <= i < |g.queue| ==> g.queue[i].0 != k) ==> k in Remember(g, k, w(k), cap).weights
  {
    if k !in g.weights {
      PushGhostExact(g, k, w);
      TrimExact(PushGhost(g, k, w(k)), w, cap);
      if w(k) <= cap && forall i :: 0 <= i < |g.queue| ==> g.queue[i].0 != k {
        NewestSurvives(PushGhost(g, k, w(k)), k, w, cap);
      }
    }
  }

  lemma ForgetExact<K(!new)>(g: Ghosts<K>, k: K, w: K -> nat)
    requires Exact(g, w)
    ensures Exact(Forget(g, k), w) && Forget(g, k).total <= g.total
  {
    if k in g.weights {
      TotalSplit(g.weights, k);
    }
  }

  // ---------------------------------------------------------------------------
  // When the books stay exact
  // ---------------------------------------------------------------------------

  /** The running total is the weight of the remembered keys. */
  ghost predicate Booked<K>(g: Ghosts<K>)
  {
    g.total == Total(g.weights)
  }

  /** The first `n` slots popped. */
  function PopMany<K>(g: Ghosts<K>, n: nat): (r: Ghosts<K>)
    requires n <= |g.queue|
    decreases n
  {
    if n == 0 then g else PopMany(PopGhost(g), n - 1)
  }

  /** What the first `n` slots take off the total: only the first slot of a remembered key is charged. */
  function SlotSum<K>(queue: seq<(K, nat)>, weights: map<K, nat>, n: nat): (s: nat)
    requires n <= |queue|
    decreases n
  {
    if n == 0 then 0 else
      (if queue[0].0 in weights then queue[0].1 else 0) + SlotSum(queue[1..], weights - {queue[0].0}, n - 1)
  }

  /** What the same slots take off the index. */
  function IndexSum<K>(queue: seq<(K, nat)>, weights: map<K, nat>, n: nat): (s: nat)
    requires n <= |queue|
    decreases n
  {
    if n == 0 then 0 else
      (if queue[0].0 in weights then weights[queue[0].0] else 0) + IndexSum(queue[1..], weights - {queue[0].0}, n - 1)
  }

  /** How many slots trimming pops, from the queue, the index and the total alone. */
  function TrimCount<K>(queue: seq<(K, nat)>, weights: map<K, nat>, total: nat, cap: nat): (n: nat)
    ensures n <= |queue|
    decreases |queue|
  {
    if (total > cap || |queue| > GHOST_MAX_ENTRIES) && queue != [] then
      1 + TrimCount(queue[1..], weights - {queue[0].0}, if queue[0].0 in weights then SatSub(total, queue[0].1) else total, cap)
    else
      0
  }

  lemma {:induction false} TrimPops<K>(g: Ghosts<K>, cap: nat)
    ensures Trim(g, cap) == PopMany(g, TrimCount(g.queue, g.weights, g.total, cap))
    decreases |g.queue|
  {
    if OverGhostCap(g, cap) && g.queue != [] {
      TrimPops(PopGhost(g), cap);
    }
  }

  /** Subtractions that stop at zero add up. */
  lemma {:induction false} PopManySums<K>(g: Ghosts<K>, n: nat)
    requires n <= |g.queue|
    ensures PopMany(g, n).total == SatSub(g.total, SlotSum(g.queue, g.weights, n))
    ensures Total(PopMany(g, n).weights) + IndexSum(g.queue, g.weights, n) == Total(g.weights)
    decreases n
  {
    if n > 0 {
      PopManySums(PopGhost(g), n - 1);
      var k := g.queue[0].0;
      if k in g.weights {
        TotalSplit(g.weights, k);
      } else {
        assert g.weights - {k} == g.weights;
      }
    }
  }

  /**
   From exact books, trimming leaves exact books if and only if the popped slots charged
   what the index held for them, or they charged at least everything and everything was
   forgotten.
   */
  lemma TrimBooked<K>(g: Ghosts<K>, cap: nat)
    requires Booked(g)
    ensures var n := TrimCount(g.queue, g.weights, g.total, cap);
            var slots, index := SlotSum(g.queue, g.weights, n), IndexSum(g.queue, g.weights, n);
            Booked(Trim(g, cap)) <==> slots == index || (slots >= g.total && index == g.total)
  {
    TrimPops(g, cap);
    PopManySums(g, TrimCount(g.queue, g.weights, g.total, cap));
  }

  /** One popped slot: it must be unremembered, or carry the remembered weight, or wipe out the one key left. */
  lemma PopBooked<K>(g: Ghosts<K>)
    requires Booked(g) && g.queue != []
    ensures var (k, w) := g.queue[0];
            Booked(PopGhost(g)) <==> k !in g.weights || g.weights[k] == w || (w >= g.total && g.weights[k] == g.total)
  {
    var k := g.queue[0].0;
    if k in g.weights {
      TotalSplit(g.weights, k);
    } else {
      assert g.weights - {k} == g.weights;
    }
  }

  lemma PushBooked<K>(g: Ghosts<K>, k: K, w: nat)
    requires Booked(g) && k !in g.weights
    ensures Booked(PushGhost(g, k, w)) <==> g.total + w <= USIZE_MAX
  {
    TotalSplit(PushGhost(g, k, w).weights, k);
    assert PushGhost(g, k, w).weights - {k} == g.weights;
  }

  /** Remembering an evicted key keeps exact books if and only if the slots it pushes out charge what the index holds. */
  lemma RememberBooked<K>(g: Ghosts<K>, k: K, w: nat, cap: nat)
    requires Booked(g) && g.total + w <= USIZE_MAX
    ensures k in g.weights ==> Booked(Remember(g, k, w, cap))
    ensures k !in g.weights ==>
              var queue, weights, total := g.queue + [(k, w)], g.weights[k := w], g.total + w;
              var n := TrimCount(queue, weights, total, cap);
              var slots, index := SlotSum(queue, weights, n), IndexSum(queue, weights, n);
              Booked(Remember(g, k, w, cap)) <==> slots == index || (slots >= total && index == total)
  {
    if k !in g.weights {
      PushBooked(g, k, w);
      TrimBooked(PushGhost(g, k, w), cap);
    }
  }

  lemma ForgetBooked<K>(g: Ghosts<K>, k: K)
    requires Booked(g)
    ensures Booked(Forget(g, k))
  {
    if k in g.weights {
      TotalSplit(g.weights, k);
    }
  }

  /** No slot of a remembered key carries another weight: no stale slot can be charged. */
  ghost predicate Agreeing<K>(queue: seq<(K, nat)>, weights: map<K, nat>)
  {
    forall i :: 0 <= i < |queue| && queue[i].0 in weights ==> queue[i].1 == weights[queue[i].0]
  }

  lemma {:induction false} AgreeingSums<K>(queue: seq<(K, nat)>, weights: map<K, nat>, n: nat)
    requires Agreeing(queue, weights) && n <= |queue|
    ensures SlotSum(queue, weights, n) == IndexSum(queue, weights, n)
    decreases n
  {
    if n > 0 {
      AgreeingSums(queue[1..], weights - {queue[0].0}, n - 1);
    }
  }

  /** An eviction brings in a stale slot exactly when an old slot of its key is still queued with another weight. */
  lemma RememberAgrees<K(!new)>(g: Ghosts<K>, k: K, w: nat)
    requires Agreeing(g.queue, g.weights) && k !in g.weights
    ensures Agreeing(g.queue + [(k, w)], g.weights[k := w]) <==>
            forall i :: 0 <= i < |g.queue| && g.queue[i].0 == k ==> g.queue[i].1 == w
  {
    var queue, weights := g.queue + [(k, w)], g.weights[k := w];
    if Agreeing(queue, weights) {
      forall i | 0 <= i < |g.queue| && g.queue[i].0 == k
        ensures g.queue[i].1 == w
      {
        assert queue[i] == g.queue[i];
      }
    }
  }

  /** While no stale slot is queued, remembering keeps the books exact. */
  lemma AgreeingIsBooked<K>(g: Ghosts<K>, k: K, w: nat, cap: nat)
    requires Booked(g) && g.total + w <= USIZE_MAX && k !in g.weights
    requires Agreeing(g.queue + [(k, w)], g.weights[k := w])
    ensures Booked(Remember(g, k, w, cap))
  {
    RememberBooked(g, k, w, cap);
    AgreeingSums(g.queue + [(k, w)], g.weights[k := w], TrimCount(g.queue + [(k, w)], g.weights[k := w], g.total + w, cap));
  }

  /**
   When the weight of key 0 changes from 5 to 7 between two evictions, its stale slot is
   charged to the new entry: nothing is remembered any more, two units stay booked, and
   key 1 (weight 9, cap 10) is forgotten at once.
   */
  lemma WeightChangeDrifts()
    ensures var g := Remember(Forget(Remember(Ghosts([], map[], 0), 0, 5, 10), 0), 0, 7, 10);
            Remember(g, 1, 9, 10) == Ghosts([], map[], 2)
  {
    var g0: Ghosts<int> := Ghosts([(0, 5)], map[0 := 5], 5);
    assert Remember(Ghosts([], map[], 0), 0, 5, 10) == g0;
    var g1: Ghosts<int> := Ghosts([(0, 5)], map[], 0);
    assert Forget(g0, 0) == g1;
    var g2: Ghosts<int> := Ghosts([(0, 5), (0, 7)], map[0 := 7], 7);
    assert Remember(g1, 0, 7, 10) == g2;
    var g3: Ghosts<int> := Ghosts([(0, 5), (0, 7), (1, 9)], map[0 := 7, 1 := 9], 16);
    assert PushGhost(g2, 1, 9) == g3;
    var g4: Ghosts<int> := Ghosts([(0, 7), (1, 9)], map[1 := 9], 11);
    assert PopGhost(g3) == g4;
    var g5: Ghosts<int> := Ghosts([(1, 9)], map[1 := 9], 11);
    assert PopGhost(g4) == g5;
    assert PopGhost(g5) == Ghosts([], map[], 2);
    assert Trim(g5, 10) == Ghosts([], map[], 2);
    assert Trim(g4, 10) == Trim(g5, 10);
    assert Trim(g3, 10) == Trim(g4, 10);
  }
}

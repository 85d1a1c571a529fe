/**
 The S3-FIFO policy of the SST cache (`src/store/cache.rs`) over plain FIFO queues: what
 the cache does once stale queue slots are disregarded. `SstCache` proves that the
 slot-tagged implementation follows this policy step by step.
 */
module CachePolicy {
  import opened Wrappers

  const MAX_FREQ: nat := 3

  const GHOST_MAX_ENTRIES: nat := 1024

  const USIZE_MAX: nat := 0xffff_ffff_ffff_ffff

  function SatAdd(a: nat, b: nat): (r: nat)
  {
    if a + b <= USIZE_MAX then a + b else USIZE_MAX
  }

  function SatSub(a: nat, b: nat): (r: nat)
  {
    if b <= a then a - b else 0
  }

  function Bumped(freq: nat): (r: nat)
  {
    if freq + 1 <= MAX_FREQ then freq + 1 else MAX_FREQ
  }

  datatype Item<+V> = Item(value: V, weight: nat, freq: nat)

  /** Cold-evicted keys: FIFO slots with the weight they were pushed with, and the index of remembered keys. */
  datatype Ghosts<K> = Ghosts(queue: seq<(K, nat)>, weights: map<K, nat>, total: nat)

  datatype Policy<K, +V> = Policy(items: map<K, Item<V>>, small: seq<K>, medium: seq<K>, large: seq<K>, ghosts: Ghosts<K>)

  // ---------------------------------------------------------------------------
  // Weight of a set of entries
  // ---------------------------------------------------------------------------

  ghost function Weight<K, V>(items: map<K, Item<V>>): (w: nat)
    decreases |items|
  {
    if items == map[] then 0 else
      var k :| k in items;
      items[k].weight + Weight(items - {k})
  }

  lemma {:induction false} WeightSplit<K, V>(items: map<K, Item<V>>, k: K)
    requires k in items
    ensures Weight(items) == items[k].weight + Weight(items - {k})
    decreases |items|
  {
    var c :| c in items && Weight(items) == items[c].weight + Weight(items - {c});
    if c != k {
      WeightSplit(items - {c}, k);
      WeightSplit(items - {k}, c);
      assert (items - {c}) - {k} == (items - {k}) - {c};
    }
  }

  lemma WeightPut<K, V>(items: map<K, Item<V>>, k: K, item: Item<V>)
    ensures Weight(items[k := item]) == Weight(items - {k}) + item.weight
  {
    WeightSplit(items[k := item], k);
    assert items[k := item] - {k} == items - {k};
  }

  // ---------------------------------------------------------------------------
  // The ghost queue
  // ---------------------------------------------------------------------------

  predicate OverGhostCap<K>(g: Ghosts<K>, cap: nat)
  {
    g.total > cap || |g.queue| > GHOST_MAX_ENTRIES
  }

  function PopGhost<K>(g: Ghosts<K>): (r: Ghosts<K>)
    requires g.queue != []
  {
    var (k, w) := g.queue[0];
    Ghosts(g.queue[1..], g.weights - {k}, if k in g.weights then SatSub(g.total, w) else g.total)
  }

  function Trim<K>(g: Ghosts<K>, cap: nat): (r: Ghosts<K>)
    decreases |g.queue|
  {
    if OverGhostCap(g, cap) && g.queue != [] then Trim(PopGhost(g), cap) else g
  }

  function PushGhost<K>(g: Ghosts<K>, k: K, w: nat): (r: Ghosts<K>)
  {
    Ghosts(g.queue + [(k, w)], g.weights[k := w], SatAdd(g.total, w))
  }

  function Remember<K>(g: Ghosts<K>, k: K, w: nat, cap: nat): (r: Ghosts<K>)
  {
    if k in g.weights then g else Trim(PushGhost(g, k, w), cap)
  }

  function Forget<K>(g: Ghosts<K>, k: K): (r: Ghosts<K>)
  {
    if k in g.weights then g.(weights := g.weights - {k}, total := SatSub(g.total, g.weights[k])) else g
  }

  // ---------------------------------------------------------------------------
  // Well-formed policies: every entry sits in exactly one queue, once
  // ---------------------------------------------------------------------------

  ghost predicate Distinct<K>(s: seq<K>)
  {
    forall i, j :: 0 <= i < j < |s| ==> s[i] != s[j]
  }

  ghost predicate WellFormed<K(!new), V>(p: Policy<K, V>)
  {
    && Distinct(p.small) && Distinct(p.medium) && Distinct(p.large)
    && (forall k :: k in p.items <==> k in p.small || k in p.medium || k in p.large)
    && (forall k :: k in p.small ==> k !in p.medium && k !in p.large)
    && (forall k :: k in p.medium ==> k !in p.large)
  }

  // ---------------------------------------------------------------------------
  // Eviction
  // ---------------------------------------------------------------------------

  function Cooled<V>(item: Item<V>): (r: Item<V>)
  {
    item.(freq := SatSub(item.freq, 1))
  }

  /** A cold head leaves for the ghost queue; a hot head moves to the large queue. */
  function EvictSmall<K, V>(p: Policy<K, V>, ghostCap: nat): (r: Policy<K, V>)
    requires p.small != [] && p.small[0] in p.items
  {
    var k := p.small[0];
    var item := p.items[k];
    if item.freq == 0 then
      p.(items := p.items - {k}, small := p.small[1..], ghosts := Remember(p.ghosts, k, item.weight, ghostCap))
    else
      p.(items := p.items[k := Cooled(item)], small := p.small[1..], large := p.large + [k])
  }

  function EvictMedium<K, V>(p: Policy<K, V>): (r: Policy<K, V>)
    requires p.medium != [] && p.medium[0] in p.items
  {
    var k := p.medium[0];
    var item := p.items[k];
    if item.freq == 0 then
      p.(items := p.items - {k}, medium := p.medium[1..])
    else
      p.(items := p.items[k := Cooled(item)], medium := p.medium[1..], large := p.large + [k])
  }

  function SumFreq<K, V>(items: map<K, Item<V>>, keys: seq<K>): (n: nat)
    requires forall k :: k in keys ==> k in items
  {
    if keys == [] then 0 else items[keys[0]].freq + SumFreq(items, keys[1..])
  }

  lemma {:induction false} SumFreqAppend<K, V>(items: map<K, Item<V>>, keys: seq<K>, k: K)
    requires (forall x :: x in keys ==> x in items) && k in items
    ensures forall x :: x in keys + [k] ==> x in items
    ensures SumFreq(items, keys + [k]) == SumFreq(items, keys) + items[k].freq
  {
    if keys == [] {
      assert keys + [k] == [k];
    } else {
      SumFreqAppend(items, keys[1..], k);
      assert (keys + [k])[1..] == keys[1..] + [k];
    }
  }

  lemma {:induction false} SumFreqFrame<K, V>(items: map<K, Item<V>>, keys: seq<K>, k: K, item: Item<V>)
    requires (forall x :: x in keys ==> x in items) && k !in keys
    ensures SumFreq(items[k := item], keys) == SumFreq(items, keys)
  {
    if keys != [] {
      SumFreqFrame(items, keys[1..], k, item);
    }
  }

  /** Requeueing a hot head of the large queue strictly lowers the total frequency. */
  lemma RotateLowersFreq<K, V>(p: Policy<K, V>)
    requires p.large != [] && Distinct(p.large)
    requires forall k :: k in p.large ==> k in p.items
    requires p.items[p.large[0]].freq > 0
    ensures var r := Rotate(p); forall k :: k in r.large ==> k in r.items
    ensures SumFreq(Rotate(p).items, Rotate(p).large) < SumFreq(p.items, p.large)
    ensures Distinct(Rotate(p).large)
  {
    var k, rest := p.large[0], p.large[1..];
    SumFreqFrame(p.items, rest, k, Cooled(p.items[k]));
    SumFreqAppend(Rotate(p).items, rest, k);
  }

  function Rotate<K, V>(p: Policy<K, V>): (r: Policy<K, V>)
    requires p.large != [] && p.large[0] in p.items
  {
    var k := p.large[0];
    p.(items := p.items[k := Cooled(p.items[k])], large := p.large[1..] + [k])
  }

  /** Second chance: hot heads are requeued with a lower frequency until a cold one is dropped. */
  function EvictLarge<K, V>(p: Policy<K, V>): (r: Policy<K, V>)
    requires p.large != [] && Distinct(p.large)
    requires forall k :: k in p.large ==> k in p.items
    decreases SumFreq(p.items, p.large)
  {
    var k := p.large[0];
    if p.items[k].freq > 0 then
      RotateLowersFreq(p);
      EvictLarge(Rotate(p))
    else
      p.(items := p.items - {k}, large := p.large[1..])
  }

  ghost function Measure<K, V>(p: Policy<K, V>): (n: nat)
  {
    2 * (|p.small| + |p.medium|) + |p.large|
  }

  /** Queue order: small, then medium, then large. */
  ghost function EvictOne<K(!new), V>(p: Policy<K, V>, ghostCap: nat): (r: Policy<K, V>)
    requires WellFormed(p) && p.items != map[]
  {
    if p.small != [] then EvictSmall(p, ghostCap)
    else if p.medium != [] then EvictMedium(p)
    else
      assert p.large != [] by {
        var k :| k in p.items;
      }
      EvictLarge(p)
  }

  lemma HeadGone<K>(s: seq<K>)
    requires Distinct(s) && s != []
    ensures Distinct(s[1..])
    ensures forall k :: k in s <==> k == s[0] || k in s[1..]
    ensures s[0] !in s[1..]
  {
  }

  lemma EvictSmallStep<K(!new), V>(p: Policy<K, V>, ghostCap: nat)
    requires WellFormed(p) && p.small != []
    ensures WellFormed(EvictSmall(p, ghostCap))
    ensures Measure(EvictSmall(p, ghostCap)) < Measure(p)
    ensures Weight(EvictSmall(p, ghostCap).items) <= Weight(p.items)
  {
    HeadGone(p.small);
    var k := p.small[0];
    WeightSplit(p.items, k);
    WeightPut(p.items, k, Cooled(p.items[k]));
  }

  lemma EvictMediumStep<K(!new), V>(p: Policy<K, V>)
    requires WellFormed(p) && p.medium != []
    ensures WellFormed(EvictMedium(p))
    ensures Measure(EvictMedium(p)) < Measure(p)
    ensures Weight(EvictMedium(p).items) <= Weight(p.items)
  {
    HeadGone(p.medium);
    var k := p.medium[0];
    WeightSplit(p.items, k);
    WeightPut(p.items, k, Cooled(p.items[k]));
  }

  lemma {:induction false} EvictLargeStep<K(!new), V>(p: Policy<K, V>)
    requires WellFormed(p) && p.large != []
    ensures WellFormed(EvictLarge(p))
    ensures Measure(EvictLarge(p)) < Measure(p)
    ensures Weight(EvictLarge(p).items) <= Weight(p.items)
    decreases SumFreq(p.items, p.large)
  {
    HeadGone(p.large);
    var k := p.large[0];
    WeightSplit(p.items, k);
    if p.items[k].freq > 0 {
      RotateLowersFreq(p);
      WeightPut(p.items, k, Cooled(p.items[k]));
      EvictLargeStep(Rotate(p));
    }
  }

  /** Each eviction keeps the queues well formed and strictly lowers twice the small and medium entries plus the large ones. */
  lemma EvictOneStep<K(!new), V>(p: Policy<K, V>, ghostCap: nat)
    requires WellFormed(p) && p.items != map[]
    ensures WellFormed(EvictOne(p, ghostCap))
    ensures Measure(EvictOne(p, ghostCap)) < Measure(p)
    ensures Weight(EvictOne(p, ghostCap).items) <= Weight(p.items)
  {
    if p.small != [] {
      EvictSmallStep(p, ghostCap);
    } else if p.medium != [] {
      EvictMediumStep(p);
    } else {
      EvictLargeStep(p);
    }
  }

  ghost function EvictAll<K(!new), V>(p: Policy<K, V>, capacity: nat, ghostCap: nat): (r: Policy<K, V>)
    requires WellFormed(p)
    decreases Measure(p)
  {
    if Weight(p.items) <= capacity then p else
      EvictOneStep(p, ghostCap);
      EvictAll(EvictOne(p, ghostCap), capacity, ghostCap)
  }

  lemma {:induction false} EvictAllFits<K(!new), V>(p: Policy<K, V>, capacity: nat, ghostCap: nat)
    requires WellFormed(p)
    ensures WellFormed(EvictAll(p, capacity, ghostCap))
    ensures Weight(EvictAll(p, capacity, ghostCap).items) <= capacity
    decreases Measure(p)
  {
    if Weight(p.items) > capacity {
      EvictOneStep(p, ghostCap);
      EvictAllFits(EvictOne(p, ghostCap), capacity, ghostCap);
    }
  }

  /** The state after `n` turns of eviction. */
  ghost function AfterTurns<K(!new), V>(p: Policy<K, V>, ghostCap: nat, n: nat): (r: Policy<K, V>)
    requires WellFormed(p)
    ensures WellFormed(r)
    decreases n
  {
    if n == 0 || p.items == map[] then p else
      EvictOneStep(p, ghostCap);
      AfterTurns(EvictOne(p, ghostCap), ghostCap, n - 1)
  }

  /** Eviction stops with the first turn after which the entries fit, and not later. */
  lemma {:induction false} EvictsNoMore<K(!new), V>(p: Policy<K, V>, capacity: nat, ghostCap: nat) returns (n: nat)
    requires WellFormed(p)
    ensures EvictAll(p, capacity, ghostCap) == AfterTurns(p, ghostCap, n)
    ensures Weight(AfterTurns(p, ghostCap, n).items) <= capacity
    ensures forall i: nat :: i < n ==> Weight(AfterTurns(p, ghostCap, i).items) > capacity
    decreases Measure(p)
  {
    hide Weight, Measure, EvictOne;
    if Weight(p.items) <= capacity {
      n := 0;
    } else {
      HeavyIsNotEmpty(p);
      EvictOneStep(p, ghostCap);
      var m := EvictsNoMore(EvictOne(p, ghostCap), capacity, ghostCap);
      n := m + 1;
      forall i: nat | i < n
        ensures Weight(AfterTurns(p, ghostCap, i).items) > capacity
      {
        if i > 0 {
          assert AfterTurns(p, ghostCap, i) == AfterTurns(EvictOne(p, ghostCap), ghostCap, i - 1);
        }
      }
    }
  }

  lemma HeavyIsNotEmpty<K, V>(p: Policy<K, V>)
    ensures Weight(p.items) > 0 ==> p.items != map[]
  {
  }

  // ---------------------------------------------------------------------------
  // The cache operations
  // ---------------------------------------------------------------------------

  function Without<K(==)>(s: seq<K>, k: K): (r: seq<K>)
  {
    if s == [] then [] else if s[0] == k then Without(s[1..], k) else [s[0]] + Without(s[1..], k)
  }

  function Get<K, V>(p: Policy<K, V>, k: K): (r: (Option<V>, Policy<K, V>))
  {
    if k in p.items then
      (Some(p.items[k].value), p.(items := p.items[k := p.items[k].(freq := Bumped(p.items[k].freq))]))
    else
      (None, p)
  }

  /** Insertion before eviction: an update, a re-admission, a fresh entry, or nothing when the entry is heavier than the cache. */
  function Admit<K, V>(p: Policy<K, V>, k: K, v: V, w: nat, capacity: nat): (r: Policy<K, V>)
  {
    if k in p.items then
      p.(items := p.items[k := Item(v, w, Bumped(p.items[k].freq))])
    else if w > capacity then
      p
    else if k in p.ghosts.weights then
      p.(items := p.items[k := Item(v, w, 1)], medium := p.medium + [k], ghosts := Forget(p.ghosts, k))
    else
      p.(items := p.items[k := Item(v, w, 0)], small := p.small + [k])
  }

  lemma AdmitWellFormed<K(!new), V>(p: Policy<K, V>, k: K, v: V, w: nat, capacity: nat)
    requires WellFormed(p)
    ensures WellFormed(Admit(p, k, v, w, capacity))
  {
  }

  ghost function Insert<K(!new), V>(p: Policy<K, V>, k: K, v: V, w: nat, capacity: nat, ghostCap: nat): (r: Policy<K, V>)
    requires WellFormed(p)
  {
    AdmitWellFormed(p, k, v, w, capacity);
    EvictAll(Admit(p, k, v, w, capacity), capacity, ghostCap)
  }

  function Remove<K, V>(p: Policy<K, V>, k: K): (r: Policy<K, V>)
  {
    Policy(p.items - {k}, Without(p.small, k), Without(p.medium, k), Without(p.large, k), Forget(p.ghosts, k))
  }

  lemma {:induction false} WithoutKeeps<K>(s: seq<K>, k: K)
    ensures forall x :: x in Without(s, k) <==> x in s && x != k
    ensures Distinct(s) ==> Distinct(Without(s, k))
  {
    if s != [] {
      WithoutKeeps(s[1..], k);
      assert s == [s[0]] + s[1..];
      if Distinct(s) {
        HeadGone(s);
      }
    }
  }

  /** The states a cache can reach: well-formed queues within capacity. Every operation keeps this. */
  ghost predicate Sound<K(!new), V>(p: Policy<K, V>, capacity: nat)
  {
    WellFormed(p) && Weight(p.items) <= capacity
  }

  lemma OperationsKeepSound<K(!new), V>(p: Policy<K, V>, k: K, v: V, w: nat, capacity: nat, ghostCap: nat)
    requires Sound(p, capacity)
    ensures Sound(Get(p, k).1, capacity)
    ensures Sound(Insert(p, k, v, w, capacity, ghostCap), capacity)
    ensures Sound(Remove(p, k), capacity)
  {
    if k in p.items {
      WeightPut(p.items, k, p.items[k].(freq := Bumped(p.items[k].freq)));
      WeightSplit(p.items, k);
    } else {
      assert p.items - {k} == p.items;
    }
    AdmitWellFormed(p, k, v, w, capacity);
    EvictAllFits(Admit(p, k, v, w, capacity), capacity, ghostCap);
    WithoutKeeps(p.small, k);
    WithoutKeeps(p.medium, k);
    WithoutKeeps(p.large, k);
  }

  // ---------------------------------------------------------------------------
  // What a resident entry holds
  // ---------------------------------------------------------------------------

  /** Entries may leave, but those that stay keep their value and weight. */
  ghost predicate OnlyLeaves<K(!new), V>(p: Policy<K, V>, r: Policy<K, V>)
  {
    forall k :: k in r.items ==> k in p.items && r.items[k].value == p.items[k].value && r.items[k].weight == p.items[k].weight
  }

  lemma {:induction false} EvictLargeOnlyLeaves<K(!new), V>(p: Policy<K, V>)
    requires p.large != [] && Distinct(p.large) && forall k :: k in p.large ==> k in p.items
    ensures OnlyLeaves(p, EvictLarge(p))
    decreases SumFreq(p.items, p.large)
  {
    if p.items[p.large[0]].freq > 0 {
      RotateLowersFreq(p);
      EvictLargeOnlyLeaves(Rotate(p));
    }
  }

  lemma {:induction false} EvictAllOnlyLeaves<K(!new), V>(p: Policy<K, V>, capacity: nat, ghostCap: nat)
    requires WellFormed(p)
    ensures OnlyLeaves(p, EvictAll(p, capacity, ghostCap))
    decreases Measure(p)
  {
    hide Weight, Remember;
    if Weight(p.items) > capacity {
      HeavyIsNotEmpty(p);
      EvictOneStep(p, ghostCap);
      EvictOneOnlyLeaves(p, ghostCap);
      EvictAllOnlyLeaves(EvictOne(p, ghostCap), capacity, ghostCap);
    }
  }

  lemma EvictOneOnlyLeaves<K(!new), V>(p: Policy<K, V>, ghostCap: nat)
    requires WellFormed(p) && p.items != map[]
    ensures OnlyLeaves(p, EvictOne(p, ghostCap))
  {
    hide EvictLarge, Remember;
    if p.small == [] && p.medium == [] {
      var k :| k in p.items;
      EvictLargeOnlyLeaves(p);
    }
  }

  /**
   After an insert a resident key holds the value and weight inserted, and every other
   resident one what it held before. When everything fits, nothing leaves.
   */
  lemma InsertHolds<K(!new), V>(p: Policy<K, V>, k: K, v: V, w: nat, capacity: nat, ghostCap: nat)
    requires WellFormed(p)
    ensures var r := Insert(p, k, v, w, capacity, ghostCap);
            && (k in r.items ==> r.items[k].value == v && r.items[k].weight == w)
            && (forall x :: x in r.items && x != k ==>
                  x in p.items && r.items[x].value == p.items[x].value && r.items[x].weight == p.items[x].weight)
            && (Weight(p.items - {k}) + w <= capacity ==> r.items.Keys == p.items.Keys + {k})
  {
    hide Weight, EvictAll, WellFormed, Forget;
    var a := Admit(p, k, v, w, capacity);
    AdmitWellFormed(p, k, v, w, capacity);
    EvictAllOnlyLeaves(a, capacity, ghostCap);
    if Weight(p.items - {k}) + w <= capacity {
      assert Weight(a.items) <= capacity by {
        WeightPut(p.items, k, a.items[k]);
        assert a.items == p.items[k := a.items[k]];
      }
      NothingEvicted(a, capacity, ghostCap);
    }
  }

  lemma NothingEvicted<K(!new), V>(p: Policy<K, V>, capacity: nat, ghostCap: nat)
    requires WellFormed(p) && Weight(p.items) <= capacity
    ensures EvictAll(p, capacity, ghostCap) == p
  {
  }

  // ---------------------------------------------------------------------------
  // Scan resistance
  // ---------------------------------------------------------------------------

  /** Entries that have proven themselves: past the small queue, or hit since they entered it. */
  ghost predicate Protected<K, V>(p: Policy<K, V>, k: K)
  {
    k in p.items && (k in p.medium || k in p.large || p.items[k].freq > 0)
  }

  ghost predicate KeepsProtected<K(!new), V>(p: Policy<K, V>, r: Policy<K, V>)
  {
    forall k :: Protected(p, k) ==>
      Protected(r, k) && r.items[k].value == p.items[k].value && r.items[k].weight == p.items[k].weight
  }

  /** A cold newcomer at the end of the small queue whose weight covers the whole overshoot. */
  ghost predicate CoversOvershoot<K(!new), V>(p: Policy<K, V>, x: K, capacity: nat)
  {
    && WellFormed(p) && x in p.items && p.items[x].freq == 0
    && p.small != [] && p.small[|p.small| - 1] == x
    && Weight(p.items - {x}) <= capacity
  }

  lemma OthersNoHeavier<K, V>(items: map<K, Item<V>>, x: K, h: K)
    requires h in items && x != h
    ensures Weight(items - {h} - {x}) <= Weight(items - {x})
    ensures Weight(items[h := Cooled(items[h])] - {x}) == Weight(items - {x})
  {
    var others := items - {x};
    WeightSplit(others, h);
    WeightPut(others, h, Cooled(items[h]));
    assert items - {h} - {x} == others - {h};
    assert items[h := Cooled(items[h])] - {x} == others[h := Cooled(items[h])];
  }

  lemma CoverStep<K(!new), V>(p: Policy<K, V>, x: K, capacity: nat, ghostCap: nat)
    requires CoversOvershoot(p, x, capacity)
    requires p.small[0] != x
    ensures CoversOvershoot(EvictSmall(p, ghostCap), x, capacity)
  {
    hide Weight, Remember;
    EvictSmallStep(p, ghostCap);
    OthersNoHeavier(p.items, x, p.small[0]);
  }

  lemma {:induction false} EvictionSparesProtected<K(!new), V>(p: Policy<K, V>, x: K, capacity: nat, ghostCap: nat)
    requires CoversOvershoot(p, x, capacity)
    ensures KeepsProtected(p, EvictAll(p, capacity, ghostCap))
    decreases Measure(p)
  {
    if Weight(p.items) > capacity {
      var r := EvictSmall(p, ghostCap);
      EvictOneStep(p, ghostCap);
      HeadGone(p.small);
      if p.small[0] != x {
        CoverStep(p, x, capacity, ghostCap);
        EvictionSparesProtected(r, x, capacity, ghostCap);
      }
    }
  }

  ghost predicate Fresh<K, V>(p: Policy<K, V>, k: K)
  {
    k !in p.items && k !in p.ghosts.weights
  }

  lemma FreshInsertSparesProtected<K(!new), V>(p: Policy<K, V>, k: K, v: V, w: nat, capacity: nat, ghostCap: nat)
    requires Sound(p, capacity) && Fresh(p, k)
    ensures KeepsProtected(p, Insert(p, k, v, w, capacity, ghostCap))
  {
    if w <= capacity {
      var a := Admit(p, k, v, w, capacity);
      AdmitWellFormed(p, k, v, w, capacity);
      assert a.items - {k} == p.items;
      EvictionSparesProtected(a, k, capacity, ghostCap);
      assert KeepsProtected(p, a);
    }
  }

  datatype Arrival<K, +V> = Arrival(key: K, value: V, weight: nat)

  ghost function Flood<K(!new), V>(p: Policy<K, V>, scan: seq<Arrival<K, V>>, capacity: nat, ghostCap: nat): (r: Policy<K, V>)
    requires Sound(p, capacity)
    decreases |scan|
  {
    if scan == [] then p else
      OperationsKeepSound(p, scan[0].key, scan[0].value, scan[0].weight, capacity, ghostCap);
      Flood(Insert(p, scan[0].key, scan[0].value, scan[0].weight, capacity, ghostCap), scan[1..], capacity, ghostCap)
  }

  /** Every arrival is unknown to the cache at the moment it arrives. */
  ghost predicate OneHitScan<K(!new), V>(p: Policy<K, V>, scan: seq<Arrival<K, V>>, capacity: nat, ghostCap: nat)
    requires Sound(p, capacity)
    decreases |scan|
  {
    scan == [] ||
    (Fresh(p, scan[0].key) &&
     (OperationsKeepSound(p, scan[0].key, scan[0].value, scan[0].weight, capacity, ghostCap);
      OneHitScan(Insert(p, scan[0].key, scan[0].value, scan[0].weight, capacity, ghostCap), scan[1..], capacity, ghostCap)))
  }

  /** A flood of one-hit insertions, however long, evicts no protected entry. */
  lemma {:induction false} ScanResistance<K(!new), V>(p: Policy<K, V>, scan: seq<Arrival<K, V>>, capacity: nat, ghostCap: nat)
    requires Sound(p, capacity) && OneHitScan(p, scan, capacity, ghostCap)
    ensures KeepsProtected(p, Flood(p, scan, capacity, ghostCap))
    decreases |scan|
  {
    if scan != [] {
      var a := scan[0];
      OperationsKeepSound(p, a.key, a.value, a.weight, capacity, ghostCap);
      FreshInsertSparesProtected(p, a.key, a.value, a.weight, capacity, ghostCap);
      ScanResistance(Insert(p, a.key, a.value, a.weight, capacity, ghostCap), scan[1..], capacity, ghostCap);
    }
  }

  /** The keys a cache knows: resident or remembered. */
  ghost function Known<K, V>(p: Policy<K, V>): (s: set<K>)
  {
    p.items.Keys + p.ghosts.weights.Keys
  }

  lemma {:induction false} TrimForgets<K>(g: Ghosts<K>, cap: nat)
    ensures Trim(g, cap).weights.Keys <= g.weights.Keys
    decreases |g.queue|
  {
    if OverGhostCap(g, cap) && g.queue != [] {
      TrimForgets(PopGhost(g), cap);
    }
  }

  lemma {:induction false} EvictLargeKnows<K(!new), V>(p: Policy<K, V>)
    requires WellFormed(p) && p.large != []
    ensures Known(EvictLarge(p)) <= Known(p)
    decreases SumFreq(p.items, p.large)
  {
    if p.items[p.large[0]].freq > 0 {
      RotateLowersFreq(p);
      EvictLargeKnows(Rotate(p));
    }
  }

  lemma EvictOneKnows<K(!new), V>(p: Policy<K, V>, ghostCap: nat)
    requires WellFormed(p) && p.items != map[]
    ensures Known(EvictOne(p, ghostCap)) <= Known(p)
  {
    if p.small != [] {
      var k := p.small[0];
      TrimForgets(PushGhost(p.ghosts, k, p.items[k].weight), ghostCap);
    } else if p.medium == [] {
      EvictLargeKnows(p);
    }
  }

  lemma {:induction false} EvictAllKnows<K(!new), V>(p: Policy<K, V>, capacity: nat, ghostCap: nat)
    requires WellFormed(p)
    ensures Known(EvictAll(p, capacity, ghostCap)) <= Known(p)
    decreases Measure(p)
  {
    hide Known, EvictOne, WellFormed;
    if Weight(p.items) > capacity {
      EvictOneStep(p, ghostCap);
      EvictOneKnows(p, ghostCap);
      EvictAllKnows(EvictOne(p, ghostCap), capacity, ghostCap);
    }
  }

  /** An insertion makes the cache know no other key. */
  lemma InsertKnows<K(!new), V>(p: Policy<K, V>, k: K, v: V, w: nat, capacity: nat, ghostCap: nat)
    requires WellFormed(p)
    ensures Known(Insert(p, k, v, w, capacity, ghostCap)) <= Known(p) + {k}
  {
    AdmitWellFormed(p, k, v, w, capacity);
    EvictAllKnows(Admit(p, k, v, w, capacity), capacity, ghostCap);
    assert Known(Admit(p, k, v, w, capacity)) <= Known(p) + {k};
  }

  /** Keys that differ from each other and are all unknown at the start are unknown when they arrive. */
  lemma {:induction false} DistinctIsOneHit<K(!new), V>(p: Policy<K, V>, scan: seq<Arrival<K, V>>, capacity: nat, ghostCap: nat)
    requires Sound(p, capacity)
    requires forall i :: 0 <= i < |scan| ==> Fresh(p, scan[i].key)
    requires forall i, j :: 0 <= i < j < |scan| ==> scan[i].key != scan[j].key
    ensures OneHitScan(p, scan, capacity, ghostCap)
    decreases |scan|
  {
    if scan != [] {
      var a := scan[0];
      OperationsKeepSound(p, a.key, a.value, a.weight, capacity, ghostCap);
      InsertKnows(p, a.key, a.value, a.weight, capacity, ghostCap);
      var r, rest := Insert(p, a.key, a.value, a.weight, capacity, ghostCap), scan[1..];
      hide Insert, Sound;
      forall i | 0 <= i < |rest|
        ensures Fresh(r, rest[i].key)
      {
        assert rest[i].key !in Known(p) + {a.key};
      }
      DistinctIsOneHit(r, rest, capacity, ghostCap);
    }
  }

  /** A scan of distinct new keys, however long, evicts no protected entry. */
  lemma DistinctScanResistance<K(!new), V>(p: Policy<K, V>, scan: seq<Arrival<K, V>>, capacity: nat, ghostCap: nat)
    requires Sound(p, capacity)
    requires forall i :: 0 <= i < |scan| ==> Fresh(p, scan[i].key)
    requires forall i, j :: 0 <= i < j < |scan| ==> scan[i].key != scan[j].key
    ensures KeepsProtected(p, Flood(p, scan, capacity, ghostCap))
  {
    DistinctIsOneHit(p, scan, capacity, ghostCap);
    ScanResistance(p, scan, capacity, ghostCap);
  }

  // ---------------------------------------------------------------------------
  // Which large entry the second-chance loop drops
  // ---------------------------------------------------------------------------

  /** Position `j` of the large queue holds the least frequency, and is the first to do so. */
  ghost predicate FirstLeast<K, V>(p: Policy<K, V>, j: nat)
    requires forall k :: k in p.large ==> k in p.items
  {
    && j < |p.large|
    && (forall i :: 0 <= i < |p.large| ==> p.items[p.large[j]].freq <= p.items[p.large[i]].freq)
    && (forall i :: 0 <= i < j ==> p.items[p.large[j]].freq < p.items[p.large[i]].freq)
  }

  /** The large entry at `i` after a sweep that drops entry `j`: entries before it pay one more turn than entries after it. */
  ghost function Charged<K, V>(p: Policy<K, V>, j: nat, i: nat): (item: Item<V>)
    requires forall k :: k in p.large ==> k in p.items
    requires j < |p.large| && i < |p.large|
  {
    var item, least := p.items[p.large[i]], p.items[p.large[j]].freq;
    item.(freq := SatSub(item.freq, if i < j then least + 1 else least))
  }

  ghost predicate Swept<K(!new), V>(p: Policy<K, V>, j: nat, r: Policy<K, V>)
    requires forall k :: k in p.large ==> k in p.items
    requires j < |p.large|
  {
    && r.large == p.large[j + 1..] + p.large[..j]
    && r.items.Keys == p.items.Keys - {p.large[j]}
    && (forall i :: 0 <= i < |p.large| && i != j ==> p.large[i] in r.items && r.items[p.large[i]] == Charged(p, j, i))
    && (forall k :: k in p.items && k !in p.large ==> k in r.items && r.items[k] == p.items[k])
    && r.small == p.small && r.medium == p.medium && r.ghosts == p.ghosts
  }

  lemma {:induction false} SecondChanceVictim<K(!new), V>(p: Policy<K, V>, j: nat)
    requires Distinct(p.large) && (forall k :: k in p.large ==> k in p.items)
    requires FirstLeast(p, j)
    ensures Swept(p, j, EvictLarge(p))
    decreases SumFreq(p.items, p.large)
  {
    if p.items[p.large[0]].freq > 0 {
      RotateLowersFreq(p);
      FirstLeastBack(p, j);
      SecondChanceVictim(Rotate(p), Back(j, |p.large|));
      SweptBack(p, j, EvictLarge(p));
    }
  }

  function Back(i: nat, n: nat): (r: nat)
    requires i < n
    ensures r < n
  {
    if i == 0 then n - 1 else i - 1
  }

  lemma RotatedAt<K, V>(p: Policy<K, V>, i: nat)
    requires p.large != [] && p.large[0] in p.items && i < |p.large|
    ensures Rotate(p).large[Back(i, |p.large|)] == p.large[i]
  {
  }

  lemma RotatedOrder<K>(s: seq<K>, j: nat)
    requires j < |s|
    ensures var t, j' := s[1..] + [s[0]], Back(j, |s|);
            t[j' + 1..] + t[..j'] == s[j + 1..] + s[..j]
  {
    var t := s[1..] + [s[0]];
    if j == 0 {
      assert t[|s|..] + t[..|s| - 1] == s[1..];
    } else {
      assert t[j..] == s[j + 1..] + [s[0]] && t[..j - 1] == s[1..j];
      assert [s[0]] + s[1..j] == s[..j];
    }
  }

  lemma FirstLeastBack<K, V>(p: Policy<K, V>, j: nat)
    requires Distinct(p.large) && (forall k :: k in p.large ==> k in p.items)
    requires FirstLeast(p, j) && p.items[p.large[0]].freq > 0
    requires forall k :: k in Rotate(p).large ==> k in Rotate(p).items
    ensures FirstLeast(Rotate(p), Back(j, |p.large|))
  {
    var q, n := Rotate(p), |p.large|;
    assert forall i :: 0 <= i < n - 1 ==> q.large[i] == p.large[i + 1];
    assert q.large[n - 1] == p.large[0];
  }

  lemma ChargedBack<K, V>(p: Policy<K, V>, j: nat, i: nat)
    requires Distinct(p.large) && (forall k :: k in p.large ==> k in p.items)
    requires FirstLeast(p, j) && i < |p.large| && i != j
    requires p.items[p.large[0]].freq > 0
    requires forall k :: k in Rotate(p).large ==> k in Rotate(p).items
    ensures Charged(Rotate(p), Back(j, |p.large|), Back(i, |p.large|)) == Charged(p, j, i)
  {
    RotatedAt(p, i);
    RotatedAt(p, j);
  }

  lemma SweptBack<K(!new), V>(p: Policy<K, V>, j: nat, r: Policy<K, V>)
    requires Distinct(p.large) && (forall k :: k in p.large ==> k in p.items)
    requires FirstLeast(p, j) && p.items[p.large[0]].freq > 0
    requires forall k :: k in Rotate(p).large ==> k in Rotate(p).items
    requires Swept(Rotate(p), Back(j, |p.large|), r)
    ensures Swept(p, j, r)
  {
    assert j < |p.large| && p.large[0] in p.items;
    hide Charged, FirstLeast, Distinct, Rotate, Swept, Back;
    RotatedAt(p, j);
    RotatedOrder(p.large, j);
    RotatedOthers(p);
    forall i | 0 <= i < |p.large| && i != j
      ensures p.large[i] in r.items && r.items[p.large[i]] == Charged(p, j, i)
    {
      SweptAt(p, j, r, i);
    }
    SweptFrom(p, Rotate(p), j, Back(j, |p.large|), r);
  }

  /** A sweep of another order of the same queue, read back. */
  lemma SweptFrom<K(!new), V>(p: Policy<K, V>, q: Policy<K, V>, j: nat, j': nat, r: Policy<K, V>)
    requires (forall k :: k in p.large ==> k in p.items) && (forall k :: k in q.large ==> k in q.items)
    requires j < |p.large| && j' < |q.large| && q.large[j'] == p.large[j] && q.items.Keys == p.items.Keys
    requires q.large[j' + 1..] + q.large[..j'] == p.large[j + 1..] + p.large[..j]
    requires q.small == p.small && q.medium == p.medium && q.ghosts == p.ghosts
    requires forall k :: k in p.items && k !in p.large ==> k !in q.large && q.items[k] == p.items[k]
    requires forall i :: 0 <= i < |p.large| && i != j ==> p.large[i] in r.items && r.items[p.large[i]] == Charged(p, j, i)
    requires Swept(q, j', r)
    ensures Swept(p, j, r)
  {
    hide Charged;
  }

  lemma SweptAt<K(!new), V>(p: Policy<K, V>, j: nat, r: Policy<K, V>, i: nat)
    requires Distinct(p.large) && (forall k :: k in p.large ==> k in p.items)
    requires FirstLeast(p, j) && p.items[p.large[0]].freq > 0
    requires forall k :: k in Rotate(p).large ==> k in Rotate(p).items
    requires Swept(Rotate(p), Back(j, |p.large|), r) && i < |p.large| && i != j
    ensures p.large[i] in r.items && r.items[p.large[i]] == Charged(p, j, i)
  {
    assert j < |p.large| && p.large[0] in p.items;
    hide Charged, FirstLeast, Distinct;
    RotatedAt(p, i);
    ChargedBack(p, j, i);
  }

  lemma RotatedOthers<K, V>(p: Policy<K, V>)
    requires p.large != [] && p.large[0] in p.items
    ensures var q := Rotate(p);
            && q.large == p.large[1..] + [p.large[0]] && q.items.Keys == p.items.Keys
            && q.small == p.small && q.medium == p.medium && q.ghosts == p.ghosts
            && (forall k :: k in p.items && k !in p.large ==> k !in q.large && q.items[k] == p.items[k])
  {
  }

  // ---------------------------------------------------------------------------
  // The iteration bound of the eviction loop
  // ---------------------------------------------------------------------------

  lemma {:induction false} DistinctCount<K>(s: seq<K>)
    requires Distinct(s)
    ensures |set k | k in s| == |s|
  {
    if s != [] {
      HeadGone(s);
      DistinctCount(s[1..]);
      assert (set k | k in s) == (set k | k in s[1..]) + {s[0]};
    }
  }

  /** The eviction measure never exceeds twice the number of entries. */
  lemma MeasureBound<K(!new), V>(p: Policy<K, V>)
    requires WellFormed(p)
    ensures Measure(p) <= 2 * |p.items|
  {
    DistinctCount(p.small);
    DistinctCount(p.medium);
    DistinctCount(p.large);
    var s, m, l := set k | k in p.small, set k | k in p.medium, set k | k in p.large;
    assert p.items.Keys == s + m + l;
    assert s !! m && (s + m) !! l;
  }
}

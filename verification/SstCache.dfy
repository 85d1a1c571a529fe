/**
 The cache implementation of `src/store/cache.rs`: queue slots are tagged with a sequence
 number and go stale instead of being unlinked. Every operation is proved to do what
 `CachePolicy` prescribes.
 */
module SstCache {
  import opened Wrappers
  import P = CachePolicy

  datatype Queue = Small | Medium | Large

  datatype Entry<+V> = Entry(value: V, weight: nat, freq: nat, queue: Queue, slot: nat)

  type Slot<K> = (nat, K)

  // ---------------------------------------------------------------------------
  // Live slots
  // ---------------------------------------------------------------------------

  predicate LiveSlot<K, V>(s: Slot<K>, m: map<K, Entry<V>>, q: Queue)
  {
    s.1 in m && m[s.1].slot == s.0 && m[s.1].queue == q
  }

  /** The keys of a queue once stale slots are disregarded. */
  function LiveKeys<K, V>(slots: seq<Slot<K>>, m: map<K, Entry<V>>, q: Queue): (keys: seq<K>)
  {
    if slots == [] then [] else
      (if LiveSlot(slots[0], m, q) then [slots[0].1] else []) + LiveKeys(slots[1..], m, q)
  }

  ghost function Items<K, V>(m: map<K, Entry<V>>): map<K, P.Item<V>>
  {
    map k | k in m :: P.Item(m[k].value, m[k].weight, m[k].freq)
  }

  /** Slots carry strictly increasing sequence numbers below the next one to be issued. */
  ghost predicate OrderedSlots<K>(slots: seq<Slot<K>>, next: nat)
  {
    && (forall i :: 0 <= i < |slots| ==> slots[i].0 < next)
    && (forall i, j :: 0 <= i < j < |slots| ==> slots[i].0 < slots[j].0)
  }

  lemma {:induction false} LiveMember<K, V>(slots: seq<Slot<K>>, m: map<K, Entry<V>>, q: Queue, k: K)
    ensures k in LiveKeys(slots, m, q) <==> k in m && m[k].queue == q && (m[k].slot, k) in slots
  {
    if slots != [] {
      LiveMember(slots[1..], m, q, k);
      assert slots == [slots[0]] + slots[1..];
    }
  }

  lemma {:induction false} LiveDistinct<K(!new), V>(slots: seq<Slot<K>>, m: map<K, Entry<V>>, q: Queue, next: nat)
    requires OrderedSlots(slots, next)
    ensures P.Distinct(LiveKeys(slots, m, q))
  {
    if slots != [] {
      LiveDistinct(slots[1..], m, q, next);
      if LiveSlot(slots[0], m, q) {
        LiveMember(slots[1..], m, q, slots[0].1);
      }
    }
  }

  lemma {:induction false} LiveAppend<K, V>(slots: seq<Slot<K>>, s: Slot<K>, m: map<K, Entry<V>>, q: Queue)
    ensures LiveKeys(slots + [s], m, q) == LiveKeys(slots, m, q) + if LiveSlot(s, m, q) then [s.1] else []
  {
    if slots == [] {
      assert slots + [s] == [s];
    } else {
      LiveAppend(slots[1..], s, m, q);
      assert (slots + [s])[1..] == slots[1..] + [s];
    }
  }

  lemma {:induction false} LiveSame<K, V>(slots: seq<Slot<K>>, m: map<K, Entry<V>>, m': map<K, Entry<V>>, q: Queue)
    requires forall s :: s in slots ==> (LiveSlot(s, m, q) <==> LiveSlot(s, m', q))
    ensures LiveKeys(slots, m', q) == LiveKeys(slots, m, q)
  {
    if slots != [] {
      LiveSame(slots[1..], m, m', q);
    }
  }

  lemma {:induction false} LiveWithout<K, V>(slots: seq<Slot<K>>, m: map<K, Entry<V>>, q: Queue, k: K)
    ensures LiveKeys(slots, m - {k}, q) == P.Without(LiveKeys(slots, m, q), k)
  {
    if slots != [] {
      LiveWithout(slots[1..], m, q, k);
      var keys, rest := LiveKeys(slots, m, q), LiveKeys(slots[1..], m, q);
      assert if LiveSlot(slots[0], m, q) then keys[0] == slots[0].1 && keys[1..] == rest else keys == rest;
    }
  }

  /** `rest` is what remains of `slots` after popping its oldest live key `k`. */
  ghost predicate Popped<K(!new), V>(slots: seq<Slot<K>>, rest: seq<Slot<K>>, m: map<K, Entry<V>>, q: Queue, k: K)
  {
    && LiveKeys(slots, m, q) == [k] + LiveKeys(rest, m, q)
    && k in m && m[k].queue == q
    && |rest| < |slots| && slots[|slots| - |rest|..] == rest
    && slots[|slots| - |rest| - 1] == (m[k].slot, k)
    && forall s :: s in slots && LiveSlot(s, m, q) && s.1 != k ==> s in rest
  }

  /** Pops the oldest live key, dropping the stale slots in front of it. */
  method PopLive<K(==, !new), V>(slots: seq<Slot<K>>, m: map<K, Entry<V>>, q: Queue) returns (key: Option<K>, rest: seq<Slot<K>>)
    ensures key.None? ==> rest == [] && LiveKeys(slots, m, q) == []
    ensures key.Some? ==> Popped(slots, rest, m, q, key.value)
  {
    rest, key := slots, None;
    while rest != []
      invariant |rest| <= |slots| && slots[|slots| - |rest|..] == rest
      invariant LiveKeys(slots, m, q) == LiveKeys(rest, m, q)
      invariant forall s :: s in slots && LiveSlot(s, m, q) ==> s in rest
    {
      var s := rest[0];
      assert rest == [s] + rest[1..];
      rest := rest[1..];
      if LiveSlot(s, m, q) {
        key := Some(s.1);
        return;
      }
    }
  }

  // ---------------------------------------------------------------------------
  // Moving one key between queues
  // ---------------------------------------------------------------------------

  /** No slot of `slots` is live for `k`. */
  ghost predicate NotLive<K, V>(slots: seq<Slot<K>>, m: map<K, Entry<V>>, q: Queue, k: K)
  {
    k in m && m[k].queue == q ==> (m[k].slot, k) !in slots
  }

  lemma LiveFrame<K, V>(slots: seq<Slot<K>>, m: map<K, Entry<V>>, m': map<K, Entry<V>>, q: Queue, k: K)
    requires m - {k} == m' - {k}
    requires NotLive(slots, m, q, k) && NotLive(slots, m', q, k)
    ensures LiveKeys(slots, m', q) == LiveKeys(slots, m, q)
  {
    forall s | s in slots
      ensures LiveSlot(s, m, q) <==> LiveSlot(s, m', q)
    {
      if s.1 != k {
        assert s.1 in m <==> s.1 in m - {k};
        assert s.1 in m' <==> s.1 in m' - {k};
        assert s.1 in m ==> m[s.1] == (m - {k})[s.1] && m'[s.1] == (m' - {k})[s.1];
      }
    }
    LiveSame(slots, m, m', q);
  }

  /** The three slot queues. */
  datatype Slots<K> = Slots(small: seq<Slot<K>>, medium: seq<Slot<K>>, large: seq<Slot<K>>)
  {
    function Of(q: Queue): (r: seq<Slot<K>>)
    {
      match q
      case Small => small
      case Medium => medium
      case Large => large
    }

    function With(q: Queue, slots: seq<Slot<K>>): (r: Slots<K>)
      ensures r.Of(q) == slots
      ensures forall x :: x != q ==> r.Of(x) == Of(x)
    {
      match q
      case Small => this.(small := slots)
      case Medium => this.(medium := slots)
      case Large => this.(large := slots)
    }

    ghost predicate Ordered(next: nat)
    {
      forall q :: OrderedSlots(Of(q), next)
    }
  }

  /** Every entry has its slot, in its own queue. */
  ghost predicate Slotted<K(!new), V>(m: map<K, Entry<V>>, sl: Slots<K>, next: nat)
  {
    forall k :: k in m ==> m[k].slot < next && (m[k].slot, k) in sl.Of(m[k].queue)
  }

  /** The popped slot was the only live one of its key. */
  lemma PoppedNotLive<K(!new), V>(slots: seq<Slot<K>>, rest: seq<Slot<K>>, m: map<K, Entry<V>>, q: Queue, k: K, next: nat)
    requires Popped(slots, rest, m, q, k) && OrderedSlots(slots, next)
    ensures OrderedSlots(rest, next)
    ensures NotLive(rest, m, q, k)
  {
    var n := |slots| - |rest|;
    forall i | 0 <= i < |rest|
      ensures rest[i] == slots[n + i] && rest[i].0 > m[k].slot
    {
      assert slots[n..][i] == slots[n + i];
    }
  }

  /** After popping `k`, every other entry still has its slot, and no queue holds a live slot of `k`. */
  lemma PoppedSlots<K(!new), V>(m: map<K, Entry<V>>, sl: Slots<K>, q: Queue, rest: seq<Slot<K>>, k: K, next: nat)
    requires sl.Ordered(next) && Slotted(m, sl, next) && Popped(sl.Of(q), rest, m, q, k)
    ensures k in m && LiveKeys(sl.Of(q), m, q) == [k] + LiveKeys(rest, m, q)
    ensures sl.With(q, rest).Ordered(next)
    ensures Slotted(m - {k}, sl.With(q, rest), next)
    ensures forall x :: NotLive(sl.With(q, rest).Of(x), m, x, k)
  {
    PoppedNotLive(sl.Of(q), rest, m, q, k, next);
    hide OrderedSlots, LiveKeys;
    PoppedSlotted(m, sl, q, rest, k, next);
    forall x
      ensures NotLive(sl.With(q, rest).Of(x), m, x, k)
    {
    }
  }

  lemma PoppedSlotted<K(!new), V>(m: map<K, Entry<V>>, sl: Slots<K>, q: Queue, rest: seq<Slot<K>>, k: K, next: nat)
    requires Slotted(m, sl, next) && Popped(sl.Of(q), rest, m, q, k)
    ensures Slotted(m - {k}, sl.With(q, rest), next)
  {
    hide LiveKeys;
    forall x | x in m - {k}
      ensures (m[x].slot, x) in sl.With(q, rest).Of(m[x].queue)
    {
      assert LiveSlot((m[x].slot, x), m, m[x].queue);
    }
  }

  lemma DroppedLive<K(!new), V>(m: map<K, Entry<V>>, sl: Slots<K>, k: K)
    requires forall q :: NotLive(sl.Of(q), m, q, k)
    ensures forall q :: LiveKeys(sl.Of(q), m - {k}, q) == LiveKeys(sl.Of(q), m, q)
    ensures Items(m - {k}) == Items(m) - {k}
  {
    forall q
      ensures LiveKeys(sl.Of(q), m - {k}, q) == LiveKeys(sl.Of(q), m, q)
    {
      LiveFrame(sl.Of(q), m, m - {k}, q, k);
    }
  }

  /** Entry `e` of key `k` gets a fresh slot at the end of its queue. */
  lemma PushedSlots<K(!new), V>(m: map<K, Entry<V>>, sl: Slots<K>, k: K, e: Entry<V>, next: nat)
    requires sl.Ordered(next) && Slotted(m - {k}, sl, next) && e.slot == next
    ensures sl.With(e.queue, sl.Of(e.queue) + [(next, k)]).Ordered(next + 1)
    ensures Slotted(m[k := e], sl.With(e.queue, sl.Of(e.queue) + [(next, k)]), next + 1)
  {
    PushedOrdered(sl, k, e.queue, next);
    hide OrderedSlots;
    var m', sl' := m[k := e], sl.With(e.queue, sl.Of(e.queue) + [(next, k)]);
    forall x | x in m'
      ensures m'[x].slot < next + 1 && (m'[x].slot, x) in sl'.Of(m'[x].queue)
    {
      if x != k {
        assert x in m - {k} && m'[x] == (m - {k})[x];
      } else {
        assert sl'.Of(e.queue)[|sl.Of(e.queue)|] == (next, k);
      }
    }
  }

  lemma PushedOrdered<K(!new)>(sl: Slots<K>, k: K, q: Queue, next: nat)
    requires sl.Ordered(next)
    ensures sl.With(q, sl.Of(q) + [(next, k)]).Ordered(next + 1)
  {
    var sl' := sl.With(q, sl.Of(q) + [(next, k)]);
    forall x
      ensures OrderedSlots(sl'.Of(x), next + 1)
    {
      assert OrderedSlots(sl.Of(x), next);
    }
  }

  lemma PushedLive<K(!new), V>(m: map<K, Entry<V>>, sl: Slots<K>, k: K, e: Entry<V>, next: nat)
    requires sl.Ordered(next) && e.slot == next
    requires forall q :: NotLive(sl.Of(q), m, q, k)
    ensures LiveKeys(sl.Of(e.queue) + [(next, k)], m[k := e], e.queue) == LiveKeys(sl.Of(e.queue), m, e.queue) + [k]
    ensures forall q :: q != e.queue ==> LiveKeys(sl.Of(q), m[k := e], q) == LiveKeys(sl.Of(q), m, q)
    ensures Items(m[k := e]) == Items(m)[k := P.Item(e.value, e.weight, e.freq)]
  {
    forall q
      ensures LiveKeys(sl.Of(q), m[k := e], q) == LiveKeys(sl.Of(q), m, q)
    {
      assert OrderedSlots(sl.Of(q), next);
      LiveFrame(sl.Of(q), m, m[k := e], q, k);
    }
    LiveAppend(sl.Of(e.queue), (next, k), m[k := e], e.queue);
  }

  class S3Inner<K(==, !new), V> {
    var entries: map<K, Entry<V>>
    var small: seq<Slot<K>>
    var medium: seq<Slot<K>>
    var large: seq<Slot<K>>
    var ghosts: seq<(K, nat)>
    var ghostWeights: map<K, nat>
    var ghostWeight: nat
    var weight: nat
    var nextSlot: nat
    const capacity: nat
    const ghostCap: nat

    constructor (capacity: nat)
      requires capacity + U32_MAX <= P.USIZE_MAX
      ensures Valid() && this.capacity == capacity
      ensures Abs() == P.Policy(map[], [], [], [], P.Ghosts([], map[], 0))
    {
      entries, small, medium, large := map[], [], [], [];
      ghosts, ghostWeights, ghostWeight := [], map[], 0;
      weight, nextSlot := 0, 0;
      this.capacity, ghostCap := capacity, capacity;
    }

    ghost function Abs(): (p: P.Policy<K, V>)
      reads this
    {
      P.Policy(Items(entries), LiveOf(Small), LiveOf(Medium), LiveOf(Large), P.Ghosts(ghosts, ghostWeights, ghostWeight))
    }

    ghost function LiveOf(q: Queue): (keys: seq<K>)
      reads this
    {
      LiveKeys(Queues().Of(q), entries, q)
    }

    ghost function Queues(): (sl: Slots<K>)
      reads this
    {
      Slots(small, medium, large)
    }

    /** Sequence-ordered queues, one slot per entry, and an exact total weight. */
    ghost predicate Valid()
      reads this
    {
      && Queues().Ordered(nextSlot) && Slotted(entries, Queues(), nextSlot)
      && weight == P.Weight(Items(entries))
      && capacity + U32_MAX <= P.USIZE_MAX
    }

    /** Each resident entry has exactly one live slot, in its own queue. */
    lemma ValidIsWellFormed()
      requires Valid()
      ensures P.WellFormed(Abs())
    {
      assert OrderedSlots(Queues().Of(Small), nextSlot) && OrderedSlots(Queues().Of(Medium), nextSlot);
      assert OrderedSlots(Queues().Of(Large), nextSlot);
      LiveDistinct(small, entries, Small, nextSlot);
      LiveDistinct(medium, entries, Medium, nextSlot);
      LiveDistinct(large, entries, Large, nextSlot);
      forall k
        ensures k in LiveKeys(small, entries, Small) <==> k in entries && entries[k].queue == Small
        ensures k in LiveKeys(medium, entries, Medium) <==> k in entries && entries[k].queue == Medium
        ensures k in LiveKeys(large, entries, Large) <==> k in entries && entries[k].queue == Large
      {
        LiveMember(small, entries, Small, k);
        LiveMember(medium, entries, Medium, k);
        LiveMember(large, entries, Large, k);
      }
      hide LiveKeys, OrderedSlots, Slotted, P.WellFormed, P.Distinct, P.Weight;
      EachInOneQueue(entries, Abs());
    }

    lemma EachInOneQueue(m: map<K, Entry<V>>, p: P.Policy<K, V>)
      requires P.Distinct(p.small) && P.Distinct(p.medium) && P.Distinct(p.large) && p.items.Keys == m.Keys
      requires forall k :: k in p.small <==> k in m && m[k].queue == Small
      requires forall k :: k in p.medium <==> k in m && m[k].queue == Medium
      requires forall k :: k in p.large <==> k in m && m[k].queue == Large
      ensures P.WellFormed(p)
    {
      hide P.Distinct;
    }

    method RememberGhost(key: K, w: nat)
      modifies this`ghosts, this`ghostWeights, this`ghostWeight
      ensures P.Ghosts(ghosts, ghostWeights, ghostWeight) ==
              P.Remember(P.Ghosts(old(ghosts), old(ghostWeights), old(ghostWeight)), key, w, ghostCap)
    {
      if key in ghostWeights {
        return;
      }
      ghosts := ghosts + [(key, w)];
      ghostWeights := ghostWeights[key := w];
      ghostWeight := P.SatAdd(ghostWeight, w);
      ghost var pushed := P.Ghosts(ghosts, ghostWeights, ghostWeight);
      while ghostWeight > ghostCap || |ghosts| > P.GHOST_MAX_ENTRIES
        invariant P.Trim(P.Ghosts(ghosts, ghostWeights, ghostWeight), ghostCap) == P.Trim(pushed, ghostCap)
        decreases |ghosts|
      {
        if ghosts == [] {
          break;
        }
        var (oldKey, oldWeight) := ghosts[0];
        ghosts := ghosts[1..];
        if oldKey in ghostWeights {
          ghostWeight := P.SatSub(ghostWeight, oldWeight);
        }
        ghostWeights := ghostWeights - {oldKey};
      }
    }

    method SetSlots(q: Queue, slots: seq<Slot<K>>)
      modifies this`small, this`medium, this`large
      ensures Queues() == old(Queues()).With(q, slots)
    {
      match q {
        case Small => small := slots;
        case Medium => medium := slots;
        case Large => large := slots;
      }
    }

    /** Removes the entry `k` just popped from `q`. */
    method DropEntry(q: Queue, rest: seq<Slot<K>>, k: K)
      requires Valid() && Popped(Queues().Of(q), rest, entries, q, k)
      modifies this`small, this`medium, this`large, this`entries, this`weight
      ensures Valid() && Queues() == old(Queues()).With(q, rest)
      ensures Items(entries) == old(Items(entries)) - {k}
      ensures forall x :: LiveOf(x) == LiveKeys(old(Queues()).With(q, rest).Of(x), old(entries), x)
    {
      hide LiveKeys, P.Weight, OrderedSlots, Popped, LiveSlot, Slotted, NotLive, Items;
      ghost var sl := Queues().With(q, rest);
      PoppedSlots(entries, Queues(), q, rest, k, nextSlot);
      DroppedLive(entries, sl, k);
      EntryItem(entries, k);
      P.WeightSplit(Items(entries), k);
      weight := P.SatSub(weight, entries[k].weight);
      SetSlots(q, rest);
      entries := entries - {k};
    }

    /** Moves the entry `k` just popped from `q` to the end of the large queue under a fresh sequence number. */
    method Requeue(q: Queue, rest: seq<Slot<K>>, k: K)
      requires Valid() && Popped(Queues().Of(q), rest, entries, q, k)
      modifies this`small, this`medium, this`large, this`entries, this`nextSlot
      ensures Valid()
      ensures k in old(Items(entries)) && Items(entries) == old(Items(entries))[k := P.Cooled(old(Items(entries))[k])]
      ensures forall x :: LiveOf(x) ==
                LiveKeys(old(Queues()).With(q, rest).Of(x), old(entries), x) + if x == Large then [k] else []
    {
      hide LiveKeys, P.Weight, OrderedSlots, Popped, LiveSlot, Slotted, NotLive, Items;
      ghost var sl, m := Queues().With(q, rest), entries;
      PoppedSlots(entries, Queues(), q, rest, k, nextSlot);
      var slot := nextSlot;
      var e := entries[k].(freq := P.SatSub(entries[k].freq, 1), queue := Large, slot := slot);
      PushedSlots(entries, sl, k, e, slot);
      PushedLive(entries, sl, k, e, slot);
      EntryItem(entries, k);
      P.WeightSplit(Items(entries), k);
      P.WeightPut(Items(entries), k, P.Cooled(Items(entries)[k]));
      nextSlot := nextSlot + 1;
      SetSlots(q, rest);
      entries := entries[k := e];
      large := large + [(slot, k)];
      assert Queues() == sl.With(Large, sl.Of(Large) + [(slot, k)]);
    }

    /**
     The head of the small queue: a cold one leaves and is remembered, a hot one goes to the
     end of the large queue with its frequency lowered by one.
     */
    ghost predicate SmallTurned(p: P.Policy<K, V>, r: P.Policy<K, V>, ghostCap: nat)
    {
      && p.small != [] && p.small[0] in p.items && r.small == p.small[1..] && r.medium == p.medium
      && var k, e := p.small[0], p.items[p.small[0]];
         && r.items - {k} == p.items - {k}
         && (e.freq == 0 ==> k !in r.items && r.large == p.large && r.ghosts == P.Remember(p.ghosts, k, e.weight, ghostCap))
         && (e.freq > 0 ==> k in r.items && r.items[k] == e.(freq := e.freq - 1) && r.large == p.large + [k] && r.ghosts == p.ghosts)
    }

    /** The head of the medium queue: a cold one leaves for good, a hot one goes to the large queue. */
    ghost predicate MediumTurned(p: P.Policy<K, V>, r: P.Policy<K, V>)
    {
      && p.medium != [] && p.medium[0] in p.items && r.medium == p.medium[1..] && r.small == p.small && r.ghosts == p.ghosts
      && var k, e := p.medium[0], p.items[p.medium[0]];
         && r.items - {k} == p.items - {k}
         && (e.freq == 0 ==> k !in r.items && r.large == p.large)
         && (e.freq > 0 ==> k in r.items && r.items[k] == e.(freq := e.freq - 1) && r.large == p.large + [k])
    }

    method EvictFromSmall() returns (progressed: bool)
      requires Valid()
      modifies this
      ensures Valid()
      ensures progressed == (old(Abs()).small != [])
      ensures progressed ==> old(Abs().small[0] in Abs().items) && Abs() == P.EvictSmall(old(Abs()), ghostCap)
      ensures progressed ==> SmallTurned(old(Abs()), Abs(), ghostCap)
      ensures !progressed ==> Abs() == old(Abs())
    {
      hide P.Weight, OrderedSlots, LiveSlot, Slotted;
      var key, rest := PopLive(small, entries, Small);
      if key.None? {
        NoneLive(Small);
        small := rest;
        return false;
      }
      var k := key.value;
      EntryItem(entries, k);
      var w := entries[k].weight;
      if entries[k].freq == 0 {
        DropEntry(Small, rest, k);
        RememberGhost(k, w);
      } else {
        Requeue(Small, rest, k);
      }
      return true;
    }

    method EvictFromMedium() returns (progressed: bool)
      requires Valid()
      modifies this
      ensures Valid()
      ensures progressed == (old(Abs()).medium != [])
      ensures progressed ==> old(Abs().medium[0] in Abs().items) && Abs() == P.EvictMedium(old(Abs()))
      ensures progressed ==> MediumTurned(old(Abs()), Abs())
      ensures !progressed ==> Abs() == old(Abs())
    {
      hide P.Weight, OrderedSlots, LiveSlot, Slotted;
      var key, rest := PopLive(medium, entries, Medium);
      if key.None? {
        NoneLive(Medium);
        medium := rest;
        return false;
      }
      var k := key.value;
      EntryItem(entries, k);
      if entries[k].freq == 0 {
        DropEntry(Medium, rest, k);
      } else {
        Requeue(Medium, rest, k);
      }
      return true;
    }

    /** One turn of the large-queue loop: a hot head is requeued, a cold head is dropped. */
    method LargeTurn() returns (hot: bool, found: bool)
      requires Valid()
      modifies this
      ensures Valid()
      ensures found == (old(Abs()).large != [])
      ensures !found ==> Abs() == old(Abs())
      ensures found ==> HeadTurned(old(Abs()), Abs(), hot)
    {
      hide P.Weight, OrderedSlots, LiveSlot, Slotted, LiveKeys, Items, NotLive;
      var key, rest := PopLive(large, entries, Large);
      if key.None? {
        NoneLive(Large);
        large := rest;
        return false, false;
      }
      var k := key.value;
      EntryItem(entries, k);
      hot := entries[k].freq > 0;
      ghost var p := Abs();
      assert p.large[0] == k && p.large[1..] == LiveKeys(rest, entries, Large);
      if hot {
        Requeue(Large, rest, k);
      } else {
        DropEntry(Large, rest, k);
      }
      found := true;
    }

    ghost predicate HeadTurned(p: P.Policy<K, V>, r: P.Policy<K, V>, hot: bool)
    {
      && p.large != [] && p.large[0] in p.items
      && hot == (p.items[p.large[0]].freq > 0)
      && r == if hot then P.Rotate(p) else p.(items := p.items - {p.large[0]}, large := p.large[1..])
    }

    method EvictFromLarge() returns (progressed: bool)
      requires Valid()
      modifies this
      ensures Valid()
      ensures progressed == (old(Abs()).large != [])
      ensures progressed ==> P.WellFormed(old(Abs())) && Abs() == P.EvictLarge(old(Abs()))
      ensures !progressed ==> Abs() == old(Abs())
    {
      hide P.Weight, Valid, Abs;
      progressed := false;
      ghost var p := Abs();
      ValidIsWellFormed();
      while true
        invariant Valid() && P.WellFormed(Abs()) && P.WellFormed(p)
        invariant p.large == [] ==> Abs() == p && !progressed
        invariant p.large != [] ==> Abs().large != [] && P.EvictLarge(Abs()) == P.EvictLarge(p)
        decreases P.SumFreq(Abs().items, Abs().large)
      {
        ghost var q := Abs();
        var hot, found := LargeTurn();
        if !found {
          return;
        }
        if !hot {
          return true;
        }
        P.RotateLowersFreq(q);
        ValidIsWellFormed();
        progressed := true;
      }
    }

    /** The queue the next eviction takes from is the first non-empty one. */
    method EvictOnce() returns (progressed: bool)
      requires Valid()
      modifies this
      ensures Valid() && P.WellFormed(old(Abs()))
      ensures progressed == (old(Abs()).items != map[])
      ensures progressed ==> Abs() == P.EvictOne(old(Abs()), ghostCap)
      ensures old(Abs()).small != [] ==> SmallTurned(old(Abs()), Abs(), ghostCap)
      ensures old(Abs()).small == [] && old(Abs()).medium != [] ==> MediumTurned(old(Abs()), Abs())
      ensures !progressed ==> Abs() == old(Abs())
    {
      hide P.Weight, Valid, Abs;
      ValidIsWellFormed();
      EmptyQueues(Abs());
      progressed := EvictFromSmall();
      if !progressed {
        progressed := EvictFromMedium();
        if !progressed {
          progressed := EvictFromLarge();
        }
      }
    }

    /** Evicts until the weight fits. The iteration bound is never what ends the loop. */
    method EvictWhileOver()
      requires Valid()
      modifies this
      ensures Valid() && weight <= capacity
      ensures P.WellFormed(old(Abs())) && Abs() == P.EvictAll(old(Abs()), capacity, ghostCap)
    {
      hide P.Weight, Valid, Abs, P.WellFormed;
      ghost var p := Abs();
      ValidIsWellFormed();
      P.MeasureBound(p);
      EntryCount();
      WeightIs();
      var bound, n := 4 * |entries| + 32, 0;
      while n < bound
        invariant Valid() && P.WellFormed(Abs())
        invariant P.EvictAll(Abs(), capacity, ghostCap) == P.EvictAll(p, capacity, ghostCap)
        invariant P.Measure(Abs()) + n < bound
        invariant weight == P.Weight(Abs().items)
      {
        if weight <= capacity {
          return;
        }
        ghost var q := Abs();
        EmptyWeighsNothing(q);
        P.EvictOneStep(q, ghostCap);
        var progressed := EvictOnce();
        if !progressed {
          break;
        }
        WeightIs();
        n := n + 1;
      }
    }

    lemma WeightIs()
      requires Valid()
      ensures weight == P.Weight(Abs().items)
    {
    }

    lemma EntryCount()
      ensures |Abs().items| == |entries|
    {
      assert Items(entries).Keys == entries.Keys;
    }

    lemma EmptyWeighsNothing(p: P.Policy<K, V>)
      ensures P.Weight(p.items) > 0 ==> p.items != map[]
    {
    }

    // -------------------------------------------------------------------------
    // Public operations
    // -------------------------------------------------------------------------

    /** What holds between operations: a valid representation within capacity. */
    ghost predicate Sound()
      reads this
    {
      Valid() && weight <= capacity
    }

    method Get(key: K) returns (hit: Option<V>)
      requires Sound()
      modifies this`entries
      ensures Sound() && (hit, Abs()) == P.Get(old(Abs()), key)
      ensures hit == if key in old(Abs()).items then Some(old(Abs()).items[key].value) else None
      ensures key in old(Abs()).items ==>
                var was := old(Abs()).items[key];
                Abs().items == old(Abs()).items[key := was.(freq := if was.freq < 3 then was.freq + 1 else 3)]
      ensures key !in old(Abs()).items ==> Abs().items == old(Abs()).items
      ensures Abs().small == old(Abs()).small && Abs().medium == old(Abs()).medium && Abs().large == old(Abs()).large
      ensures Abs().ghosts == old(Abs()).ghosts
    {
      hide LiveKeys, P.Weight, OrderedSlots, LiveSlot, Slotted;
      hit := None;
      if key in entries {
        EntryItem(entries, key);
        var e := entries[key].(freq := P.Bumped(entries[key].freq));
        TouchEntry(key, e);
        entries := entries[key := e];
        hit := Some(e.value);
      }
    }

    /** Changing an entry without moving it leaves every queue alone. */
    lemma TouchEntry(k: K, e: Entry<V>)
      requires Valid() && k in entries && e.queue == entries[k].queue && e.slot == entries[k].slot
      ensures Slotted(entries[k := e], Queues(), nextSlot)
      ensures forall q :: LiveKeys(Queues().Of(q), entries[k := e], q) == LiveOf(q)
      ensures Items(entries[k := e]) == Items(entries)[k := P.Item(e.value, e.weight, e.freq)]
      ensures P.Weight(Items(entries[k := e])) == weight - entries[k].weight + e.weight
    {
      hide LiveKeys, OrderedSlots, P.Weight;
      forall q
        ensures LiveKeys(Queues().Of(q), entries[k := e], q) == LiveOf(q)
      {
        LiveSame(Queues().Of(q), entries, entries[k := e], q);
      }
      assert Items(entries[k := e]) == Items(entries)[k := P.Item(e.value, e.weight, e.freq)];
      P.WeightPut(Items(entries), k, P.Item(e.value, e.weight, e.freq));
      P.WeightSplit(Items(entries), k);
    }

    /** Adds a new entry at the end of queue `q`. */
    method AddEntry(q: Queue, k: K, value: V, w: nat, freq: nat)
      requires Valid() && k !in entries && weight + w <= P.USIZE_MAX
      modifies this`small, this`medium, this`large, this`entries, this`nextSlot, this`weight
      ensures Valid()
      ensures Items(entries) == old(Items(entries))[k := P.Item(value, w, freq)]
      ensures forall x :: LiveOf(x) == old(LiveOf(x)) + if x == q then [k] else []
    {
      hide LiveKeys, P.Weight, OrderedSlots, LiveSlot, Slotted;
      var slot := nextSlot;
      var e := Entry(value, w, freq, q, slot);
      ghost var sl := Queues();
      assert entries - {k} == entries && Items(entries) - {k} == Items(entries);
      PushedSlots(entries, sl, k, e, slot);
      PushedLive(entries, sl, k, e, slot);
      P.WeightPut(Items(entries), k, P.Item(value, w, freq));
      nextSlot := nextSlot + 1;
      entries := entries[k := e];
      match q {
        case Small => small := small + [(slot, k)];
        case Medium => medium := medium + [(slot, k)];
        case Large => large := large + [(slot, k)];
      }
      weight := P.SatAdd(weight, w);
      assert Queues() == sl.With(q, sl.Of(q) + [(slot, k)]);
    }

    /**
     A resident key is updated in place and counts as hit. Another one enters unless it is
     heavier than the cache: at the end of the medium queue with frequency one if it is
     remembered, which is then forgotten, and at the end of the small queue otherwise.
     */
    ghost predicate Admitted(p: P.Policy<K, V>, r: P.Policy<K, V>, k: K, v: V, w: nat)
      reads this
    {
      if k in p.items then
        && r.items == p.items[k := P.Item(v, w, if p.items[k].freq < 3 then p.items[k].freq + 1 else 3)]
        && r.small == p.small && r.medium == p.medium && r.large == p.large && r.ghosts == p.ghosts
      else if w > capacity then r == p
      else if k in p.ghosts.weights then
        && r.items == p.items[k := P.Item(v, w, 1)] && r.medium == p.medium + [k] && r.small == p.small && r.large == p.large
        && r.ghosts.weights == p.ghosts.weights - {k} && r.ghosts.queue == p.ghosts.queue
      else
        && r.items == p.items[k := P.Item(v, w, 0)] && r.small == p.small + [k] && r.medium == p.medium && r.large == p.large
        && r.ghosts == p.ghosts
    }

    method Admit(key: K, value: V, w: nat)
      requires Sound() && w <= U32_MAX
      modifies this
      ensures Valid() && Abs() == P.Admit(old(Abs()), key, value, w, capacity)
      ensures Admitted(old(Abs()), Abs(), key, value, w)
    {
      hide LiveKeys, P.Weight, OrderedSlots, LiveSlot;
      if key in entries {
        var e := entries[key].(value := value, weight := w, freq := P.Bumped(entries[key].freq));
        TouchEntry(key, e);
        EntryItem(entries, key);
        P.WeightSplit(Items(entries), key);
        weight := P.SatAdd(P.SatSub(weight, entries[key].weight), w);
        entries := entries[key := e];
      } else if w <= capacity {
        if key in ghostWeights {
          ghostWeight := P.SatSub(ghostWeight, ghostWeights[key]);
          ghostWeights := ghostWeights - {key};
          AddEntry(Medium, key, value, w, 1);
        } else {
          AddEntry(Small, key, value, w, 0);
        }
      }
    }

    method Insert(key: K, value: V, w: nat) returns (evicted: nat)
      requires Sound() && w <= U32_MAX
      modifies this
      ensures Sound()
      ensures P.WellFormed(old(Abs())) && Abs() == P.Insert(old(Abs()), key, value, w, capacity, ghostCap)
      ensures evicted == P.SatSub(|P.Admit(old(Abs()), key, value, w, capacity).items|, |Abs().items|)
      ensures key in Abs().items ==> Abs().items[key].value == value && Abs().items[key].weight == w
      ensures forall k :: k in Abs().items && k != key ==> k in old(Abs()).items && Abs().items[k].value == old(Abs()).items[k].value
    {
      hide Valid, Abs, P.EvictAll;
      ValidIsWellFormed();
      P.InsertHolds(Abs(), key, value, w, capacity, ghostCap);
      Admit(key, value, w);
      EntryCount();
      var before := |entries|;
      EvictWhileOver();
      EntryCount();
      evicted := P.SatSub(before, |entries|);
    }

    method Remove(key: K)
      requires Sound()
      modifies this
      ensures Sound() && Abs() == P.Remove(old(Abs()), key)
      ensures Abs().items == old(Abs()).items - {key} && key !in Abs().ghosts.weights
    {
      hide LiveKeys, P.Weight, OrderedSlots, LiveSlot, P.Without, Items;
      forall q
        ensures LiveKeys(Queues().Of(q), entries - {key}, q) == P.Without(LiveOf(q), key)
      {
        LiveWithout(Queues().Of(q), entries, q, key);
      }
      ItemsWithout(key);
      if key in entries {
        EntryItem(entries, key);
        P.WeightSplit(Items(entries), key);
        weight := P.SatSub(weight, entries[key].weight);
      } else {
        assert entries - {key} == entries;
      }
      entries := entries - {key};
      if key in ghostWeights {
        ghostWeight := P.SatSub(ghostWeight, ghostWeights[key]);
        ghostWeights := ghostWeights - {key};
      }
    }

    lemma ItemsWithout(k: K)
      ensures Items(entries - {k}) == Items(entries) - {k}
    {
    }

    method Contains(key: K) returns (r: bool)
      ensures r == (key in Abs().items)
    {
      r := key in entries;
    }

    lemma EmptyQueues(p: P.Policy<K, V>)
      requires P.WellFormed(p)
      ensures p.items == map[] <==> p.small == [] && p.medium == [] && p.large == []
    {
      if p.small != [] {
        assert p.small[0] in p.items;
      } else if p.medium != [] {
        assert p.medium[0] in p.items;
      } else if p.large != [] {
        assert p.large[0] in p.items;
      }
    }

    lemma EntryItem(m: map<K, Entry<V>>, k: K)
      requires k in m
      ensures k in Items(m) && Items(m)[k] == P.Item(m[k].value, m[k].weight, m[k].freq)
    {
    }
    /** A queue without live slots belongs to no entry. */
    lemma NoneLive(q: Queue)
      requires Valid() && LiveKeys(Queues().Of(q), entries, q) == []
      ensures Queues().With(q, []).Ordered(nextSlot) && Slotted(entries, Queues().With(q, []), nextSlot)
      ensures LiveKeys([], entries, q) == []
    {
      forall k | k in entries
        ensures entries[k].queue != q
      {
        LiveMember(Queues().Of(q), entries, q, k);
      }
      forall x
        ensures OrderedSlots(Queues().With(q, []).Of(x), nextSlot)
      {
        assert OrderedSlots(Queues().Of(x), nextSlot);
      }
    }
  }
  // ---------------------------------------------------------------------------
  // Whole runs
  // ---------------------------------------------------------------------------

  datatype Op<K, V> = GetOp(k: K) | InsertOp(k: K, v: V, w: nat) | RemoveOp(k: K)

  /** What was inserted last for each key and not removed since. */
  ghost function Latest<K(!new), V>(start: map<K, V>, ops: seq<Op<K, V>>): (m: map<K, V>)
  {
    if ops == [] then start else
      var before := Latest(start, ops[..|ops| - 1]);
      match ops[|ops| - 1]
      case GetOp(_) => before
      case InsertOp(k, v, _) => before[k := v]
      case RemoveOp(k) => before - {k}
  }

  ghost function Values<K(!new), V>(p: P.Policy<K, V>): (m: map<K, V>)
  {
    map k | k in p.items :: p.items[k].value
  }

  /** Every resident entry holds what was inserted last. */
  ghost predicate Coherent<K(!new), V>(p: P.Policy<K, V>, latest: map<K, V>)
  {
    forall k :: k in p.items ==> k in latest && p.items[k].value == latest[k]
  }

  lemma LatestStep<K(!new), V>(start: map<K, V>, ops: seq<Op<K, V>>, i: nat)
    requires i < |ops|
    ensures var before := Latest(start, ops[..i]);
            Latest(start, ops[..i + 1]) ==
            match ops[i] case GetOp(_) => before case InsertOp(k, v, _) => before[k := v] case RemoveOp(k) => before - {k}
  {
    assert ops[..i + 1][..i] == ops[..i];
  }

  /**
   Over every run of reads, inserts and removals the weight stays within capacity, and a hit
   answers with the value inserted last and not removed since, never with an older one.
   */
  method Drive<K(==, !new), V>(cache: S3Inner<K, V>, ops: seq<Op<K, V>>) returns (answers: seq<Option<V>>)
    requires cache.Sound() && forall i :: 0 <= i < |ops| && ops[i].InsertOp? ==> ops[i].w <= U32_MAX
    modifies cache
    ensures cache.Sound() && |answers| == |ops|
    ensures forall i :: 0 <= i < |ops| && ops[i].GetOp? && answers[i].Some? ==>
              var latest := Latest(old(Values(cache.Abs())), ops[..i]); ops[i].k in latest && answers[i].value == latest[ops[i].k]
    ensures Coherent(cache.Abs(), Latest(old(Values(cache.Abs())), ops))
  {
    hide P.Insert, P.Remove, P.Get, P.WellFormed, S3Inner.Sound, S3Inner.Abs, Latest;
    ghost var start := Values(cache.Abs());
    answers := [];
    assert ops[..0] == [];
    LatestNone(start, ops[..0]);
    for i := 0 to |ops|
      invariant cache.Sound() && |answers| == i
      invariant Coherent(cache.Abs(), Latest(start, ops[..i]))
      invariant forall j :: 0 <= j < i && ops[j].GetOp? && answers[j].Some? ==>
                  var latest := Latest(start, ops[..j]); ops[j].k in latest && answers[j].value == latest[ops[j].k]
    {
      LatestStep(start, ops, i);
      var answer := None;
      match ops[i] {
        case GetOp(k) => answer := cache.Get(k);
        case InsertOp(k, v, w) => var _ := cache.Insert(k, v, w);
        case RemoveOp(k) => cache.Remove(k);
      }
      answers := answers + [answer];
    }
    assert ops[..|ops|] == ops;
  }

  lemma LatestNone<K(!new), V>(start: map<K, V>, ops: seq<Op<K, V>>)
    requires ops == []
    ensures Latest(start, ops) == start
  {
  }
}

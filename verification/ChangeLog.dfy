/**
 The change log of the B-tree store: events of standalone writes and of transactions
 (`src/store/btree.rs`), their sequence numbers and the retained window
 (`src/store/hooks.rs`). Each write, each transaction call and each commit is one step.
 Validators and watcher channels are left out.
 */
module ChangeLog {
  import opened Keys
  import opened Wrappers
  import opened Merge
  import opened Overlay

  const HISTORY_CAPACITY: nat := 1024

  /** A set when `now` is present, a delete otherwise. */
  datatype Event = Event(key: Key, was: Option<Value>, now: Option<Value>, number: nat)

  function Lookup(m: map<Key, Value>, k: Key): (v: Option<Value>)
  {
    if k in m then Some(m[k]) else None
  }

  function Applied(m: map<Key, Value>, e: Event): (r: map<Key, Value>)
  {
    if e.now.Some? then m[e.key := e.now.value] else m - {e.key}
  }

  /** The map after a list of events. */
  function Folded(m: map<Key, Value>, events: seq<Event>): (r: map<Key, Value>)
  {
    if events == [] then m else Applied(Folded(m, events[..|events| - 1]), events[|events| - 1])
  }

  lemma {:induction false} FoldedConcat(m: map<Key, Value>, a: seq<Event>, b: seq<Event>)
    ensures Folded(m, a + b) == Folded(Folded(m, a), b)
    decreases |b|
  {
    if b == [] {
      assert a + b == a;
    } else {
      FoldedConcat(m, a, b[..|b| - 1]);
      assert (a + b)[..|a + b| - 1] == a + b[..|b| - 1];
    }
  }

  ghost predicate Numbered(log: seq<Event>)
  {
    forall i :: 0 <= i < |log| ==> log[i].number == i
  }

  /** The retained window of the log. */
  function Retained(log: seq<Event>): (h: seq<Event>)
  {
    if |log| <= HISTORY_CAPACITY then log else log[|log| - HISTORY_CAPACITY..]
  }

  /** The event with number `i` was published and left the window. */
  ghost predicate Dropped(log: seq<Event>, i: int)
  {
    0 <= i < |log| - HISTORY_CAPACITY
  }

  // ---------------------------------------------------------------------------
  // Staging in a transaction
  // ---------------------------------------------------------------------------

  /** A later event on a key takes the place of the earlier one and keeps its old value. */
  function Staged(staged: seq<Event>, e: Event): (r: seq<Event>)
  {
    if staged == [] then [e]
    else if staged[0].key == e.key then [e.(was := staged[0].was)] + staged[1..]
    else [staged[0]] + Staged(staged[1..], e)
  }

  ghost predicate DistinctKeys(events: seq<Event>)
  {
    forall i, j :: 0 <= i < j < |events| ==> events[i].key != events[j].key
  }

  /** The staged event on a key, if any. */
  ghost function EventOn(events: seq<Event>, k: Key): (e: Option<Event>)
  {
    if events == [] then None else if events[0].key == k then Some(events[0]) else EventOn(events[1..], k)
  }

  lemma {:induction false} EventOnIs(events: seq<Event>, i: nat)
    requires DistinctKeys(events) && i < |events|
    ensures EventOn(events, events[i].key) == Some(events[i])
  {
    if i > 0 {
      EventOnIs(events[1..], i - 1);
    }
  }

  lemma {:induction false} EventOnNone(events: seq<Event>, k: Key)
    ensures EventOn(events, k).None? <==> forall i :: 0 <= i < |events| ==> events[i].key != k
  {
    if events != [] {
      EventOnNone(events[1..], k);
      assert forall i :: 0 <= i < |events[1..]| ==> events[1..][i] == events[i + 1];
      assert forall i :: 0 < i < |events| ==> events[i] == events[1..][i - 1];
    }
  }

  lemma {:induction false} StagedOn(staged: seq<Event>, e: Event, k: Key)
    ensures EventOn(Staged(staged, e), k) ==
            if k != e.key then EventOn(staged, k)
            else if EventOn(staged, k).None? then Some(e)
            else Some(e.(was := EventOn(staged, k).value.was))
  {
    if staged != [] && staged[0].key != e.key {
      StagedOn(staged[1..], e, k);
    }
  }

  lemma {:induction false} StagedDistinct(staged: seq<Event>, e: Event)
    requires DistinctKeys(staged)
    ensures DistinctKeys(Staged(staged, e))
    ensures forall x :: x in Staged(staged, e) ==> x.key == e.key || x in staged
    decreases |staged|
  {
    if staged != [] && staged[0].key != e.key {
      StagedDistinct(staged[1..], e);
      var rest := Staged(staged[1..], e);
      forall j | 0 <= j < |rest|
        ensures rest[j].key != staged[0].key
      {
        assert rest[j] in rest;
        assert rest[j] in staged[1..] ==> exists i :: 0 < i < |staged| && staged[i] == rest[j];
      }
    }
  }

  function StagedAll(events: seq<Event>): (r: seq<Event>)
  {
    if events == [] then [] else Staged(StagedAll(events[..|events| - 1]), events[|events| - 1])
  }

  ghost function FirstOn(events: seq<Event>, k: Key): (e: Option<Event>)
  {
    if events == [] then None else
      var before := FirstOn(events[..|events| - 1], k);
      if before.Some? then before else if events[|events| - 1].key == k then Some(events[|events| - 1]) else None
  }

  ghost function LastOn(events: seq<Event>, k: Key): (e: Option<Event>)
  {
    if events == [] then None
    else if events[|events| - 1].key == k then Some(events[|events| - 1])
    else LastOn(events[..|events| - 1], k)
  }

  /**
   Whatever a transaction does, it publishes one event for each key it touched: the old
   value is the one its first write on the key saw, the new value that of its last.
   */
  lemma {:induction false} CollapseKeepsEnds(events: seq<Event>, k: Key)
    ensures DistinctKeys(StagedAll(events))
    ensures FirstOn(events, k).Some? <==> LastOn(events, k).Some?
    ensures EventOn(StagedAll(events), k) ==
            if FirstOn(events, k).None? then None
            else Some(LastOn(events, k).value.(was := FirstOn(events, k).value.was))
    decreases |events|
  {
    if events != [] {
      var n := |events| - 1;
      CollapseKeepsEnds(events[..n], k);
      StagedDistinct(StagedAll(events[..n]), events[n]);
      StagedOn(StagedAll(events[..n]), events[n], k);
    }
  }

  // ---------------------------------------------------------------------------
  // Transactions
  // ---------------------------------------------------------------------------

  datatype Tx = Tx(overlay: Table, staged: seq<Event>)

  /** The overlay and the staged events say the same. */
  ghost predicate TxFits(tx: Tx)
  {
    && DistinctKeys(tx.staged)
    && forall k :: (if k in tx.overlay then Some(tx.overlay[k]) else None) ==
                   (if EventOn(tx.staged, k).Some? then Some(EventOn(tx.staged, k).value.now) else None)
  }

  function TxGet(m: map<Key, Value>, tx: Tx, k: Key): (v: Option<Value>)
  {
    if k in tx.overlay then tx.overlay[k] else Lookup(m, k)
  }

  /** A transaction reads the store with its own writes on top. */
  lemma TxGetIs(m: map<Key, Value>, tx: Tx, k: Key)
    ensures TxGet(m, tx, k) == Lookup(Overlaid(m, tx.overlay), k)
  {
  }

  function TxWrite(m: map<Key, Value>, tx: Tx, k: Key, v: Option<Value>): (r: Tx)
  {
    Tx(tx.overlay[k := v], Staged(tx.staged, Event(k, TxGet(m, tx, k), v, 0)))
  }

  /** A write shows in what the transaction sees. */
  lemma WriteShows(m: map<Key, Value>, tx: Tx, k: Key, v: Option<Value>)
    ensures var seen := Overlaid(m, tx.overlay);
            Overlaid(m, TxWrite(m, tx, k, v).overlay) == if v.Some? then seen[k := v.value] else seen - {k}
  {
  }

  lemma WriteFits(m: map<Key, Value>, tx: Tx, k: Key, v: Option<Value>)
    requires TxFits(tx)
    ensures TxFits(TxWrite(m, tx, k, v))
  {
    var e := Event(k, TxGet(m, tx, k), v, 0);
    StagedDistinct(tx.staged, e);
    var r := TxWrite(m, tx, k, v);
    hide Staged, EventOn, DistinctKeys;
    forall j
      ensures (if j in r.overlay then Some(r.overlay[j]) else None) ==
              (if EventOn(r.staged, j).Some? then Some(EventOn(r.staged, j).value.now) else None)
    {
      StagedOn(tx.staged, e, j);
    }
  }

  /** A write of a transaction and the store contents it is made against. */
  datatype Write = Write(m: map<Key, Value>, k: Key, v: Option<Value>)

  function TxRun(writes: seq<Write>): (tx: Tx)
  {
    if writes == [] then Tx(map[], []) else
      var w := writes[|writes| - 1];
      TxWrite(w.m, TxRun(writes[..|writes| - 1]), w.k, w.v)
  }

  /**
   However other commits interleave with a transaction, the event it publishes for a key
   none of them touched carries the value from before the transaction.
   */
  lemma {:induction false} PreTransactionValue(writes: seq<Write>, k: Key, v: Option<Value>)
    requires forall i :: 0 <= i < |writes| ==> Lookup(writes[i].m, k) == v
    ensures TxFits(TxRun(writes))
    ensures var e := EventOn(TxRun(writes).staged, k);
            && (e.Some? <==> exists i :: 0 <= i < |writes| && writes[i].k == k)
            && (e.Some? ==> e.value.was == v)
    decreases |writes|
  {
    hide Staged, DistinctKeys;
    if writes != [] {
      var n := |writes| - 1;
      var w, tx := writes[n], TxRun(writes[..n]);
      PreTransactionValue(writes[..n], k, v);
      hide EventOn;
      WriteFits(w.m, tx, w.k, w.v);
      StagedOn(tx.staged, Event(w.k, TxGet(w.m, tx, w.k), w.v, 0), k);
      assert forall i :: 0 <= i < n ==> writes[..n][i] == writes[i];
    } else {
      NoEvents();
    }
  }

  /** Write `i` is the last on `k`, or there is none and `i` is the number of writes. */
  ghost predicate LastWrite(writes: seq<Write>, k: Key, i: nat)
  {
    if i < |writes| then
      writes[i].k == k && forall j :: i < j < |writes| ==> writes[j].k != k
    else
      i == |writes| && forall j :: 0 <= j < |writes| ==> writes[j].k != k
  }

  /**
   However other commits interleave with a transaction, it reads back its own last write of
   a key, a deletion too, and the store as it is now for a key it did not write.
   */
  lemma {:induction false} ReadsOwnWrites(writes: seq<Write>, now: map<Key, Value>, k: Key, i: nat)
    requires LastWrite(writes, k, i)
    ensures TxGet(now, TxRun(writes), k) == if i < |writes| then writes[i].v else Lookup(now, k)
    decreases |writes|
  {
    hide Staged;
    if writes != [] {
      var n := |writes| - 1;
      if writes[n].k != k {
        assert writes[..n] + [writes[n]] == writes;
        ReadsOwnWrites(writes[..n], now, k, if i < n then i else n);
      }
    }
  }

  lemma NoEvents()
    ensures TxFits(Tx(map[], []))
  {
  }

  lemma {:induction false} FoldDistinct(m: map<Key, Value>, events: seq<Event>, k: Key)
    requires DistinctKeys(events)
    ensures Lookup(Folded(m, events), k) == if EventOn(events, k).Some? then EventOn(events, k).value.now else Lookup(m, k)
    decreases |events|
  {
    if events != [] {
      var e := events[0];
      assert events == [e] + events[1..];
      FoldedConcat(m, [e], events[1..]);
      assert [e][..0] == [];
      FoldDistinct(Applied(m, e), events[1..], k);
      if e.key == k {
        EventOnNone(events[1..], k);
        assert forall i :: 0 <= i < |events[1..]| ==> events[1..][i] == events[i + 1];
      }
    }
  }

  /** Publishing the staged events is applying the overlay. */
  lemma CommitFolds(m: map<Key, Value>, tx: Tx)
    requires TxFits(tx)
    ensures Folded(m, tx.staged) == Overlaid(m, tx.overlay)
  {
    var a, b := Folded(m, tx.staged), Overlaid(m, tx.overlay);
    hide Folded, EventOn, DistinctKeys;
    forall k
      ensures Lookup(a, k) == Lookup(b, k)
    {
      FoldDistinct(m, tx.staged, k);
    }
    assert forall k :: k in a <==> Lookup(a, k).Some?;
    assert forall k :: k in b <==> Lookup(b, k).Some?;
  }

  // ---------------------------------------------------------------------------
  // The store
  // ---------------------------------------------------------------------------

  class BTreeStore {
    var m: map<Key, Value>
    var txs: map<nat, Tx>
    var nextNumber: nat
    var history: seq<Event>
    /** The contents at the start, and every event ever published. */
    ghost const base: map<Key, Value>
    ghost var log: seq<Event>

    /** Folding the log gives the map, and the history is its window. */
    ghost predicate Valid()
      reads this
    {
      && nextNumber == |log| && Numbered(log) && history == Retained(log)
      && Folded(base, log) == m
      && forall t :: t in txs ==> TxFits(txs[t])
    }

    constructor (m: map<Key, Value>)
      ensures Valid() && this.m == base == m && log == [] && txs == map[]
    {
      this.m, base, txs := m, m, map[];
      nextNumber, history, log := 0, [], [];
    }

    /** Numbers an event and keeps it, dropping the oldest beyond the capacity. */
    method Notify(event: Event)
      requires nextNumber == |log| && Numbered(log) && history == Retained(log)
      modifies this`nextNumber, this`history, this`log
      ensures nextNumber == |log| && Numbered(log) && history == Retained(log)
      ensures log == old(log) + [event.(number := old(nextNumber))]
      ensures |log| <= 1024 ==> history == log
      ensures |log| > 1024 ==> history == log[|log| - 1024..]
    {
      var e := event.(number := nextNumber);
      nextNumber := nextNumber + 1;
      history := history + [e];
      log := log + [e];
      while |history| > HISTORY_CAPACITY
        invariant log == old(log) + [e] && nextNumber == |log|
        invariant |history| >= HISTORY_CAPACITY || history == log
        invariant |history| <= |log| && history == log[|log| - |history|..]
      {
        history := history[1..];
      }
    }

    method SetBytes(k: Key, v: Value) returns (prev: Option<Value>)
      requires Valid()
      modifies this`m, this`nextNumber, this`history, this`log
      ensures Valid() && m == old(m)[k := v] && prev == Lookup(old(m), k)
      ensures log == old(log) + [Event(k, prev, Some(v), |old(log)|)]
    {
      prev := Lookup(m, k);
      m := m[k := v];
      Notify(Event(k, prev, Some(v), 0));
      assert log[..|log| - 1] == old(log);
    }

    method Delete(k: Key) returns (removed: bool)
      requires Valid()
      modifies this`m, this`nextNumber, this`history, this`log
      ensures Valid() && m == old(m) - {k} && removed == (k in old(m))
      ensures log == if removed then old(log) + [Event(k, Lookup(old(m), k), None, |old(log)|)] else old(log)
    {
      var prev := Lookup(m, k);
      removed := k in m;
      m := m - {k};
      if removed {
        Notify(Event(k, prev, None, 0));
        assert log[..|log| - 1] == old(log);
      }
    }

    method Begin(t: nat)
      requires Valid()
      modifies this`txs
      ensures Valid() && txs == old(txs)[t := Tx(map[], [])]
    {
      txs := txs[t := Tx(map[], [])];
    }

    method TxSet(t: nat, k: Key, v: Value) returns (prev: Option<Value>)
      requires Valid() && t in txs
      modifies this`txs
      ensures Valid() && txs == old(txs)[t := TxWrite(m, old(txs)[t], k, Some(v))]
      ensures prev == Lookup(Overlaid(m, old(txs)[t].overlay), k)
      ensures Overlaid(m, txs[t].overlay) == Overlaid(m, old(txs)[t].overlay)[k := v]
    {
      hide TxFits, TxWrite;
      prev := TxGet(m, txs[t], k);
      TxGetIs(m, txs[t], k);
      WriteShows(m, txs[t], k, Some(v));
      WriteFits(m, txs[t], k, Some(v));
      txs := txs[t := TxWrite(m, txs[t], k, Some(v))];
    }

    method TxDelete(t: nat, k: Key) returns (existed: bool)
      requires Valid() && t in txs
      modifies this`txs
      ensures Valid() && existed == (k in Overlaid(m, old(txs)[t].overlay))
      ensures t in txs && Overlaid(m, txs[t].overlay) == Overlaid(m, old(txs)[t].overlay) - {k}
      ensures txs == if existed then old(txs)[t := TxWrite(m, old(txs)[t], k, None)] else old(txs)
    {
      hide TxFits, TxWrite;
      existed := TxGet(m, txs[t], k).Some?;
      TxGetIs(m, txs[t], k);
      if existed {
        WriteShows(m, txs[t], k, None);
        WriteFits(m, txs[t], k, None);
        txs := txs[t := TxWrite(m, txs[t], k, None)];
      }
    }

    /** Applies the overlay, then publishes one event for each touched key. */
    method Commit(t: nat)
      requires Valid() && t in txs
      modifies this`m, this`txs, this`nextNumber, this`history, this`log
      ensures Valid() && txs == old(txs) - {t}
      ensures m == Overlaid(old(m), old(txs)[t].overlay)
      ensures Published(old(log), old(txs)[t].staged, log)
    {
      hide TxFits, Folded, DistinctKeys, Retained, Numbered, Overlaid;
      var tx := txs[t];
      txs := txs - {t};
      CommitFolds(m, tx);
      m := ApplyTable(m, tx.overlay);
      PublishAll(tx.staged, old(m));
    }

    method PublishAll(staged: seq<Event>, ghost start: map<Key, Value>)
      requires nextNumber == |log| && Numbered(log) && history == Retained(log) && Folded(base, log) == start
      modifies this`nextNumber, this`history, this`log
      ensures nextNumber == |log| && Numbered(log) && history == Retained(log)
      ensures Published(old(log), staged, log) && Folded(base, log) == Folded(start, staged)
    {
      hide Folded, Numbered, Retained;
      FoldedNothing(start, log);
      assert staged[..0] == [];
      for i := 0 to |staged|
        invariant nextNumber == |log| && Numbered(log) && history == Retained(log)
        invariant Published(old(log), staged[..i], log)
        invariant Folded(base, log) == Folded(start, staged[..i])
      {
        ghost var was := log;
        Notify(staged[i]);
        assert log[..|was|] == was && log[..|was| + 1] == log;
        FoldedSnoc(base, log, |was|);
        FoldedSnoc(start, staged, i);
      }
      assert staged[..|staged|] == staged;
    }

    method Rollback(t: nat)
      requires Valid()
      modifies this`txs
      ensures Valid() && txs == old(txs) - {t}
    {
      txs := txs - {t};
    }

    /**
     The events after number `s`: refused exactly when one of them left the window, and
     otherwise all of them.
     */
    method EventsSince(s: nat) returns (r: Option<seq<Event>>)
      requires Valid()
      ensures r.None? <==> exists i :: s < i && Dropped(log, i)
      ensures r.None? <==> s + 1 < |log| - 1024
      ensures r.Some? ==> r.value == if s + 1 <= |log| then log[s + 1..] else []
    {
      if s >= nextNumber {
        return Some([]);
      }
      if history == [] {
        return None;
      }
      var first := history[0].number;
      assert first == |log| - |history|;
      if s + 1 < first {
        assert Dropped(log, s + 1);
        return None;
      }
      var events := [];
      for i := 0 to |history|
        invariant events == if first + i <= s + 1 then [] else log[s + 1..first + i]
      {
        assert history[i] == log[first + i];
        if history[i].number > s {
          events := events + [history[i]];
        }
      }
      return Some(events);
    }
  }

  ghost predicate Published(before: seq<Event>, staged: seq<Event>, log: seq<Event>)
  {
    && |log| == |before| + |staged| && log[..|before|] == before
    && forall i :: 0 <= i < |staged| ==> log[|before| + i] == staged[i].(number := |before| + i)
  }

  lemma FoldedNothing(m: map<Key, Value>, log: seq<Event>)
    ensures Folded(m, []) == m && log[..|log|] == log
  {
  }

  /** The number of an event does not matter to the fold. */
  lemma FoldedSnoc(m: map<Key, Value>, events: seq<Event>, i: nat)
    requires i < |events|
    ensures forall n :: Folded(m, events[..i + 1]) == Applied(Folded(m, events[..i]), events[i].(number := n))
  {
    assert events[..i + 1][..i] == events[..i];
  }

  /**
   Read your writes: set, set and delete of one key in one transaction, then commit. The
   second set reports the first value, the delete reports the key, and the key is gone.
   */
  method ReadYourWrites(store: BTreeStore, t: nat, k: Key, v: Value, u: Value)
    returns (first: Option<Value>, second: Option<Value>, existed: bool)
    requires store.Valid() && t !in store.txs
    modifies store
    ensures store.Valid() && first == Lookup(old(store.m), k) && second == Some(v) && existed
    ensures store.m == old(store.m) - {k}
  {
    hide Folded, Retained, Numbered, TxFits, TxWrite, Overlaid, BTreeStore.Valid;
    store.Begin(t);
    OverlaidEmpty(store.m);
    first := store.TxSet(t, k, v);
    second := store.TxSet(t, k, u);
    existed := store.TxDelete(t, k);
    store.Commit(t);
  }

  lemma OverlaidEmpty(m: map<Key, Value>)
    ensures Overlaid(m, map[]) == m
  {
  }

  // ---------------------------------------------------------------------------
  // Followers
  // ---------------------------------------------------------------------------

  /** A follower at event `s` is brought up to date by the events after it. */
  lemma FollowerCatchesUp(base: map<Key, Value>, log: seq<Event>, s: nat)
    requires s < |log|
    ensures Folded(Folded(base, log[..s + 1]), log[s + 1..]) == Folded(base, log)
  {
    assert log == log[..s + 1] + log[s + 1..];
    FoldedConcat(base, log[..s + 1], log[s + 1..]);
  }

  /**
   A follower that has every event published so far asks for those after a position `p`.
   The reply holds all later events exactly when `p` is the number of an event it has; the
   value of `current_seq` is one too many, and before the first event no position will do.
   */
  lemma PositionThatMissesNothing(log: seq<Event>, have: nat, p: nat)
    requires have < |log| && Numbered(log)
    ensures (forall i :: have <= i < |log| ==> log[i] in (if p + 1 <= |log| then log[p + 1..] else [])) <==> p < have
  {
    var reply := if p + 1 <= |log| then log[p + 1..] else [];
    if p < have {
      forall i | have <= i < |log|
        ensures log[i] in reply
      {
        assert reply[i - p - 1] == log[i];
      }
    } else {
      assert log[have] !in reply;
    }
  }

  /** From any state: a follower that asks from the current number on misses the next event. */
  method NextEventIsMissed(store: BTreeStore, k: Key, v: Value) returns (r: Option<seq<Event>>)
    requires store.Valid()
    modifies store
    ensures |store.log| == |old(store.log)| + 1 && store.log[|old(store.log)|].key == k
    ensures r == Some([])
  {
    hide Folded, Retained, Numbered, TxFits;
    var current := store.nextNumber;
    var _ := store.SetBytes(k, v);
    r := store.EventsSince(current);
    NoneDropped(store.log, current);
  }

  lemma NoneDropped(log: seq<Event>, s: nat)
    requires s + 1 >= |log|
    ensures !exists i :: s < i && Dropped(log, i)
  {
  }

  /** After the first event of a store no position is answered with it. */
  method FirstEventIsMissed(k: Key, v: Value, p: nat) returns (store: BTreeStore, r: Option<seq<Event>>)
    ensures fresh(store) && store.log == [Event(k, None, Some(v), 0)] && r == Some([])
  {
    hide Folded, Retained, Numbered, TxFits;
    store := new BTreeStore(map[]);
    var _ := store.SetBytes(k, v);
    r := store.EventsSince(p);
    NoneDropped(store.log, p);
  }

  // ---------------------------------------------------------------------------
  // Whole runs
  // ---------------------------------------------------------------------------

  datatype Op =
    | SetOp(k: Key, v: Value)
    | DeleteOp(k: Key)
    | BeginOp(t: nat)
    | TxSetOp(t: nat, k: Key, v: Value)
    | TxDeleteOp(t: nat, k: Key)
    | CommitOp(t: nat)
    | RollbackOp(t: nat)

  /**
   After any run of standalone writes and of any number of interleaved transactions, the
   published events fold to the contents, and those after `s`, when still retained, bring
   a follower at `s` up to date.
   */
  method Drive(store: BTreeStore, ops: seq<Op>, s: nat) returns (r: Option<seq<Event>>)
    requires store.Valid()
    modifies store
    ensures store.Valid() && old(store.log) <= store.log && Folded(store.base, store.log) == store.m
    ensures r.None? <==> exists i :: s < i && Dropped(store.log, i)
    ensures r.Some? && s < |store.log| ==> Folded(Folded(store.base, store.log[..s + 1]), r.value) == store.m
  {
    hide Folded, Retained, Numbered, TxFits;
    for i := 0 to |ops|
      invariant store.Valid() && old(store.log) <= store.log
    {
      match ops[i]
      case SetOp(k, v) => var _ := store.SetBytes(k, v);
      case DeleteOp(k) => var _ := store.Delete(k);
      case BeginOp(t) => store.Begin(t);
      case TxSetOp(t, k, v) =>
        if t in store.txs {
          var _ := store.TxSet(t, k, v);
        }
      case TxDeleteOp(t, k) =>
        if t in store.txs {
          var _ := store.TxDelete(t, k);
        }
      case CommitOp(t) =>
        if t in store.txs {
          store.Commit(t);
        }
      case RollbackOp(t) => store.Rollback(t);
    }
    r := store.EventsSince(s);
    if s < |store.log| {
      FollowerCatchesUp(store.base, store.log, s);
    }
  }
}

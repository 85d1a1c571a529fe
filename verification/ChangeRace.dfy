/**
 Racing writers of the B-tree store (`src/store/btree.rs`, `notify` in
 `src/store/hooks.rs`): a write changes the map under the map lock, draws its number under
 the subscriber lock, and enters the history under that lock taken again. Other writers may
 come in between any two of these.
 */
module ChangeRace {
  import opened Keys
  import opened Wrappers
  import opened Rows
  import opened Merge
  import opened Writer
  import opened Replays
  import opened ChangeLog

  /** An event in the history: which write it tells of, and its number. */
  datatype Entry = Entry(write: nat, number: nat)

  /** `writes` are the changes in the order they reached the map, `entered` the history without its capacity. */
  datatype Race = Race(
    writes: seq<Event>,
    m: map<Key, Value>,
    undrawn: set<nat>,
    drawn: map<nat, nat>,
    next: nat,
    entered: seq<Entry>)

  /** `Change` is a set, a delete, or the keys of a transaction that commits. */
  datatype Move = Change(events: seq<Event>) | Draw(w: nat) | Enter(w: nat)

  predicate Possible(s: Race, move: Move)
  {
    match move
    case Change(_) => true
    case Draw(w) => w in s.undrawn
    case Enter(w) => w in s.drawn
  }

  function Fresh(lo: nat, hi: nat): (s: set<nat>)
    requires lo <= hi
    ensures forall i :: i in s <==> InSpan(i, lo, hi)
  {
    IdsMembers(lo, hi);
    set i | i in Ids(lo, hi)
  }

  function Moved(s: Race, move: Move): (r: Race)
    requires Possible(s, move)
  {
    match move
    case Change(events) =>
      s.(writes := s.writes + events, m := Folded(s.m, events),
         undrawn := s.undrawn + Fresh(|s.writes|, |s.writes + events|))
    case Draw(w) => s.(undrawn := s.undrawn - {w}, drawn := s.drawn[w := s.next], next := s.next + 1)
    case Enter(w) => s.(drawn := s.drawn - {w}, entered := s.entered + [Entry(w, s.drawn[w])])
  }

  const QUIET: Race := Race([], map[], {}, map[], 0, [])

  ghost predicate Runs(s: Race, moves: seq<Move>, t: Race)
    decreases |moves|
  {
    if moves == [] then s == t else Possible(s, moves[0]) && Runs(Moved(s, moves[0]), moves[1..], t)
  }

  // ---------------------------------------------------------------------------
  // What every move keeps
  // ---------------------------------------------------------------------------

  /** The map is the fold of the writes, and every write is waiting for a number, for its entry, or entered. */
  ghost predicate Inv(s: Race)
  {
    && s.m == Folded(map[], s.writes)
    && (forall i :: 0 <= i < |s.entered| ==> s.entered[i].write < |s.writes|)
    && (forall w :: w in s.undrawn || w in s.drawn ==> w < |s.writes|)
    && (forall w :: InSpan(w, 0, |s.writes|) ==> w in s.undrawn || w in s.drawn || Has(s.entered, w))
  }

  ghost predicate Has(entered: seq<Entry>, w: nat)
  {
    exists i :: 0 <= i < |entered| && entered[i].write == w
  }

  lemma MoveKeepsInv(s: Race, move: Move)
    requires Inv(s) && Possible(s, move)
    ensures Inv(Moved(s, move))
  {
    hide Folded;
    var r := Moved(s, move);
    match move
    case Change(events) => FoldedConcat(map[], s.writes, events);
    case Draw(_) =>
    case Enter(w) =>
      assert r.entered[|s.entered|].write == w;
      forall u | Has(s.entered, u)
        ensures Has(r.entered, u)
      {
        var i :| 0 <= i < |s.entered| && s.entered[i].write == u;
        assert r.entered[i].write == u;
      }
  }

  lemma {:induction false} RunsKeepInv(s: Race, moves: seq<Move>, t: Race)
    requires Inv(s) && Runs(s, moves, t)
    ensures Inv(t)
    decreases |moves|
  {
    hide Inv, Possible, Moved;
    if moves != [] {
      MoveKeepsInv(s, moves[0]);
      RunsKeepInv(Moved(s, moves[0]), moves[1..], t);
    }
  }

  // ---------------------------------------------------------------------------
  // Folding the history
  // ---------------------------------------------------------------------------

  ghost function Order(entered: seq<Entry>): (ids: seq<nat>)
  {
    seq(|entered|, i requires 0 <= i < |entered| => entered[i].write)
  }

  /** The published events, in the order they entered. */
  ghost function Told(s: Race): (events: seq<Event>)
    requires forall i :: 0 <= i < |s.entered| ==> s.entered[i].write < |s.writes|
  {
    seq(|s.entered|, i requires 0 <= i < |s.entered| => s.writes[s.entered[i].write].(number := s.entered[i].number))
  }

  /** Each event as a batch of one operation. */
  ghost function AsRuns(events: seq<Event>): (runs: seq<Run>)
    ensures |runs| == |events|
  {
    seq(|events|, i requires 0 <= i < |events| => [Row(events[i].key, events[i].now)])
  }

  lemma OneOperation(k: Key, v: Slot)
    ensures Last([Row(k, v)]) == map[k := v]
  {
    var ops: Run := [Row(k, v)];
    assert ops[..0] == [];
  }

  lemma {:induction false} FoldIsReplay(events: seq<Event>, k: Key)
    ensures Lookup(Folded(map[], events), k) == Val(Replay(AsRuns(events)), k)
    decreases |events|
  {
    hide Replay, Last;
    if events == [] {
      EmptyReplay();
    } else {
      var n := |events| - 1;
      FoldIsReplay(events[..n], k);
      assert AsRuns(events) == AsRuns(events[..n]) + [AsRuns(events)[n]];
      ReplaySnoc(AsRuns(events[..n]), AsRuns(events)[n]);
      OneOperation(events[n].key, events[n].now);
    }
  }

  /**
   In every run of racing writers: folding the history gives a key the value it has in the
   map if and only if the writes of the key that came after the one entered last, and were
   not entered after it, leave it as that one left it.
   */
  lemma FoldIsRightWhen(moves: seq<Move>, s: Race, k: Key)
    requires Runs(QUIET, moves, s)
    ensures Inv(s) && Known(AsRuns(s.writes), Order(s.entered))
    ensures Lookup(Folded(map[], Told(s)), k) == Lookup(s.m, k) <==> NotOvertaken(AsRuns(s.writes), Order(s.entered), k)
  {
    hide Folded, Replay, NotOvertaken, Runs;
    assert Inv(QUIET) by {
      FoldedNothing(map[], []);
    }
    RunsKeepInv(QUIET, moves, s);
    FoldIsReplay(s.writes, k);
    FoldIsReplay(Told(s), k);
    assert AsRuns(Told(s)) == RunsAt(AsRuns(s.writes), Order(s.entered));
    RightWhenNotOvertaken(AsRuns(s.writes), Order(s.entered), k);
  }

  /** On each key events entered in the order of the writes. */
  ghost predicate InWriteOrder(s: Race)
    requires forall i :: 0 <= i < |s.entered| ==> s.entered[i].write < |s.writes|
  {
    forall i, j :: 0 <= i < j < |s.entered| && s.writes[s.entered[i].write].key == s.writes[s.entered[j].write].key ==>
      s.entered[i].write < s.entered[j].write
  }

  /** Once every event has entered, in write order on each key, the history folds to the map. */
  lemma InOrderFolds(moves: seq<Move>, s: Race, k: Key)
    requires Runs(QUIET, moves, s) && s.undrawn == {} && s.drawn == map[]
    ensures Inv(s)
    ensures InWriteOrder(s) ==> Lookup(Folded(map[], Told(s)), k) == Lookup(s.m, k)
  {
    hide Folded, NotOvertaken, Runs;
    FoldIsRightWhen(moves, s, k);
    if InWriteOrder(s) {
      InOrderNotOvertaken(s, k);
    }
  }

  lemma WritesKey(events: seq<Event>, w: nat, k: Key)
    requires w < |events|
    ensures k in Last(AsRuns(events)[w]) <==> events[w].key == k
  {
    OneOperation(events[w].key, events[w].now);
  }

  lemma InOrderNotOvertaken(s: Race, k: Key)
    requires Inv(s) && s.undrawn == {} && s.drawn == map[] && InWriteOrder(s)
    ensures Known(AsRuns(s.writes), Order(s.entered)) && NotOvertaken(AsRuns(s.writes), Order(s.entered), k)
  {
    hide Folded, Replay, Last, Unseen, LastWriter, AsRuns, RunsAt;
    var log, ids := AsRuns(s.writes), Order(s.entered);
    var p := LastWriter(log, ids, k);
    WriterDecides(log, ids, k);
    var a := if p.Some? then ids[p.value] + 1 else 0;
    forall w | InSpan(w, a, |log|)
      ensures k !in Last(log[w])
    {
      assert InSpan(w, 0, |s.writes|) && Has(s.entered, w);
      var q :| 0 <= q < |s.entered| && s.entered[q].write == w;
      assert ids[q] == w;
      WritesKey(s.writes, w, k);
      if p.Some? && q < p.value {
        WritesKey(s.writes, ids[p.value], k);
      }
    }
    SilentFrom(log, a, k);
    SilentSkipped(log, if p.Some? then ids[p.value + 1..] else ids, a, k);
  }

  lemma {:induction false} RunsMore(s: Race, moves: seq<Move>, t: Race, move: Move)
    requires Runs(s, moves, t) && Possible(t, move)
    ensures Runs(s, moves + [move], Moved(t, move))
    decreases |moves|
  {
    hide Possible, Moved;
    var all := moves + [move];
    if moves == [] {
      assert all[1..] == [];
    } else {
      RunsMore(Moved(s, moves[0]), moves[1..], t, move);
      assert all[1..] == moves[1..] + [move];
    }
  }

  /** Two writers set one key and draw numbers in turn, but the second enters first. */
  lemma SwappedPair(a: Event, b: Event) returns (moves: seq<Move>, s: Race)
    ensures Runs(QUIET, moves, s)
    ensures s.writes == [a, b] && s.m == Folded(map[], [a, b]) && s.entered == [Entry(1, 1), Entry(0, 0)] && s.next == 2
    ensures s.undrawn == {} && s.drawn == map[]
  {
    hide Folded;
    FoldedConcat(map[], [a], [b]);
    assert [a] + [b] == [a, b] && [] + [a] == [a];
    var s1 := Moved(QUIET, Change([a]));
    RunsMore(QUIET, [], QUIET, Change([a]));
    var s2 := Moved(s1, Change([b]));
    RunsMore(QUIET, [] + [Change([a])], s1, Change([b]));
    var s3 := Moved(s2, Draw(0));
    RunsMore(QUIET, [] + [Change([a])] + [Change([b])], s2, Draw(0));
    var s4 := Moved(s3, Draw(1));
    moves := [] + [Change([a])] + [Change([b])] + [Draw(0)];
    RunsMore(QUIET, moves, s3, Draw(1));
    moves, s := Swapped(moves + [Draw(1)], s4);
  }

  lemma Swapped(before: seq<Move>, s4: Race) returns (moves: seq<Move>, s: Race)
    requires Runs(QUIET, before, s4) && s4.drawn == map[0 := 0, 1 := 1] && s4.entered == []
    ensures Runs(QUIET, moves, s) && s == s4.(drawn := map[], entered := [Entry(1, 1), Entry(0, 0)])
  {
    hide Runs;
    var s5 := Moved(s4, Enter(1));
    RunsMore(QUIET, before, s4, Enter(1));
    s := Moved(s5, Enter(0));
    moves := before + [Enter(1)] + [Enter(0)];
    RunsMore(QUIET, before + [Enter(1)], s5, Enter(0));
  }

  /** Such a run: the history folds to the first value, the map holds the second. */
  lemma RacingWritersDisagree(k: Key, v: Value, u: Value) returns (moves: seq<Move>, s: Race)
    requires v != u
    ensures Runs(QUIET, moves, s) && |s.writes| == 2 && s.entered == [Entry(1, 1), Entry(0, 0)]
    ensures Lookup(s.m, k) == Some(u) && Lookup(Folded(map[], Told(s)), k) == Some(v)
  {
    var a, b := Event(k, None, Some(v), 0), Event(k, Some(v), Some(u), 0);
    moves, s := SwappedPair(a, b);
    assert [a, b][..1] == [a] && [a][..0] == [];
    var told := Told(s);
    assert told == [b.(number := 1), a.(number := 0)];
    assert told[..1] == [b.(number := 1)] && told[..1][..0] == [];
  }

  // ---------------------------------------------------------------------------
  // The window
  // ---------------------------------------------------------------------------

  function Kept(entered: seq<Entry>): (h: seq<Entry>)
  {
    if |entered| <= HISTORY_CAPACITY then entered else entered[|entered| - HISTORY_CAPACITY..]
  }

  function Above(entries: seq<Entry>, q: nat): (r: seq<Entry>)
    ensures forall e :: e in r <==> e in entries && e.number > q
  {
    if entries == [] then [] else
      (if entries[0].number > q then [entries[0]] else []) + Above(entries[1..], q)
  }

  /** `events_since` over the history. */
  function Since(s: Race, q: nat): (r: Option<seq<Entry>>)
  {
    var h := Kept(s.entered);
    if q >= s.next then Some([])
    else if h == [] || q + 1 < h[0].number then None
    else Some(Above(h, q))
  }

  /** An event above `q` entered and left the window. */
  ghost predicate LostAbove(s: Race, q: nat)
  {
    exists i :: 0 <= i < |s.entered| - HISTORY_CAPACITY && s.entered[i].number > q
  }

  /** Numbers are drawn once and below the next one. */
  ghost predicate NumbersDiffer(s: Race)
  {
    && (forall i :: 0 <= i < |s.entered| ==> s.entered[i].number < s.next)
    && (forall w :: w in s.drawn ==> s.drawn[w] < s.next)
    && (forall i, w :: 0 <= i < |s.entered| && w in s.drawn ==> s.entered[i].number != s.drawn[w])
    && (forall w, u :: w in s.drawn && u in s.drawn && w != u ==> s.drawn[w] != s.drawn[u])
    && (forall i, j :: 0 <= i < j < |s.entered| ==> s.entered[i].number != s.entered[j].number)
  }

  lemma {:induction false} RunsKeepNumbers(s: Race, moves: seq<Move>, t: Race)
    requires NumbersDiffer(s) && Runs(s, moves, t)
    ensures NumbersDiffer(t)
    decreases |moves|
  {
    hide Folded;
    if moves != [] {
      RunsKeepNumbers(Moved(s, moves[0]), moves[1..], t);
    }
  }

  /**
   In every run a reply holds all events entered so far above its position exactly when none
   of them left the window. Whether it is refused depends on the number at the front alone.
   */
  lemma ReplyIsWholeWhen(moves: seq<Move>, s: Race, q: nat)
    requires Runs(QUIET, moves, s)
    ensures Since(s, q).Some? ==>
              ((forall i :: 0 <= i < |s.entered| && s.entered[i].number > q ==> s.entered[i] in Since(s, q).value) <==>
               !LostAbove(s, q))
    ensures Since(s, q).None? <==> q < s.next && (s.entered == [] || q + 1 < Kept(s.entered)[0].number)
  {
    RunsKeepNumbers(QUIET, moves, s);
    hide Runs;
    var h, n := Kept(s.entered), |s.entered| - HISTORY_CAPACITY;
    forall i | 0 <= i < |s.entered|
      ensures s.entered[i] in h <==> n <= i
    {
      if n <= i {
        assert h[if n > 0 then i - n else i] == s.entered[i];
      }
    }
  }

  /** When events enter by number, a reply is refused exactly when one of its events was lost. */
  lemma InNumberOrder(s: Race, q: nat)
    requires s.next == |s.entered| && forall i :: 0 <= i < |s.entered| ==> s.entered[i].number == i
    ensures Since(s, q).None? <==> LostAbove(s, q)
  {
    var n := |s.entered| - HISTORY_CAPACITY;
    if n > 0 {
      assert Kept(s.entered)[0] == s.entered[n];
      if q + 1 < n {
        assert s.entered[q + 1].number > q;
      }
    }
  }

  /** More writes, each entered before the next. */
  lemma {:induction false} QuietWrites(before: seq<Move>, s: Race, e: Event, n: nat) returns (moves: seq<Move>, t: Race)
    requires Runs(QUIET, before, s) && s.undrawn == {} && s.drawn == map[]
    ensures Runs(QUIET, moves, t) && t.undrawn == {} && t.drawn == map[] && t.next == s.next + n
    ensures |t.entered| == |s.entered| + n && t.entered[..|s.entered|] == s.entered
    decreases n
  {
    hide Runs, Folded;
    if n == 0 {
      moves, t := before, s;
      assert t.entered[..|s.entered|] == s.entered;
    } else {
      var more, u := QuietWrites(before, s, e, n - 1);
      moves, t := QuietWrite(more, u, e);
      assert t.entered[..|s.entered|] == u.entered[..|s.entered|];
    }
  }

  lemma QuietWrite(before: seq<Move>, s: Race, e: Event) returns (moves: seq<Move>, t: Race)
    requires Runs(QUIET, before, s) && s.undrawn == {} && s.drawn == map[]
    ensures Runs(QUIET, moves, t) && t.undrawn == {} && t.drawn == map[] && t.next == s.next + 1
    ensures t.entered == s.entered + [Entry(|s.writes|, s.next)]
  {
    hide Runs, Folded;
    var w := |s.writes|;
    var s1 := Moved(s, Change([e]));
    RunsMore(QUIET, before, s, Change([e]));
    assert s1.undrawn == {w};
    var s2 := Moved(s1, Draw(w));
    RunsMore(QUIET, before + [Change([e])], s1, Draw(w));
    t := Moved(s2, Enter(w));
    moves := before + [Change([e])] + [Draw(w)] + [Enter(w)];
    RunsMore(QUIET, before + [Change([e])] + [Draw(w)], s2, Enter(w));
  }

  /** A swapped pair at the end of the window: event 1 is lost, and the reply to position 0 does not say so. */
  lemma SilentGap(e: Event) returns (moves: seq<Move>, s: Race)
    ensures Runs(QUIET, moves, s) && s.undrawn == {} && s.drawn == map[]
    ensures Entry(1, 1) in s.entered && Since(s, 0).Some? && Entry(1, 1) !in Since(s, 0).value
  {
    hide Folded;
    var before, pair := SwappedPair(e, e);
    moves, s := QuietWrites(before, pair, e, HISTORY_CAPACITY - 1);
    RunsKeepNumbers(QUIET, moves, s);
    hide Runs;
    var h := Kept(s.entered);
    assert s.entered[0] == s.entered[..2][0] && s.entered[1] == s.entered[..2][1];
    assert h[0] == s.entered[1];
    forall i | 0 <= i < |h|
      ensures h[i].number != 1
    {
      assert h[i] == s.entered[i + 1];
    }
  }
}

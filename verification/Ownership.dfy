/**
 Ownership epochs (`acquire_ownership` in `src/store/lsm/ownership.rs`): any number of
 sessions read the ownership record and then claim the next epoch by compare-and-swap, in
 any interleaving.
 */
module Ownership {
  import opened Wrappers
  import opened Storage

  const OWNERSHIP: Path := "ownership.json"

  const U64_MAX: nat := 0xFFFF_FFFF_FFFF_FFFF

  datatype Record = Record(epoch: nat, owner: string)

  datatype Pc = Idle | Looked(seen: Option<Object<Record>>) | Owner(epoch: nat) | Fenced

  datatype Session = Session(name: string, pc: Pc)

  /** A successful claim: who made it, and the object it stored. */
  datatype Grant = Grant(id: nat, stored: Object<Record>)

  datatype System = System(bucket: Bucket<Record>, sessions: map<nat, Session>, grants: seq<Grant>)

  datatype Step = Open(id: nat, name: string) | Look(id: nat) | Claim(id: nat) | Elsewhere(q: Request<Record>)

  predicate Enabled(s: System, step: Step)
  {
    match step
    case Open(id, _) => id !in s.sessions
    case Look(id) => id in s.sessions && s.sessions[id].pc.Idle?
    case Claim(id) => id in s.sessions && s.sessions[id].pc.Looked?
    case Elsewhere(q) => q.path != OWNERSHIP
  }

  /** The epoch a claim asks for; it saturates. */
  function NextEpoch(seen: Option<Object<Record>>): (e: nat)
  {
    if seen.None? then 1 else if seen.value.bytes.epoch >= U64_MAX then U64_MAX else seen.value.bytes.epoch + 1
  }

  function ModeOf(seen: Option<Object<Record>>): (mode: PutMode)
  {
    if seen.None? then Create else Update(Some(seen.value.etag), Some(seen.value.version))
  }

  function At(s: System, id: nat, pc: Pc): (r: System)
    requires id in s.sessions
  {
    s.(sessions := s.sessions[id := s.sessions[id].(pc := pc)])
  }

  function Stored(s: System): (o: Option<Object<Record>>)
  {
    if OWNERSHIP in s.bucket.objects then Some(s.bucket.objects[OWNERSHIP]) else None
  }

  function After(s: System, step: Step): (r: System)
    requires Enabled(s, step)
  {
    match step
    case Open(id, name) => s.(sessions := s.sessions[id := Session(name, Idle)])
    case Look(id) => At(s, id, Looked(Stored(s)))
    case Claim(id) =>
      var seen := s.sessions[id].pc.seen;
      if Accepts(s.bucket, OWNERSHIP, ModeOf(seen)) then
        var b := Put(s.bucket, OWNERSHIP, Record(NextEpoch(seen), s.sessions[id].name));
        At(s.(bucket := b, grants := s.grants + [Grant(id, b.objects[OWNERSHIP])]), id, Owner(NextEpoch(seen)))
      else
        At(s, id, Fenced)
    case Elsewhere(q) => s.(bucket := Served(s.bucket, q))
  }

  // ---------------------------------------------------------------------------
  // What every step keeps
  // ---------------------------------------------------------------------------

  /** The epoch of the n-th grant, counting from zero. */
  function EpochOf(n: nat): (e: nat)
  {
    if n + 1 <= U64_MAX then n + 1 else U64_MAX
  }

  ghost predicate GrantsTagged(s: System)
  {
    && Tagged(s.bucket)
    && (forall i :: 0 <= i < |s.grants| ==>
          s.grants[i].stored.etag == Etag(s.grants[i].stored.version) && s.grants[i].stored.version <= s.bucket.writes)
    && (forall i, j :: 0 <= i < j < |s.grants| ==> s.grants[i].stored.version < s.grants[j].stored.version)
  }

  ghost predicate LastStored(s: System)
  {
    Stored(s) == if s.grants == [] then None else Some(s.grants[|s.grants| - 1].stored)
  }

  ghost predicate EpochsCount(s: System)
  {
    forall i :: 0 <= i < |s.grants| ==> s.grants[i].stored.bytes.epoch == EpochOf(i)
  }

  /** Every session that looked saw a record some grant stored. */
  ghost predicate Seen(s: System)
  {
    forall id :: id in s.sessions && s.sessions[id].pc.Looked? && s.sessions[id].pc.seen.Some? ==>
      exists i :: 0 <= i < |s.grants| && s.grants[i].stored == s.sessions[id].pc.seen.value
  }

  /** A session is an owner through exactly one grant, under its own name. */
  ghost predicate Owners(s: System)
  {
    && (forall i :: 0 <= i < |s.grants| ==>
          var g := s.grants[i];
          g.id in s.sessions && s.sessions[g.id] == Session(g.stored.bytes.owner, Owner(g.stored.bytes.epoch)))
    && (forall id :: id in s.sessions && s.sessions[id].pc.Owner? ==> exists i :: 0 <= i < |s.grants| && s.grants[i].id == id)
    && (forall i, j :: 0 <= i < j < |s.grants| ==> s.grants[i].id != s.grants[j].id)
  }

  ghost predicate Inv(s: System)
  {
    GrantsTagged(s) && LastStored(s) && EpochsCount(s) && Seen(s) && Owners(s)
  }

  /** A claim succeeds exactly when no other claim succeeded since the session looked. */
  lemma ClaimMeansCurrent(s: System, id: nat)
    requires GrantsTagged(s) && LastStored(s) && Seen(s) && Enabled(s, Claim(id))
    ensures Accepts(s.bucket, OWNERSHIP, ModeOf(s.sessions[id].pc.seen)) <==> s.sessions[id].pc.seen == Stored(s)
  {
    hide Etag;
    var seen := s.sessions[id].pc.seen;
    if seen.Some? && s.grants != [] {
      var i :| 0 <= i < |s.grants| && s.grants[i].stored == seen.value;
      EtagInjective(s.grants[i].stored.version, s.grants[|s.grants| - 1].stored.version);
    }
  }

  lemma ClaimKeepsGrants(s: System, id: nat)
    requires GrantsTagged(s) && LastStored(s) && EpochsCount(s) && Enabled(s, Claim(id)) && s.sessions[id].pc.seen == Stored(s)
    ensures var r := After(s, Claim(id)); GrantsTagged(r) && LastStored(r) && EpochsCount(r)
  {
    hide Etag;
  }

  lemma ClaimKeepsSeen(s: System, id: nat)
    requires Seen(s) && Enabled(s, Claim(id))
    ensures Seen(After(s, Claim(id)))
  {
    hide Etag, Accepts, Put;
    var r := After(s, Claim(id));
    forall u | u in r.sessions && r.sessions[u].pc.Looked? && r.sessions[u].pc.seen.Some?
      ensures exists i :: 0 <= i < |r.grants| && r.grants[i].stored == r.sessions[u].pc.seen.value
    {
      var i :| 0 <= i < |s.grants| && s.grants[i].stored == s.sessions[u].pc.seen.value;
      assert r.grants[i] == s.grants[i];
    }
  }

  lemma ClaimKeepsOwners(s: System, id: nat)
    requires Owners(s) && Enabled(s, Claim(id))
    ensures Owners(After(s, Claim(id)))
  {
    hide Etag, Accepts, ModeOf;
    var r := After(s, Claim(id));
    assert forall i :: 0 <= i < |s.grants| ==> s.grants[i].id != id;
    forall u | u in r.sessions && r.sessions[u].pc.Owner?
      ensures exists i :: 0 <= i < |r.grants| && r.grants[i].id == u
    {
      if u == id {
        assert r.grants[|s.grants|].id == id;
      } else {
        var i :| 0 <= i < |s.grants| && s.grants[i].id == u;
        assert r.grants[i].id == u;
      }
    }
  }

  lemma StepKeepsInv(s: System, step: Step)
    requires Inv(s) && Enabled(s, step)
    ensures Inv(After(s, step))
  {
    match step
    case Claim(id) => ClaimKeepsInv(s, id);
    case Elsewhere(q) => ElsewhereKeepsInv(s, q);
    case Open(id, name) => OpenKeepsInv(s, id, name);
    case Look(id) => LookKeepsInv(s, id);
  }

  lemma ClaimKeepsInv(s: System, id: nat)
    requires Inv(s) && Enabled(s, Claim(id))
    ensures Inv(After(s, Claim(id)))
  {
    hide Etag, Seen, Owners, GrantsTagged, EpochsCount, LastStored, Accepts, ModeOf, Put, At;
    ClaimMeansCurrent(s, id);
    ClaimKeepsSeen(s, id);
    ClaimKeepsOwners(s, id);
    if s.sessions[id].pc.seen == Stored(s) {
      ClaimKeepsGrants(s, id);
    } else {
      LostClaim(s, id);
    }
  }

  /** A claim that loses changes no record. */
  lemma LostClaim(s: System, id: nat)
    requires GrantsTagged(s) && EpochsCount(s) && LastStored(s) && Enabled(s, Claim(id))
    requires !Accepts(s.bucket, OWNERSHIP, ModeOf(s.sessions[id].pc.seen))
    ensures var r := After(s, Claim(id)); GrantsTagged(r) && EpochsCount(r) && LastStored(r)
  {
    hide Etag, GrantsTagged, EpochsCount, Accepts, ModeOf, Put;
    SameGrants(s, After(s, Claim(id)));
  }

  lemma SameGrants(s: System, r: System)
    requires GrantsTagged(s) && EpochsCount(s) && r.bucket == s.bucket && r.grants == s.grants
    ensures GrantsTagged(r) && EpochsCount(r)
  {
    hide Etag, Tagged;
  }

  lemma ElsewhereKeepsInv(s: System, q: Request<Record>)
    requires Inv(s) && Enabled(s, Elsewhere(q))
    ensures Inv(After(s, Elsewhere(q)))
  {
    hide Etag, Tagged, Accepts;
    ServedKeepsTagged(s.bucket, q);
  }

  lemma OpenKeepsInv(s: System, id: nat, name: string)
    requires Inv(s) && Enabled(s, Open(id, name))
    ensures Inv(After(s, Open(id, name)))
  {
    hide Etag, Tagged, GrantsTagged, EpochsCount, LastStored, Seen, Owners;
    SameGrants(s, After(s, Open(id, name)));
    SameLast(s, After(s, Open(id, name)));
    NewcomerSeen(s, id, Session(name, Idle));
    NewcomerOwners(s, id, Session(name, Idle));
  }

  lemma SameLast(s: System, r: System)
    requires LastStored(s) && r.bucket == s.bucket && r.grants == s.grants
    ensures LastStored(r)
  {
  }

  /** A session that has neither looked nor claimed changes nothing about the others. */
  lemma NewcomerSeen(s: System, id: nat, x: Session)
    requires Seen(s) && !x.pc.Looked?
    ensures Seen(s.(sessions := s.sessions[id := x]))
  {
    var r := s.(sessions := s.sessions[id := x]);
    forall u | u in r.sessions && r.sessions[u].pc.Looked? && r.sessions[u].pc.seen.Some?
      ensures exists i :: 0 <= i < |r.grants| && r.grants[i].stored == r.sessions[u].pc.seen.value
    {
      assert u != id && s.sessions[u] == r.sessions[u];
    }
  }

  lemma NewcomerOwners(s: System, id: nat, x: Session)
    requires Owners(s) && !x.pc.Owner? && (id in s.sessions ==> !s.sessions[id].pc.Owner?)
    ensures Owners(s.(sessions := s.sessions[id := x]))
  {
    var r := s.(sessions := s.sessions[id := x]);
    forall i | 0 <= i < |r.grants|
      ensures r.grants[i].id in r.sessions &&
              r.sessions[r.grants[i].id] == Session(r.grants[i].stored.bytes.owner, Owner(r.grants[i].stored.bytes.epoch))
    {
      assert s.grants[i].id != id;
    }
    forall u | u in r.sessions && r.sessions[u].pc.Owner?
      ensures exists i :: 0 <= i < |r.grants| && r.grants[i].id == u
    {
      assert u != id && s.sessions[u].pc.Owner?;
    }
  }

  lemma LookKeepsInv(s: System, id: nat)
    requires Inv(s) && Enabled(s, Look(id))
    ensures Inv(After(s, Look(id)))
  {
    var x := s.sessions[id].(pc := Looked(Stored(s)));
    var r := After(s, Look(id));
    SameGrants(s, r);
    hide Etag, Tagged, GrantsTagged, EpochsCount;
    assert Owners(r) by {
      hide Seen;
      NewcomerOwners(s, id, x);
    }
    hide Owners;
    forall u | u in r.sessions && r.sessions[u].pc.Looked? && r.sessions[u].pc.seen.Some?
      ensures exists i :: 0 <= i < |r.grants| && r.grants[i].stored == r.sessions[u].pc.seen.value
    {
      if u == id {
        assert r.grants[|r.grants| - 1].stored == r.sessions[u].pc.seen.value;
      } else {
        assert s.sessions[u] == r.sessions[u];
      }
    }
  }

  // ---------------------------------------------------------------------------
  // Whole runs
  // ---------------------------------------------------------------------------

  const NOTHING: System := System(Bucket(map[], 0), map[], [])

  ghost predicate Reaches(s: System, steps: seq<Step>, t: System)
    decreases |steps|
  {
    if steps == [] then s == t else Enabled(s, steps[0]) && Reaches(After(s, steps[0]), steps[1..], t)
  }

  lemma {:induction false} RunsKeepInv(s: System, steps: seq<Step>, t: System)
    requires Inv(s) && Reaches(s, steps, t)
    ensures Inv(t)
    decreases |steps|
  {
    hide Inv, Enabled, After;
    if steps != [] {
      StepKeepsInv(s, steps[0]);
      RunsKeepInv(After(s, steps[0]), steps[1..], t);
    }
  }

  /**
   In every interleaving, successful claims get the epochs 1, 2, 3 and so on in the order
   of their swaps. Until the counter is used up an owner's epoch is the stored one exactly
   when its claim was the last.
   */
  lemma EpochsFence(steps: seq<Step>, s: System)
    requires Reaches(NOTHING, steps, s)
    ensures EpochsCount(s) && Owners(s) && LastStored(s)
    ensures |s.grants| <= U64_MAX ==>
              forall id :: id in s.sessions && s.sessions[id].pc.Owner? ==>
                (s.sessions[id].pc.epoch == Stored(s).value.bytes.epoch <==> id == s.grants[|s.grants| - 1].id)
  {
    RunsKeepInv(NOTHING, steps, s);
    if |s.grants| <= U64_MAX {
      forall id | id in s.sessions && s.sessions[id].pc.Owner?
        ensures s.sessions[id].pc.epoch == Stored(s).value.bytes.epoch <==> id == s.grants[|s.grants| - 1].id
      {
        LastOwner(s, id);
      }
    }
  }

  lemma LastOwner(s: System, id: nat)
    requires Inv(s) && id in s.sessions && s.sessions[id].pc.Owner? && |s.grants| <= U64_MAX
    ensures s.grants != []
    ensures s.sessions[id].pc.epoch == Stored(s).value.bytes.epoch <==> id == s.grants[|s.grants| - 1].id
  {
    var i :| 0 <= i < |s.grants| && s.grants[i].id == id;
    assert s.grants[i].stored.bytes.epoch == EpochOf(i);
    assert s.grants[|s.grants| - 1].stored.bytes.epoch == EpochOf(|s.grants| - 1);
    if id == s.grants[|s.grants| - 1].id {
      assert i == |s.grants| - 1;
    }
  }

  /** The last two owners share an epoch exactly when the counter is used up. */
  lemma SharedWhenSaturated(s: System)
    requires Inv(s) && |s.grants| >= 2
    ensures var n := |s.grants|;
            s.sessions[s.grants[n - 2].id].pc.epoch == s.sessions[s.grants[n - 1].id].pc.epoch <==> n > U64_MAX
  {
    var n := |s.grants|;
    assert s.grants[n - 2].stored.bytes.epoch == EpochOf(n - 2);
    assert s.grants[n - 1].stored.bytes.epoch == EpochOf(n - 1);
  }

  lemma {:induction false} ReachesMore(s: System, steps: seq<Step>, t: System, step: Step)
    requires Reaches(s, steps, t) && Enabled(t, step)
    ensures Reaches(s, steps + [step], After(t, step))
    decreases |steps|
  {
    hide Enabled, After;
    var all := steps + [step];
    if steps == [] {
      assert all[1..] == [];
    } else {
      ReachesMore(After(s, steps[0]), steps[1..], t, step);
      assert all[1..] == steps[1..] + [step];
    }
  }

  /** One more session opens, looks and claims. */
  lemma OneMoreGrant(steps: seq<Step>, s: System, id: nat) returns (more: seq<Step>, r: System)
    requires Reaches(NOTHING, steps, s) && id !in s.sessions
    ensures Reaches(NOTHING, more, r) && |r.grants| == |s.grants| + 1 && r.sessions.Keys == s.sessions.Keys + {id}
  {
    var entered := After(s, Open(id, ""));
    var looked := After(entered, Look(id));
    r := After(looked, Claim(id));
    more := steps + [Open(id, "")] + [Look(id)] + [Claim(id)];
    ReachesMore(NOTHING, steps, s, Open(id, ""));
    ReachesMore(NOTHING, steps + [Open(id, "")], entered, Look(id));
    ReachesMore(NOTHING, steps + [Open(id, "")] + [Look(id)], looked, Claim(id));
    hide Reaches, Etag;
  }

  /** Runs with any number of grants. */
  lemma {:induction false} GrantsReachable(n: nat) returns (steps: seq<Step>, s: System)
    ensures Reaches(NOTHING, steps, s) && |s.grants| == n && forall id :: id in s.sessions ==> id < n
  {
    hide After, Enabled;
    if n == 0 {
      steps, s := [], NOTHING;
    } else {
      var before, t := GrantsReachable(n - 1);
      steps, s := OneMoreGrant(before, t, n - 1);
    }
  }

  /** A run after which two sessions hold the stored epoch. */
  lemma TwoOwnersReached() returns (steps: seq<Step>, s: System, a: nat, b: nat)
    ensures Reaches(NOTHING, steps, s) && a in s.sessions && b in s.sessions && a != b
    ensures Stored(s).Some? && s.sessions[a].pc == s.sessions[b].pc == Owner(Stored(s).value.bytes.epoch)
  {
    hide Reaches, Etag;
    steps, s := GrantsReachable(U64_MAX + 1);
    EpochsFence(steps, s);
    var n := |s.grants|;
    a, b := s.grants[n - 2].id, s.grants[n - 1].id;
    assert s.grants[n - 2].stored.bytes.epoch == EpochOf(n - 2);
    assert s.grants[n - 1].stored.bytes.epoch == EpochOf(n - 1);
  }
}

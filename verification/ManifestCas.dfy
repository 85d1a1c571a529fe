/**
 The manifest protocol (`src/store/lsm/manifest.rs`) over the in-memory object store: any
 number of tasks on any number of clients load the manifest through their client's cache,
 publish what they read in any order, and replace it by compare-and-swap. Each I/O call
 and each brief lock is one step. Time enters only as the choice whether a cached entry is
 still fresh. JSON encoding is left out: the object holds the manifest itself.
 */
module ManifestCas {
  import opened Wrappers
  import opened Storage

  const MANIFEST: Path := "manifest.json"

  const WRAP: nat := 0x1_0000_0000_0000_0000

  /** A 64-bit counter. */
  function Wrapped(n: nat): (v: nat)
    ensures v < WRAP
  {
    n % WRAP
  }

  datatype Manifest = Manifest(version: nat, epoch: nat, wal: seq<string>, sst: seq<string>)

  function Empty(epoch: nat): (m: Manifest)
  {
    Manifest(0, epoch, [], [])
  }

  /** A manifest with the tag it was read under; the tag is empty when there was no object. */
  datatype Pair = Pair(manifest: Manifest, etag: string)

  datatype Pc = Idle | Polling(held: Pair) | Reading | Publishing(got: Pair) | Ready(got: Pair) | Clearing

  datatype Task = Task(client: nat, epoch: nat, pc: Pc)

  /** A manifest that was stored, the write that stored it, and the manifest it was derived from. */
  datatype Entry = Entry(pair: Pair, number: nat, base: Manifest)

  datatype System = System(
    bucket: Bucket<Manifest>,
    caches: map<nat, Pair>,
    tasks: map<nat, Task>,
    log: seq<Entry>)

  datatype Step =
    | Start(t: nat, client: nat, epoch: nat)
    | Snapshot(t: nat, isFresh: bool, skip: bool)
    | Poll(t: nat)
    | Read(t: nat)
    | Publish(t: nat)
    | Swap(t: nat, next: Manifest)
    | Clear(client: nat)
    | Elsewhere(q: Request<Manifest>)

  predicate Enabled(s: System, step: Step)
  {
    match step
    case Start(t, _, _) => t in s.tasks ==> s.tasks[t].pc.Idle? || s.tasks[t].pc.Ready?
    case Snapshot(t, _, _) => t in s.tasks && s.tasks[t].pc.Idle?
    case Poll(t) => t in s.tasks && s.tasks[t].pc.Polling?
    case Read(t) => t in s.tasks && s.tasks[t].pc.Reading?
    case Publish(t) => t in s.tasks && (s.tasks[t].pc.Publishing? || s.tasks[t].pc.Clearing?)
    case Swap(t, next) =>
      t in s.tasks && s.tasks[t].pc.Ready? && next.version == Wrapped(s.tasks[t].pc.got.manifest.version + 1)
    case Clear(_) => true
    case Elsewhere(q) => q.path != MANIFEST
  }

  /** What an unconditional read returns. */
  function Stored(s: System, epoch: nat): (p: Pair)
  {
    if MANIFEST in s.bucket.objects then Pair(s.bucket.objects[MANIFEST].bytes, s.bucket.objects[MANIFEST].etag)
    else Pair(Empty(epoch), "")
  }

  function ModeOf(p: Pair): (mode: PutMode)
  {
    if p.etag == "" then Create else Update(Some(p.etag), None)
  }

  function At(s: System, t: nat, pc: Pc): (r: System)
    requires t in s.tasks
  {
    s.(tasks := s.tasks[t := s.tasks[t].(pc := pc)])
  }

  function After(s: System, step: Step): (r: System)
    requires Enabled(s, step)
  {
    match step
    case Start(t, client, epoch) => s.(tasks := s.tasks[t := Task(client, epoch, Idle)])
    case Snapshot(t, isFresh, skip) =>
      var c := s.tasks[t].client;
      if c in s.caches && isFresh then At(s, t, if skip then Ready(s.caches[c]) else Polling(s.caches[c]))
      else At(s, t, Reading)
    case Poll(t) =>
      var now := Stored(s, s.tasks[t].epoch);
      if MANIFEST in s.bucket.objects && now.etag == s.tasks[t].pc.held.etag then At(s, t, Ready(s.tasks[t].pc.held))
      else At(s, t, Publishing(now))
    case Read(t) => At(s, t, Publishing(Stored(s, s.tasks[t].epoch)))
    case Publish(t) =>
      var c := s.tasks[t].client;
      if s.tasks[t].pc.Clearing? then At(s.(caches := s.caches - {c}), t, Idle)
      else At(s.(caches := s.caches[c := s.tasks[t].pc.got]), t, Ready(s.tasks[t].pc.got))
    case Swap(t, next) =>
      var p := s.tasks[t].pc.got;
      if Accepts(s.bucket, MANIFEST, ModeOf(p)) then
        var b := Put(s.bucket, MANIFEST, next);
        var q := Pair(next, Etag(b.writes));
        At(s.(bucket := b, log := s.log + [Entry(q, b.writes, p.manifest)]), t, Publishing(q))
      else
        At(s, t, Clearing)
    case Clear(client) => s.(caches := s.caches - {client})
    case Elsewhere(q) => s.(bucket := Served(s.bucket, q))
  }

  // ---------------------------------------------------------------------------
  // What every step keeps
  // ---------------------------------------------------------------------------

  /** The pair was really stored at some time, or is the empty manifest of a missing object. */
  ghost predicate Real(log: seq<Entry>, p: Pair)
  {
    (p.etag == "" && p.manifest == Empty(p.manifest.epoch)) || exists i :: 0 <= i < |log| && log[i].pair == p
  }

  ghost predicate PcReal(log: seq<Entry>, pc: Pc)
  {
    match pc
    case Polling(p) => Real(log, p)
    case Publishing(p) => Real(log, p)
    case Ready(p) => Real(log, p)
    case _ => true
  }

  /** Writes are numbered upwards and their tags spell the numbers. */
  ghost predicate LogTagged(s: System)
  {
    && Tagged(s.bucket)
    && (forall i :: 0 <= i < |s.log| ==> s.log[i].pair.etag == Etag(s.log[i].number) && s.log[i].number <= s.bucket.writes)
    && (forall i, j :: 0 <= i < j < |s.log| ==> s.log[i].number < s.log[j].number)
  }

  /** The object is the last one logged. */
  ghost predicate LogCurrent(s: System)
  {
    if s.log == [] then MANIFEST !in s.bucket.objects else
      var e := s.log[|s.log| - 1];
      MANIFEST in s.bucket.objects && s.bucket.objects[MANIFEST] == Object(e.pair.manifest, e.pair.etag, e.number)
  }

  /** Each stored manifest derives from its immediate predecessor, the first from the empty one. */
  ghost predicate Chain(log: seq<Entry>)
  {
    && (forall i :: 0 <= i < |log| ==> log[i].pair.manifest.version == Wrapped(i + 1))
    && (log != [] ==> log[0].base == Empty(log[0].base.epoch))
    && (forall i, j :: 0 <= i < |log| && j == i + 1 < |log| ==> log[j].base == log[i].pair.manifest)
  }

  ghost predicate AllReal(s: System)
  {
    && (forall c :: c in s.caches ==> Real(s.log, s.caches[c]))
    && (forall t :: t in s.tasks ==> PcReal(s.log, s.tasks[t].pc))
  }

  ghost predicate Inv(s: System)
  {
    LogTagged(s) && LogCurrent(s) && Chain(s.log) && AllReal(s)
  }

  /** A swap succeeds exactly when the pair it was computed from is the one now stored. */
  lemma SwapMeansCurrent(s: System, p: Pair)
    requires LogTagged(s) && LogCurrent(s) && Real(s.log, p)
    ensures Accepts(s.bucket, MANIFEST, ModeOf(p)) <==> if s.log == [] then p.etag == "" else p == s.log[|s.log| - 1].pair
  {
    hide Etag;
    if p.etag == "" {
      if s.log != [] {
        EtagInjective(s.log[|s.log| - 1].number, 0);
      }
    } else {
      var i :| 0 <= i < |s.log| && s.log[i].pair == p;
      EtagInjective(s.log[i].number, s.log[|s.log| - 1].number);
    }
  }

  lemma RealGrows(log: seq<Entry>, e: Entry)
    ensures forall p :: Real(log, p) ==> Real(log + [e], p)
    ensures Real(log + [e], e.pair)
  {
    assert (log + [e])[|log|] == e;
    forall p | Real(log, p)
      ensures Real(log + [e], p)
    {
      if i :| 0 <= i < |log| && log[i].pair == p {
        assert (log + [e])[i].pair == p;
      }
    }
  }

  lemma StoredIsReal(s: System, epoch: nat)
    requires LogCurrent(s)
    ensures Real(s.log, Stored(s, epoch))
  {
  }

  lemma SwapKeepsLog(s: System, t: nat, next: Manifest)
    requires Inv(s) && Enabled(s, Swap(t, next)) && Accepts(s.bucket, MANIFEST, ModeOf(s.tasks[t].pc.got))
    ensures var r := After(s, Swap(t, next)); LogTagged(r) && LogCurrent(r) && Chain(r.log)
  {
    hide Etag, Real, Chain, AllReal;
    SwapKeepsChain(s, t, next);
  }

  lemma SwapKeepsChain(s: System, t: nat, next: Manifest)
    requires Inv(s) && Enabled(s, Swap(t, next)) && Accepts(s.bucket, MANIFEST, ModeOf(s.tasks[t].pc.got))
    ensures Chain(After(s, Swap(t, next)).log)
  {
    var p := s.tasks[t].pc.got;
    assert PcReal(s.log, s.tasks[t].pc);
    SwapMeansCurrent(s, p);
    FirstIsEmpty(s.log, p);
    hide Etag, Real, LogTagged, LogCurrent, AllReal, Accepts, ModeOf;
    var e := After(s, Swap(t, next)).log[|s.log|];
    ChainMore(s.log, e, p);
  }

  lemma ChainMore(log: seq<Entry>, e: Entry, p: Pair)
    requires Chain(log) && e.base == p.manifest && e.pair.manifest.version == Wrapped(p.manifest.version + 1)
    requires if log == [] then p.manifest == Empty(p.manifest.epoch) else p == log[|log| - 1].pair
    ensures Chain(log + [e])
  {
    WrapNext(|log|);
    hide Wrapped;
    assert p.manifest.version == Wrapped(|log|);
  }

  lemma WrapNext(n: nat)
    ensures Wrapped(Wrapped(n) + 1) == Wrapped(n + 1) && Wrapped(0) == 0
  {
    assert n == WRAP * (n / WRAP) + n % WRAP;
  }

  lemma FirstIsEmpty(log: seq<Entry>, p: Pair)
    requires Real(log, p)
    ensures log == [] ==> p.manifest == Empty(p.manifest.epoch)
  {
  }

  lemma SwapKeepsReal(s: System, t: nat, next: Manifest)
    requires AllReal(s) && Enabled(s, Swap(t, next)) && Accepts(s.bucket, MANIFEST, ModeOf(s.tasks[t].pc.got))
    ensures AllReal(After(s, Swap(t, next)))
  {
    hide Etag, Real, Put;
    var r := After(s, Swap(t, next));
    RealGrows(s.log, r.log[|s.log|]);
    assert r.log == s.log + [r.log[|s.log|]];
    forall u | u in r.tasks
      ensures PcReal(r.log, r.tasks[u].pc)
    {
      assert u != t ==> PcReal(s.log, s.tasks[u].pc);
    }
  }

  lemma StepKeepsInv(s: System, step: Step)
    requires Inv(s) && Enabled(s, step)
    ensures Inv(After(s, step))
  {
    if step.Swap? && Accepts(s.bucket, MANIFEST, ModeOf(s.tasks[step.t].pc.got)) {
      SwapKeepsLog(s, step.t, step.next);
      SwapKeepsReal(s, step.t, step.next);
    } else if step.Elsewhere? {
      hide Etag;
      ServedKeepsTagged(s.bucket, step.q);
    } else {
      hide Etag, Real, Accepts, Put;
      QuietStep(s, step);
    }
  }

  /** Steps that write nothing. */
  lemma QuietStep(s: System, step: Step)
    requires Inv(s) && Enabled(s, step) && !step.Elsewhere?
    requires step.Swap? ==> !Accepts(s.bucket, MANIFEST, ModeOf(s.tasks[step.t].pc.got))
    ensures Inv(After(s, step))
  {
    hide Etag, Real, Accepts, Put, LogTagged, Chain, Stored;
    var r := After(s, step);
    assert r.bucket == s.bucket && r.log == s.log;
    if step.Poll? || step.Read? {
      StoredIsReal(s, s.tasks[step.t].epoch);
    }
    assert forall t :: t in s.tasks ==> PcReal(s.log, s.tasks[t].pc);
    assert LogTagged(r) by {
      SameLog(s, r);
    }
  }

  lemma SameLog(s: System, r: System)
    requires LogTagged(s) && r.bucket == s.bucket && r.log == s.log
    ensures LogTagged(r)
  {
  }

  // ---------------------------------------------------------------------------
  // Loads are current and progress is possible
  // ---------------------------------------------------------------------------

  /** The object as it is, or the empty manifest of the reading epoch under the empty tag. */
  ghost predicate IsCurrent(s: System, epoch: nat, p: Pair)
  {
    if MANIFEST in s.bucket.objects then p.manifest == s.bucket.objects[MANIFEST].bytes && p.etag == s.bucket.objects[MANIFEST].etag
    else p.manifest == Manifest(0, epoch, [], []) && p.etag == ""
  }

  /** What a poll or a read leaves the task with is what is stored at that moment. */
  lemma LoadIsCurrent(s: System, t: nat)
    requires Inv(s) && t in s.tasks
    ensures s.tasks[t].pc.Reading? ==>
              var pc := After(s, Read(t)).tasks[t].pc;
              pc.Publishing? && IsCurrent(s, s.tasks[t].epoch, pc.got)
    ensures s.tasks[t].pc.Polling? ==>
              var pc := After(s, Poll(t)).tasks[t].pc;
              (pc.Publishing? || pc.Ready?) && IsCurrent(s, s.tasks[t].epoch, pc.got)
  {
    hide Etag;
    if s.tasks[t].pc.Polling? && MANIFEST in s.bucket.objects && s.tasks[t].pc.held.etag == s.bucket.objects[MANIFEST].etag {
      SameTag(s, s.tasks[t].pc.held) by {
        assert PcReal(s.log, s.tasks[t].pc);
      }
    }
  }

  /** A pair that was really stored and carries the stored tag is the stored one. */
  lemma SameTag(s: System, p: Pair)
    requires LogTagged(s) && LogCurrent(s) && Real(s.log, p)
    requires MANIFEST in s.bucket.objects && p.etag == s.bucket.objects[MANIFEST].etag
    ensures p.manifest == s.bucket.objects[MANIFEST].bytes
  {
    hide Etag;
    var last := s.log[|s.log| - 1];
    EtagInjective(last.number, 0);
    var i :| 0 <= i < |s.log| && s.log[i].pair == p;
    EtagInjective(s.log[i].number, last.number);
  }

  /** A task that loads without a fresh entry, or polls, with no other step between. */
  ghost function LoadedAlone(s: System, t: nat, client: nat, epoch: nat, isFresh: bool): (r: System)
    requires Enabled(s, Start(t, client, epoch))
  {
    var snapped := After(After(s, Start(t, client, epoch)), Snapshot(t, isFresh, false));
    var got := if snapped.tasks[t].pc.Polling? then After(snapped, Poll(t)) else After(snapped, Read(t));
    if got.tasks[t].pc.Publishing? then After(got, Publish(t)) else got
  }

  lemma StartKeepsInv(s: System, t: nat, client: nat, epoch: nat, isFresh: bool)
    requires Inv(s) && Enabled(s, Start(t, client, epoch))
    ensures var r := After(After(s, Start(t, client, epoch)), Snapshot(t, isFresh, false));
            && Inv(r) && r.bucket == s.bucket && r.log == s.log
            && t in r.tasks && r.tasks[t].epoch == epoch && (r.tasks[t].pc.Polling? || r.tasks[t].pc.Reading?)
  {
    hide Inv;
    StepKeepsInv(s, Start(t, client, epoch));
    StepKeepsInv(After(s, Start(t, client, epoch)), Snapshot(t, isFresh, false));
  }

  /**
   From every state the protocol keeps: a load that nobody disturbs ends with what is stored,
   and a swap from it is accepted, stores the new manifest and lengthens the log by one.
   */
  lemma AloneSucceeds(s: System, t: nat, client: nat, epoch: nat, isFresh: bool, next: Manifest)
    requires Inv(s) && Enabled(s, Start(t, client, epoch))
    ensures var r := LoadedAlone(s, t, client, epoch, isFresh);
            && r.bucket == s.bucket && r.log == s.log
            && t in r.tasks && r.tasks[t].pc.Ready? && IsCurrent(s, epoch, r.tasks[t].pc.got)
            && client in r.caches && r.caches[client] == r.tasks[t].pc.got
            && (next.version == Wrapped(r.tasks[t].pc.got.manifest.version + 1) ==>
                  && Enabled(r, Swap(t, next))
                  && var u := After(r, Swap(t, next));
                     && |u.log| == |s.log| + 1 && u.log[|s.log|].base == r.tasks[t].pc.got.manifest
                     && MANIFEST in u.bucket.objects && u.bucket.objects[MANIFEST].bytes == next
                     && Enabled(u, Publish(t))
                     && var v := After(u, Publish(t));
                        client in v.caches && IsCurrent(v, epoch, v.caches[client]))
  {
    hide Etag, Inv, Stored, Wrapped;
    StartKeepsInv(s, t, client, epoch, isFresh);
    var snapped := After(After(s, Start(t, client, epoch)), Snapshot(t, isFresh, false));
    LoadIsCurrent(snapped, t);
    var r := LoadedAlone(s, t, client, epoch, isFresh);
    hide LoadedAlone;
    CurrentIsAccepted(s, epoch, r.tasks[t].pc.got);
  }

  /** A swap that loses takes nothing with it but its client's cache entry, so the next load reads the store. */
  lemma LostSwapClears(s: System, t: nat, next: Manifest, isFresh: bool, skip: bool)
    requires Enabled(s, Swap(t, next)) && !Accepts(s.bucket, MANIFEST, ModeOf(s.tasks[t].pc.got))
    ensures var r := After(s, Swap(t, next));
            && r.bucket == s.bucket && r.log == s.log && r.caches == s.caches && Enabled(r, Publish(t))
            && var u := After(r, Publish(t));
               && u.caches == s.caches - {s.tasks[t].client} && Enabled(u, Snapshot(t, isFresh, skip))
               && After(u, Snapshot(t, isFresh, skip)).tasks[t].pc.Reading?
  {
    hide Accepts, ModeOf, Put;
  }

  /** After its cache is cleared a client reads the store. */
  lemma ClearedReads(s: System, t: nat, isFresh: bool, skip: bool)
    requires Enabled(s, Snapshot(t, isFresh, skip))
    ensures var r := After(s, Clear(s.tasks[t].client));
            && r.bucket == s.bucket && r.log == s.log && r.tasks == s.tasks
            && Enabled(r, Snapshot(t, isFresh, skip)) && After(r, Snapshot(t, isFresh, skip)).tasks[t].pc.Reading?
  {
  }

  lemma CurrentIsAccepted(s: System, epoch: nat, p: Pair)
    requires Inv(s) && IsCurrent(s, epoch, p)
    ensures Accepts(s.bucket, MANIFEST, ModeOf(p))
  {
    hide Etag;
    if s.log != [] {
      EtagInjective(s.log[|s.log| - 1].number, 0);
    }
  }

  // ---------------------------------------------------------------------------
  // Whole runs
  // ---------------------------------------------------------------------------

  const NOTHING: System := System(Bucket(map[], 0), map[], map[], [])

  ghost predicate Reaches(s: System, steps: seq<Step>, t: System)
    decreases |steps|
  {
    if steps == [] then s == t else Enabled(s, steps[0]) && Reaches(After(s, steps[0]), steps[1..], t)
  }

  lemma {:induction false} RunsKeepInv(s: System, steps: seq<Step>, t: System)
    requires Inv(s) && Reaches(s, steps, t)
    ensures Inv(t)
    decreases |steps|
  {
    hide Inv, Enabled, After;
    if steps != [] {
      StepKeepsInv(s, steps[0]);
      RunsKeepInv(After(s, steps[0]), steps[1..], t);
    }
  }

  /**
   In every interleaving a cached manifest was really stored or is the empty one, a swap
   from what a task holds succeeds exactly when that is what is stored now, and the stored
   manifests form a chain with consecutive versions.
   */
  lemma RunsAreSafe(steps: seq<Step>, s: System)
    requires Reaches(NOTHING, steps, s)
    ensures forall c :: c in s.caches ==> Real(s.log, s.caches[c])
    ensures forall t :: t in s.tasks && s.tasks[t].pc.Ready? ==>
              (Accepts(s.bucket, MANIFEST, ModeOf(s.tasks[t].pc.got)) <==>
               if s.log == [] then s.tasks[t].pc.got.etag == "" else s.tasks[t].pc.got == s.log[|s.log| - 1].pair)
    ensures Chain(s.log) && LogCurrent(s) && Inv(s)
  {
    assert Inv(NOTHING);
    RunsKeepInv(NOTHING, steps, s);
    forall t | t in s.tasks && s.tasks[t].pc.Ready?
      ensures Accepts(s.bucket, MANIFEST, ModeOf(s.tasks[t].pc.got)) <==>
              if s.log == [] then s.tasks[t].pc.got.etag == "" else s.tasks[t].pc.got == s.log[|s.log| - 1].pair
    {
      assert PcReal(s.log, s.tasks[t].pc);
      SwapMeansCurrent(s, s.tasks[t].pc.got);
    }
  }
}

/**
  Runs of the buffer cache as the kernel makes them: not preemptive, so that between two points where it may
  sleep an activity runs alone, and with the unused buffer that getblk's scan meets first.
 */
module BufferRuns {
  import opened BufferLists
  import opened BufferQueues
  import opened BufferIds
  import opened BufferProtocol
  import opened BufferRing

  const NOBODY := -1

  /** The activity a step belongs to; the disk and beginnings of calls belong to none. */
  function ActOf(l: Label): int {
    if l.Start? || l.WriteBack? || l.Serve? || l.Finish? then NOBODY else l.k
  }

  /** Activity k, having just made a step, sleeps or has returned. */
  predicate Pauses(s: State, k: int) {
    IsAct(s, k) &&
    match s.acts[k]
    case Done => true
    case Want(_) => false
    case Hit(_, b) => IsBuf(s, b) && !s.bufs[b].io.Idle?
    case Cand(_, b) => IsBuf(s, b) && !s.bufs[b].io.Idle?
    case Evict(_, b, i, busy) =>
      IsBuf(s, b) && IsBuf(s, i) && (busy || (s.bufs[i].id.dev == s.bufs[b].id.dev && !s.bufs[i].io.Idle?))
    case Held(_, _) => true
    case Filling(_, _) => true
    case Drop(b) => IsBuf(s, b) && !s.bufs[b].io.Idle?
  }

  /** Who runs after a step: nobody when the activity sleeps or returns. An interrupt changes nothing. */
  function Runner(s': State, running: int, l: Label): int {
    if l.Start? then |s'.acts| - 1
    else if ActOf(l) == NOBODY then running
    else if l.GiveUp? || Pauses(s', l.k) then NOBODY
    else l.k
  }

  predicate MayRun(running: int, l: Label) {
    l.Serve? || l.Finish? || running == NOBODY || (ActOf(l) != NOBODY && running == ActOf(l))
  }

  /** Buffer j of the ring is the first unused one. */
  ghost predicate FirstUnused(s: State, ring: seq<int>, j: int) {
    && RingIs(s, ring) && 0 <= j < |ring| && IsBuf(s, ring[j]) && s.bufs[ring[j]].count == 0
    && forall i :: 0 <= i < j ==> IsBuf(s, ring[i]) && s.bufs[ring[i]].count > 0
  }

  /** The step is the one the code makes, where the protocol leaves a choice. */
  ghost predicate Chosen(s: State, l: Label) {
    && (l.Scan? ==> exists ring, j :: FirstUnused(s, ring, j) && ring[j] == l.b)
    && !l.Rescan?
    && (l.SyncStart? && Enabled(s, l) ==> s.bufs[s.acts[l.k].i].id.dev == s.bufs[s.acts[l.k].b].id.dev)
  }

  /** State s, with `running` running, is reached from s0 by a run of the kernel. */
  ghost predicate Real(s0: State, ls: seq<Label>, s: State, running: int)
    decreases |ls|, 0
  {
    if ls == [] then s == s0 && running == NOBODY else Goes(s0, ls[..|ls| - 1], ls[|ls| - 1], s, running)
  }

  ghost predicate Goes(s0: State, less: seq<Label>, l: Label, s: State, running: int)
    decreases |less|, 1
  {
    exists r, before :: Real(s0, less, before, r) && Step(before, r, l, s, running)
  }

  ghost predicate Step(before: State, r: int, l: Label, s: State, running: int) {
    && Enabled(before, l) && Chosen(before, l) && MayRun(r, l)
    && s == Apply(before, l) && running == Runner(s, r, l)
  }

  ghost predicate Reached(s0: State, s: State, running: int) { exists ls :: Real(s0, ls, s, running) }

  lemma ReachStep(s0: State, s: State, running: int, l: Label, s': State, running': int)
    requires Reached(s0, s, running) && Step(s, running, l, s', running')
    ensures Reached(s0, s', running')
  {
    var ls :| Real(s0, ls, s, running);
    assert (ls + [l])[..|ls + [l]| - 1] == ls;
    assert Goes(s0, ls, l, s', running');
    assert Real(s0, ls + [l], s', running');
  }

  /** Such a run is one of the protocol. */
  lemma {:induction false} RealIsExec(s0: State, ls: seq<Label>, s: State, running: int)
    requires Real(s0, ls, s, running)
    ensures s == Exec(s0, ls)
    decreases |ls|
  {
    if ls != [] {
      var less, l := ls[..|ls| - 1], ls[|ls| - 1];
      var r, before :| Real(s0, less, before, r) && Step(before, r, l, s, running);
      RealIsExec(s0, less, before, r);
    }
  }

  // ------------------------------------------------------------------ steps

  /** Task t calls getblk for a block. */
  function Begun(s: State, t: int, id: Id): State { s.(acts := s.acts + [Want(id)], owner := s.owner + [t]) }

  lemma BeginStep(s: State, t: int, id: Id)
    requires id.dev != 0 && 0 <= t < s.tasks && Free(s, t)
    ensures Step(s, NOBODY, Start(t, id), Begun(s, t, id), |s.acts|)
  {
  }

  /** It is not cached, and buffer b is the one to use. */
  function Candidate(s: State, t: int, id: Id, b: int): State {
    s.(acts := s.acts + [Cand(id, b)], owner := s.owner + [t])
  }

  lemma StillFirst(s: State, s': State, ring: seq<int>, j: int)
    requires FirstUnused(s, ring, j) && s'.f == s.f && s'.links == s.links && s'.bufs == s.bufs
    ensures FirstUnused(s', ring, j)
  {
    FrameRing(s, s', ring);
  }

  lemma ChosenScan(s: State, k: int, ring: seq<int>, j: int)
    requires FirstUnused(s, ring, j)
    ensures Chosen(s, Scan(k, ring[j]))
  {
  }

  lemma ScanStep(s: State, t: int, id: Id, b: int)
    requires !Cached(s, id) && IsBuf(s, b) && s.bufs[b].count == 0 && s.bufs[b].io.Idle?
    requires Chosen(Begun(s, t, id), Scan(|s.acts|, b))
    ensures Step(Begun(s, t, id), |s.acts|, Scan(|s.acts|, b), Candidate(s, t, id, b), |s.acts|)
  {
    ScanApplies(s, t, id, b);
  }

  lemma ScanApplies(s: State, t: int, id: Id, b: int)
    requires !Cached(s, id) && IsBuf(s, b) && s.bufs[b].count == 0 && s.bufs[b].io.Idle?
    ensures var s1, k := Begun(s, t, id), |s.acts|;
            && Enabled(s1, Scan(k, b)) && Apply(s1, Scan(k, b)) == Candidate(s, t, id, b)
            && Runner(Candidate(s, t, id, b), k, Scan(k, b)) == k
  {
    var s1, k := Begun(s, t, id), |s.acts|;
    Misses(s, s1, id);
    assert s1.acts[k := Cand(id, b)] == s.acts + [Cand(id, b)];
  }

  /** What was not cached before is not cached after, when no buffer has been queued or renamed. */
  lemma Misses(s: State, s': State, id: Id)
    requires !Cached(s, id) && |s'.bufs| == |s.bufs|
    requires forall c :: IsBuf(s, c) && Queued(s'.bufs[c]) ==> Queued(s.bufs[c]) && s'.bufs[c].id == s.bufs[c].id
    ensures !Cached(s', id)
  {
    forall c ensures !Carries(s', c, id) { assert !Carries(s, c, id); }
  }

  /** The buffer taken off the queues, sync_dev about to begin at buffer i. */
  function TakenAt(s: State, t: int, id: Id, b: int, i: int): State
    requires IsBuf(s, b)
  {
    s.(acts := s.acts + [Evict(id, b, i, false)], owner := s.owner + [t],
       bufs := s.bufs[b := s.bufs[b].(count := 1, taker := |s.acts|)],
       links := Unlinked(s.links, HomeOf(s.f, s.bufs[b].id), b))
  }

  lemma TakeStep(s: State, t: int, id: Id, b: int)
    requires IsBuf(s, b) && s.bufs[b].count == 0 && s.bufs[b].io.Idle?
    ensures var s', k := TakenAt(s, t, id, b, if s.bufs[b].dirt then 0 else |s.bufs|), |s.acts|;
            Step(Candidate(s, t, id, b), k, Take(k), s', if Pauses(s', k) then NOBODY else k)
  {
    var k, i := |s.acts|, if s.bufs[b].dirt then 0 else |s.bufs|;
    assert (s.acts + [Cand(id, b)])[k := Evict(id, b, i, false)] == s.acts + [Evict(id, b, i, false)];
  }

  /** getblk has returned a buffer that was clean. */
  function Acquired(s: State, t: int, id: Id, b: int): State
    requires IsBuf(s, b)
  {
    s.(acts := s.acts + [Held(id, b)], owner := s.owner + [t],
       bufs := s.bufs[b := Buf(id, false, false, 1, s.bufs[b].data, QUEUED, s.bufs[b].io)],
       links := Relinked(Unlinked(s.links, HomeOf(s.f, s.bufs[b].id), b), HomeOf(s.f, id), b))
  }

  lemma InstallStep(s: State, t: int, id: Id, b: int)
    requires IsBuf(s, b) && !Cached(s, id)
    ensures Step(TakenAt(s, t, id, b, |s.bufs|), |s.acts|, Install(|s.acts|), Acquired(s, t, id, b), NOBODY)
  {
    var s3, k := TakenAt(s, t, id, b, |s.bufs|), |s.acts|;
    Misses(s, s3, id);
    assert s3.acts[k := Held(id, b)] == s.acts + [Held(id, b)];
    assert s3.bufs[b := Renamed(s3.bufs[b], id)] == Acquired(s, t, id, b).bufs;
  }

  // ------------------------------------------------------------------ stretches

  /** Where task t can call getblk for this block and will settle on buffer b. */
  ghost predicate Calls(s: State, t: int, id: Id, b: int) {
    && id.dev != 0 && 0 <= t < s.tasks && Free(s, t) && !Cached(s, id)
    && IsBuf(s, b) && s.bufs[b].count == 0 && s.bufs[b].io.Idle? && Chosen(Begun(s, t, id), Scan(|s.acts|, b))
  }

  lemma CallsFirst(s: State, t: int, id: Id, ring: seq<int>, j: int)
    requires id.dev != 0 && 0 <= t < s.tasks && Free(s, t) && !Cached(s, id)
    requires FirstUnused(s, ring, j) && s.bufs[ring[j]].io.Idle?
    ensures Calls(s, t, id, ring[j])
  {
    StillFirst(s, Begun(s, t, id), ring, j);
    ChosenScan(Begun(s, t, id), |s.acts|, ring, j);
  }

  lemma Takes(s0: State, s: State, t: int, id: Id, b: int)
    requires Reached(s0, s, NOBODY) && Calls(s, t, id, b)
    ensures var s' := TakenAt(s, t, id, b, if s.bufs[b].dirt then 0 else |s.bufs|);
            Reached(s0, s', if Pauses(s', |s.acts|) then NOBODY else |s.acts|)
  {
    BeginStep(s, t, id);
    ScanStep(s, t, id, b);
    TakeStep(s, t, id, b);
    var s', k := TakenAt(s, t, id, b, if s.bufs[b].dirt then 0 else |s.bufs|), |s.acts|;
    ReachStep(s0, s, NOBODY, Start(t, id), Begun(s, t, id), k);
    ReachStep(s0, Begun(s, t, id), k, Scan(k, b), Candidate(s, t, id, b), k);
    ReachStep(s0, Candidate(s, t, id, b), k, Take(k), s', if Pauses(s', k) then NOBODY else k);
  }

  lemma Acquires(s0: State, s: State, t: int, id: Id, b: int)
    requires Reached(s0, s, NOBODY) && Calls(s, t, id, b) && !s.bufs[b].dirt
    ensures Reached(s0, Acquired(s, t, id, b), NOBODY)
  {
    Takes(s0, s, t, id, b);
    InstallStep(s, t, id, b);
    ReachStep(s0, TakenAt(s, t, id, b, |s.bufs|), |s.acts|, Install(|s.acts|), Acquired(s, t, id, b), NOBODY);
  }

  lemma AcquiredRing(s: State, t: int, id: Id, ring: seq<int>, j: int)
    requires RingIs(s, ring) && |ring| >= 2 && 0 <= j < |ring| && IsBuf(s, ring[j]) && Queued(s.bufs[ring[j]])
    ensures RingIs(Acquired(s, t, id, ring[j]), Without(ring, j) + [ring[j]])
  {
    var b := ring[j];
    var s3 := TakenAt(s, t, id, b, |s.bufs|);
    LeaveRing(s, s3, ring, j);
    EnterRing(s3, Acquired(s, t, id, b), Without(ring, j), b);
  }

  // ------------------------------------------------------------------ holders

  function Stored(s: State, k: int, data: Block): State
    requires IsAct(s, k) && s.acts[k].Held? && IsBuf(s, s.acts[k].b)
  {
    var b := s.acts[k].b;
    s.(bufs := s.bufs[b := s.bufs[b].(uptodate := true, dirt := true, data := data)],
      store := s.store[s.bufs[b].id := data])
  }

  lemma Stores(s0: State, s: State, k: int, data: Block)
    requires Reached(s0, s, NOBODY) && IsAct(s, k) && s.acts[k].Held? && IsBuf(s, s.acts[k].b)
    ensures Reached(s0, Stored(s, k, data), NOBODY)
  {
    assert Step(s, NOBODY, Store(k, data), Stored(s, k, data), NOBODY);
    ReachStep(s0, s, NOBODY, Store(k, data), Stored(s, k, data), NOBODY);
  }

  function Let(s: State, k: int): State
    requires IsAct(s, k) && s.acts[k].Held? && IsBuf(s, s.acts[k].b)
  {
    var b := s.acts[k].b;
    s.(bufs := s.bufs[b := s.bufs[b].(count := s.bufs[b].count - 1)], acts := s.acts[k := Done])
  }

  /** brelse on a buffer that is not being transferred. */
  lemma Lets(s0: State, s: State, k: int)
    requires Reached(s0, s, NOBODY) && IsAct(s, k) && s.acts[k].Held? && IsBuf(s, s.acts[k].b)
    requires s.bufs[s.acts[k].b].io.Idle? && FreeToCall(s, k)
    ensures Reached(s0, Let(s, k), NOBODY)
  {
    var b := s.acts[k].b;
    var s1 := s.(acts := s.acts[k := Drop(b)]);
    assert Step(s, NOBODY, Release(k), s1, k);
    assert s1.acts[k := Done] == s.acts[k := Done];
    assert Step(s1, k, Dropped(k), Let(s, k), NOBODY);
    ReachStep(s0, s, NOBODY, Release(k), s1, k);
    ReachStep(s0, s1, k, Dropped(k), Let(s, k), NOBODY);
  }

  // ------------------------------------------------------------------ sync_dev

  /** Activity k skips to buffer j and begins to write it. */
  function WritingAt(s: State, k: int, j: int): State
    requires IsAct(s, k) && s.acts[k].Evict? && IsBuf(s, j)
  {
    s.(acts := s.acts[k := s.acts[k].(i := j, busy := true)], bufs := s.bufs[j := s.bufs[j].(io := Writing(false))])
  }

  ghost predicate Evicting(s: State, k: int, i: int, busy: bool) {
    IsAct(s, k) && s.acts[k].Evict? && IsBuf(s, s.acts[k].b) && s.acts[k].i == i && s.acts[k].busy == busy &&
      0 <= i <= |s.bufs|
  }

  lemma StartsWrite(s0: State, s: State, k: int, j: int)
    requires Reached(s0, s, k) && Evicting(s, k, j, false) && IsBuf(s, j)
    requires s.bufs[j].dirt && s.bufs[j].io.Idle? && s.bufs[j].id.dev == s.bufs[s.acts[k].b].id.dev
    ensures Reached(s0, WritingAt(s, k, j), NOBODY)
  {
    assert s.acts[k := s.acts[k].(busy := true)] == s.acts[k := s.acts[k].(i := j, busy := true)];
    assert Step(s, k, SyncStart(k), WritingAt(s, k, j), NOBODY);
    ReachStep(s0, s, k, SyncStart(k), WritingAt(s, k, j), NOBODY);
  }

  function SkippedTo(s: State, k: int, j: int): State
    requires IsAct(s, k) && s.acts[k].Evict?
  {
    s.(acts := s.acts[k := s.acts[k].(i := j, busy := false)])
  }

  lemma SkipStep(s: State, k: int, i: int, j: int)
    requires Evicting(s, k, i, false) && i < j <= |s.bufs| && forall c :: i <= c < j ==> Skips(s, s.acts[k].b, c)
    ensures var s', next := SkippedTo(s, k, j), if Pauses(SkippedTo(s, k, j), k) then NOBODY else k;
            Step(s, k, SyncSkip(k, j), s', next) && Step(s, NOBODY, SyncSkip(k, j), s', next)
  {
    assert s.acts[k := s.acts[k].(i := j)] == s.acts[k := s.acts[k].(i := j, busy := false)];
  }

  /** The disk writes buffer b. */
  function Written(s: State, b: int): State
    requires IsBuf(s, b)
  {
    s.(bufs := s.bufs[b := s.bufs[b].(uptodate := true, dirt := false, io := Idle)],
       disk := s.disk[s.bufs[b].id := s.bufs[b].data])
  }

  lemma Writes(s0: State, s: State, r: int, b: int)
    requires Reached(s0, s, r) && IsBuf(s, b) && s.bufs[b].io == Writing(false)
    ensures Reached(s0, Written(s, b), r)
  {
    var s1 := s.(bufs := s.bufs[b := s.bufs[b].(io := Writing(true))], disk := s.disk[s.bufs[b].id := s.bufs[b].data]);
    assert Step(s, r, Serve(b), s1, r);
    assert s1.bufs[b := s1.bufs[b].(uptodate := true, dirt := false, io := Idle)] == Written(s, b).bufs;
    assert Step(s1, r, Finish(b), Written(s, b), r);
    ReachStep(s0, s, r, Serve(b), s1, r);
    ReachStep(s0, s1, r, Finish(b), Written(s, b), r);
  }

  lemma WakeStep(s: State, k: int, i: int)
    requires Evicting(s, k, i, true) && IsBuf(s, i) && s.bufs[i].io.Idle?
    ensures var s' := SkippedTo(s, k, i + 1); Step(s, NOBODY, SyncWake(k), s', if Pauses(s', k) then NOBODY else k)
  {
  }

  /** An evicted buffer goes back under its new name. */
  function Returned(s: State, k: int): State
    requires IsAct(s, k) && s.acts[k].Evict? && IsBuf(s, s.acts[k].b)
  {
    var b, id := s.acts[k].b, s.acts[k].id;
    s.(acts := s.acts[k := Held(id, b)], bufs := s.bufs[b := Renamed(s.bufs[b], id)],
       links := Relinked(s.links, HomeOf(s.f, id), b))
  }

  lemma ReturnStep(s: State, k: int)
    requires Evicting(s, k, |s.bufs|, false) && !Cached(s, s.acts[k].id)
    ensures Step(s, k, Install(k), Returned(s, k), NOBODY)
  {
  }
}

/**
  With as many tasks as buffers the free ring can be emptied, and then a buffer is lost: a run of the kernel
  in which every buffer has been taken by a task that is about to reuse it and waits for sync_dev. There are two
  devices, and the disk ends its writes in the order in which they were begun.
 */
module BufferRingLoss {
  import opened BufferLists
  import opened BufferQueues
  import opened BufferIds
  import opened BufferProtocol
  import opened BufferRing
  import opened BufferRuns

  function Span(i: int, n: int): (r: seq<int>)
    requires i <= n
    ensures |r| == n - i && forall k :: 0 <= k < n - i ==> r[k] == i + k
  {
    seq(n - i, k => i + k)
  }

  function Rotated(i: nat, n: nat): (r: seq<int>)
    requires i <= n
    ensures |r| == n
  {
    Span(i, n) + Span(0, i)
  }

  lemma RotatedNext(i: nat, n: nat)
    requires i < n
    ensures Rotated(i, n)[0] == i && Without(Rotated(i, n), 0) + [i] == Rotated(i + 1, n)
  {
    var a, b := Without(Rotated(i, n), 0) + [i], Rotated(i + 1, n);
    assert |a| == |b|;
    forall k | 0 <= k < |a| ensures a[k] == b[k] { }
  }

  /** Buffer 0 is for block 0 of device 2, buffer b for block b of device 1. */
  function Name(b: int): Id { if b == 0 then Id(2, 0) else Id(1, b) }

  /** Buffer b holds its block, modified. */
  function DirtyOf(b: int): Buf { Buf(Name(b), true, true, 0, [1], QUEUED, Idle) }

  // ------------------------------------------------------------------ every buffer gets dirty

  /** The first i buffers are dirty; nobody is inside a call. */
  ghost predicate Dirtied(s0: State, s: State, n: nat, i: nat) {
    && Reached(s0, s, NOBODY) && DirtiedBufs(s, n, i) && DirtiedActs(s, i) && RingIs(s, Rotated(i, n))
  }

  ghost predicate DirtiedBufs(s: State, n: nat, i: nat) {
    && i <= n == |s.bufs| && s.tasks >= n >= 2
    && forall b :: 0 <= b < n ==> s.bufs[b] == if b < i then DirtyOf(b) else EmptyBuf()
  }

  ghost predicate DirtiedActs(s: State, i: nat) {
    |s.acts| == |s.owner| == i && forall k :: 0 <= k < i ==> s.acts[k] == Done && s.owner[k] == 0
  }

  /** Task 0 gets buffer i for its block, stores into it and lets it go. */
  lemma DirtyCalls(s: State, n: nat, i: nat)
    requires DirtiedBufs(s, n, i) && DirtiedActs(s, i) && RingIs(s, Rotated(i, n)) && i < n
    ensures Calls(s, 0, Name(i), i)
  {
    var id := Name(i);
    RotatedNext(i, n);
    forall c ensures !Carries(s, c, id) { }
    assert FirstUnused(s, Rotated(i, n), 0);
    CallsFirst(s, 0, id, Rotated(i, n), 0);
  }

  function Got(s: State, i: nat): State
    requires IsBuf(s, i)
  {
    Acquired(s, 0, Name(i), i)
  }

  ghost predicate GotIt(s: State, a: State, i: nat) {
    && IsBuf(s, i) && a == Got(s, i) && |s.acts| == |s.owner| == i
    && IsAct(a, i) && a.acts[i] == Held(Name(i), i) && FreeToCall(a, i) && a.bufs[i].io.Idle?
  }

  lemma GotHeld(s: State, n: nat, i: nat)
    requires DirtiedBufs(s, n, i) && DirtiedActs(s, i) && i < n
    ensures GotIt(s, Got(s, i), i)
  {
  }

  function NextDirty(s: State, i: nat): State
    requires IsBuf(s, i) && GotIt(s, Got(s, i), i)
  {
    Let(Stored(Got(s, i), i, [1]), i)
  }

  lemma DirtyReached(s0: State, s: State, i: nat)
    requires Reached(s0, s, NOBODY) && IsBuf(s, i) && Calls(s, 0, Name(i), i) && !s.bufs[i].dirt &&
             GotIt(s, Got(s, i), i)
    ensures Reached(s0, NextDirty(s, i), NOBODY)
  {
    Acquires(s0, s, 0, Name(i), i);
    Stores(s0, Got(s, i), i, [1]);
    Lets(s0, Stored(Got(s, i), i, [1]), i);
  }

  lemma NextDirtied(s: State, n: nat, i: nat)
    requires DirtiedBufs(s, n, i) && DirtiedActs(s, i) && i < n && GotIt(s, Got(s, i), i)
    ensures DirtiedBufs(NextDirty(s, i), n, i + 1) && DirtiedActs(NextDirty(s, i), i + 1)
  {
  }

  lemma GotRing(s: State, n: nat, i: nat)
    requires i < n == |s.bufs| && n >= 2 && RingIs(s, Rotated(i, n)) && Queued(s.bufs[i])
    ensures RingIs(Got(s, i), Rotated(i + 1, n))
  {
    RotatedNext(i, n);
    AcquiredRing(s, 0, Name(i), Rotated(i, n), 0);
  }

  lemma NextRing(s: State, n: nat, i: nat)
    requires i < n == |s.bufs| && n >= 2 && RingIs(s, Rotated(i, n)) && Queued(s.bufs[i]) && GotIt(s, Got(s, i), i)
    ensures RingIs(NextDirty(s, i), Rotated(i + 1, n))
  {
    GotRing(s, n, i);
    FrameRing(Got(s, i), NextDirty(s, i), Rotated(i + 1, n));
  }

  lemma DirtyOne(s0: State, s: State, n: nat, i: nat)
    requires Dirtied(s0, s, n, i) && i < n
    ensures GotIt(s, Got(s, i), i) && Dirtied(s0, NextDirty(s, i), n, i + 1)
  {
    DirtyCalls(s, n, i);
    GotHeld(s, n, i);
    DirtyReached(s0, s, i);
    NextDirtied(s, n, i);
    NextRing(s, n, i);
  }

  lemma {:induction false} DirtyAll(s0: State, n: nat, i: nat) returns (s: State)
    requires Dirtied(s0, s0, n, 0) && i <= n
    ensures Dirtied(s0, s, n, i)
    decreases i
  {
    if i == 0 {
      s := s0;
    } else {
      var before := DirtyAll(s0, n, i - 1);
      DirtyOne(s0, before, n, i - 1);
      s := NextDirty(before, i - 1);
    }
  }

  // ------------------------------------------------------------------ every buffer is taken

  /** Buffer b, taken by activity n + b; those first on their device are being written. */
  function TakenOf(n: int, b: int): Buf {
    DirtyOf(b).(count := 1, taker := n + b, io := if b <= 1 then Writing(false) else Idle)
  }

  /** What the activity is at that has taken buffer b: the first on their device write it out, the others wait
      for the write of buffer 1. */
  function TakingOf(n: int, b: int): Act { Evict(Id(1, n + b), b, if b == 0 then 0 else 1, b <= 1) }

  ghost predicate TakenBufs(s: State, n: nat, i: nat) {
    && i <= n == |s.bufs| && s.tasks >= n >= 2
    && forall b :: 0 <= b < n ==> s.bufs[b] == if b < i then TakenOf(n, b) else DirtyOf(b)
  }

  ghost predicate TakenActs(s: State, n: nat, i: nat) {
    && |s.acts| == |s.owner| == n + i
    && (forall k :: 0 <= k < n ==> s.acts[k] == Done && s.owner[k] == 0)
    && (forall k :: n <= k < n + i ==> s.acts[k] == TakingOf(n, k - n) && s.owner[k] == k - n)
  }

  /** The first i buffers have been taken; the ring holds the others, or still points at the last one. */
  ghost predicate TakenUpTo(s0: State, s: State, n: nat, i: nat) {
    Reached(s0, s, NOBODY) && TakenBufs(s, n, i) && TakenActs(s, n, i) && LinksUpTo(s, n, i)
  }

  ghost predicate LinksUpTo(s: State, n: nat, i: nat) {
    i <= n && if i < n then RingIs(s, Span(i, n)) else Looped(s.links, n)
  }

  /** The links of an emptied ring: free_list and its only member point at each other. */
  ghost predicate Looped(l: Links, n: nat) {
    && n >= 1 && |l.nx| == |l.pv| == |l.nf| == |l.pf| == n
    && l.nf[n - 1] == n - 1 && l.pf[n - 1] == n - 1 && l.freeList == n - 1
  }

  /** Task i calls getblk for another block and settles on buffer i. */
  lemma TakeCalls(s: State, n: nat, i: nat)
    requires TakenBufs(s, n, i) && TakenActs(s, n, i) && i < n && RingIs(s, Span(i, n))
    ensures Calls(s, i, Id(1, n + i), i)
  {
    var id := Id(1, n + i);
    forall c ensures !Carries(s, c, id) { }
    assert FirstUnused(s, Span(i, n), 0);
    CallsFirst(s, i, id, Span(i, n), 0);
  }

  function At0(s: State, n: nat, i: nat): State
    requires IsBuf(s, i)
  {
    TakenAt(s, i, Id(1, n + i), i, 0)
  }

  /** Activity k has taken buffer i, and sync_dev has nothing to write before it. */
  ghost predicate First(a: State, k: int, i: nat) {
    && Evicting(a, k, 0, false) && a.acts[k].b == i && IsBuf(a, i) && a.bufs[i].dirt && a.bufs[i].io.Idle?
    && forall c :: 0 <= c < i ==> a.bufs[c].id.dev != a.bufs[i].id.dev
  }

  /** Activity k has taken a buffer of the device of buffer 1, which is being written. */
  ghost predicate Behind(a: State, k: int) {
    && Evicting(a, k, 0, false) && |a.bufs| >= 2 && a.bufs[0].id.dev != a.bufs[a.acts[k].b].id.dev
    && a.bufs[1].id.dev == a.bufs[a.acts[k].b].id.dev && !a.bufs[1].io.Idle?
  }

  lemma TakenFirst(s: State, n: nat, i: nat)
    requires TakenBufs(s, n, i) && TakenActs(s, n, i) && i < n
    ensures s.bufs[i].dirt && !Pauses(At0(s, n, i), |s.acts|)
    ensures if i <= 1 then First(At0(s, n, i), |s.acts|, i) else Behind(At0(s, n, i), |s.acts|)
  {
  }

  /** sync_dev comes to a buffer of its device: it writes buffer i, or waits for buffer 1. */
  function Began(a: State, k: int, i: nat): State
    requires IsAct(a, k) && a.acts[k].Evict? && IsBuf(a, i)
  {
    if i <= 1 then WritingAt(SkippedTo(a, k, i), k, i) else SkippedTo(a, k, 1)
  }

  function NextTaken(s: State, n: nat, i: nat): State
    requires IsBuf(s, i)
  {
    Began(At0(s, n, i), |s.acts|, i)
  }

  lemma FirstReached(s0: State, a: State, k: int, i: nat)
    requires Reached(s0, a, k) && First(a, k, i)
    ensures Reached(s0, WritingAt(SkippedTo(a, k, i), k, i), NOBODY)
  {
    var b := SkippedTo(a, k, i);
    assert Evicting(b, k, i, false);
    if i > 0 {
      SkipStep(a, k, 0, i);
      ReachStep(s0, a, k, SyncSkip(k, i), b, k);
    } else {
      assert a.acts[k := a.acts[k]] == a.acts;
      assert b == a;
    }
    StartsWrite(s0, b, k, i);
  }

  lemma BehindReached(s0: State, a: State, k: int)
    requires Reached(s0, a, k) && Behind(a, k)
    ensures Reached(s0, SkippedTo(a, k, 1), NOBODY)
  {
    SkipStep(a, k, 0, 1);
    ReachStep(s0, a, k, SyncSkip(k, 1), SkippedTo(a, k, 1), NOBODY);
  }

  lemma TakeSteps(s0: State, s: State, n: nat, i: nat)
    requires Reached(s0, s, NOBODY) && IsBuf(s, i) && Calls(s, i, Id(1, n + i), i) && s.bufs[i].dirt
    requires !Pauses(At0(s, n, i), |s.acts|)
    requires if i <= 1 then First(At0(s, n, i), |s.acts|, i) else Behind(At0(s, n, i), |s.acts|)
    ensures Reached(s0, NextTaken(s, n, i), NOBODY)
  {
    Takes(s0, s, i, Id(1, n + i), i);
    if i <= 1 { FirstReached(s0, At0(s, n, i), |s.acts|, i); } else { BehindReached(s0, At0(s, n, i), |s.acts|); }
  }

  lemma NextTakenIs(s: State, n: nat, i: nat)
    requires TakenBufs(s, n, i) && TakenActs(s, n, i) && i < n
    ensures TakenBufs(NextTaken(s, n, i), n, i + 1) && TakenActs(NextTaken(s, n, i), n, i + 1)
  {
  }

  lemma SpanNext(i: nat, n: nat)
    requires i < n
    ensures Span(i, n)[0] == i && Without(Span(i, n), 0) == Span(i + 1, n)
  {
  }

  lemma NextTakenRing(s: State, n: nat, i: nat)
    requires i + 1 < n == |s.bufs| && RingIs(s, Span(i, n)) && Queued(s.bufs[i])
    ensures RingIs(NextTaken(s, n, i), Span(i + 1, n))
  {
    SpanNext(i, n);
    LeftRing(s, n, i);
    SameRing(At0(s, n, i), |s.acts|, i, Span(i + 1, n));
  }

  lemma LeftRing(s: State, n: nat, i: nat)
    requires i + 1 < n == |s.bufs| && RingIs(s, Span(i, n)) && Queued(s.bufs[i]) && Span(i, n)[0] == i
    ensures RingIs(At0(s, n, i), Without(Span(i, n), 0))
  {
    At0Leaves(s, n, i);
    LeaveRing(s, At0(s, n, i), Span(i, n), 0);
  }

  lemma At0Leaves(s: State, n: nat, i: nat)
    requires IsBuf(s, i)
    ensures Leaves(s, At0(s, n, i), i)
  {
  }

  lemma SameRing(a: State, k: int, i: nat, ring: seq<int>)
    requires IsAct(a, k) && a.acts[k].Evict? && IsBuf(a, i) && RingIs(a, ring)
    ensures RingIs(Began(a, k, i), ring)
  {
    FrameRing(a, Began(a, k, i), ring);
  }

  /** Taking the last buffer leaves free_list at it. */
  lemma LastTaken(s: State, n: nat, h: int)
    requires n >= 1 && |s.bufs| == n && RingIs(s, Span(n - 1, n))
    ensures Looped(Unlinked(s.links, h, n - 1), n)
  {
    var ring := Span(n - 1, n);
    var chains :| Linked(s.links, HomesOf(s), Shape(ring, chains));
    assert ring == [n - 1];
    assert RingAt(s.links.nf, s.links.pf, ring, 0);
  }

  lemma NextTakenLinks(s: State, n: nat, i: nat)
    requires i < n == |s.bufs| && RingIs(s, Span(i, n)) && Queued(s.bufs[i])
    ensures LinksUpTo(NextTaken(s, n, i), n, i + 1)
  {
    if i + 1 < n { NextTakenRing(s, n, i); } else { LastTaken(s, n, HomeOf(s.f, s.bufs[i].id)); }
  }

  lemma TakeOneReached(s0: State, s: State, n: nat, i: nat)
    requires Reached(s0, s, NOBODY) && TakenBufs(s, n, i) && TakenActs(s, n, i) && i < n && RingIs(s, Span(i, n))
    ensures Reached(s0, NextTaken(s, n, i), NOBODY)
  {
    TakeCalls(s, n, i);
    TakenFirst(s, n, i);
    TakeSteps(s0, s, n, i);
  }

  lemma TakeOne(s0: State, s: State, n: nat, i: nat)
    requires TakenUpTo(s0, s, n, i) && i < n
    ensures IsBuf(s, i) && TakenUpTo(s0, NextTaken(s, n, i), n, i + 1)
  {
    TakeOneReached(s0, s, n, i);
    NextTakenIs(s, n, i);
    NextTakenLinks(s, n, i);
  }

  lemma {:induction false} TakeRest(s0: State, s: State, n: nat, i: nat) returns (s': State)
    requires TakenUpTo(s0, s, n, i)
    ensures TakenUpTo(s0, s', n, n)
    decreases n - i
  {
    if i == n {
      s' := s;
    } else {
      TakeOne(s0, s, n, i);
      s' := TakeRest(s0, NextTaken(s, n, i), n, i + 1);
    }
  }

  // ------------------------------------------------------------------ buffer 0 goes back

  /** Activity k waits for the write of its buffer 0, the only one of its device. */
  ghost predicate Waits(s: State, k: int) {
    && Evicting(s, k, 0, true) && s.acts[k].b == 0 && IsBuf(s, 0) && s.bufs[0].io == Writing(false)
    && (forall c :: IsBuf(s, c) && c != 0 ==> s.bufs[c].id.dev != s.bufs[0].id.dev)
    && !Cached(s, s.acts[k].id)
  }

  /** The buffer is written, sync_dev goes through, and the buffer goes back under its new name. */
  function Back(s: State, k: int): State
    requires IsAct(s, k) && s.acts[k].Evict? && IsBuf(s, 0) && IsBuf(s, s.acts[k].b)
  {
    Returned(SkippedTo(Written(s, 0), k, |s.bufs|), k)
  }

  lemma BackSteps(s: State, k: int)
    requires Waits(s, k) && |s.bufs| >= 2
    ensures var w := Written(s, 0);
            && Step(w, NOBODY, SyncWake(k), SkippedTo(w, k, 1), k)
            && Step(SkippedTo(w, k, 1), k, SyncSkip(k, |s.bufs|), SkippedTo(w, k, |s.bufs|), k)
            && Step(SkippedTo(w, k, |s.bufs|), k, Install(k), Back(s, k), NOBODY)
  {
    var w, n := Written(s, 0), |s.bufs|;
    WakeStep(w, k, 0);
    var v := SkippedTo(w, k, 1);
    SkipStep(v, k, 1, n);
    assert SkippedTo(v, k, n) == SkippedTo(w, k, n);
    var u := SkippedTo(w, k, n);
    Misses(s, u, s.acts[k].id);
    ReturnStep(u, k);
  }

  lemma BackReached(s0: State, s: State, k: int)
    requires Reached(s0, s, NOBODY) && Waits(s, k) && |s.bufs| >= 2
    ensures Reached(s0, Back(s, k), NOBODY)
  {
    var w, n := Written(s, 0), |s.bufs|;
    BackSteps(s, k);
    Writes(s0, s, NOBODY, 0);
    ReachStep(s0, w, NOBODY, SyncWake(k), SkippedTo(w, k, 1), k);
    ReachStep(s0, SkippedTo(w, k, 1), k, SyncSkip(k, n), SkippedTo(w, k, n), k);
    ReachStep(s0, SkippedTo(w, k, n), k, Install(k), Back(s, k), NOBODY);
  }

  lemma FirstWaits(s: State, n: nat)
    requires TakenBufs(s, n, n) && TakenActs(s, n, n)
    ensures Waits(s, n) && |s.bufs| >= 2
  {
    var id := Id(1, n);
    forall c ensures !Carries(s, c, id) { }
  }

  /** Buffer 0 has gone back and been let go. */
  function Gone(s: State, n: nat): State
    requires Waits(s, n)
  {
    Let(Back(s, n), n)
  }

  /** Buffer 0 is unused and clean; the others are as they were. */
  ghost predicate ZeroBack(s: State, t: State, n: nat) {
    && 2 <= n == |s.bufs| == |t.bufs| && t.bufs[0].id == Id(1, n) && t.bufs[0].count == 0
    && (forall b :: 1 <= b < n ==> t.bufs[b] == s.bufs[b])
    && |t.acts| == |s.acts| && (forall k :: 0 <= k < |s.acts| && k != n ==> t.acts[k] == s.acts[k])
    && t.links == Relinked(s.links, HomeOf(s.f, Id(1, n)), 0) && t.f == s.f
  }

  lemma GoneIs(s: State, n: nat)
    requires TakenBufs(s, n, n) && TakenActs(s, n, n) && Waits(s, n)
    ensures ZeroBack(s, Gone(s, n), n)
  {
  }

  lemma MayLet(s: State, n: nat)
    requires TakenBufs(s, n, n) && TakenActs(s, n, n) && Waits(s, n)
    ensures Back(s, n).acts[n] == Held(Id(1, n), 0) && Back(s, n).bufs[0].io.Idle? && FreeToCall(Back(s, n), n)
  {
  }

  lemma GoneReached(s0: State, s: State, n: nat)
    requires Reached(s0, s, NOBODY) && TakenBufs(s, n, n) && TakenActs(s, n, n) && Waits(s, n)
    ensures Reached(s0, Gone(s, n), NOBODY)
  {
    BackReached(s0, s, n);
    MayLet(s, n);
    Lets(s0, Back(s, n), n);
  }

  // ------------------------------------------------------------------ the last buffer follows

  /** Activity 2n - 1, which has taken buffer n - 1, is writing buffer j: what comes before is written, what
      comes after is dirty. */
  ghost predicate Syncing(s: State, n: nat, j: nat) {
    && n == |s.bufs| && 1 <= j < n && IsAct(s, 2 * n - 1)
    && s.acts[2 * n - 1] == Evict(Id(1, 2 * n - 1), n - 1, j, true)
    && (forall b :: 1 <= b < n ==> Ahead(s.bufs[b], b, j)) && s.bufs[0].id == Id(1, n) && s.bufs[0].count == 0
  }

  predicate Ahead(x: Buf, b: int, j: int) {
    && x.id.dev == 1 && !Queued(x)
    && if b < j then !x.dirt && x.io.Idle? else if b == j then x.io == Writing(false) else x.dirt && x.io.Idle?
  }

  /** Buffer j is written, and sync_dev goes on to the next one. */
  function WroteOne(s: State, n: nat, j: nat): State
    requires Syncing(s, n, j)
  {
    SkippedTo(Written(s, j), 2 * n - 1, j + 1)
  }

  lemma WroteStep(s: State, n: nat, j: nat)
    requires Syncing(s, n, j)
    ensures Step(Written(s, j), NOBODY, SyncWake(2 * n - 1), WroteOne(s, n, j), 2 * n - 1)
    ensures Evicting(WroteOne(s, n, j), 2 * n - 1, j + 1, false)
  {
    WakeStep(Written(s, j), 2 * n - 1, j);
  }

  lemma WroteReached(s0: State, s: State, n: nat, j: nat)
    requires Reached(s0, s, NOBODY) && Syncing(s, n, j)
    ensures Reached(s0, WroteOne(s, n, j), 2 * n - 1)
  {
    WroteStep(s, n, j);
    Writes(s0, s, NOBODY, j);
    ReachStep(s0, Written(s, j), NOBODY, SyncWake(2 * n - 1), WroteOne(s, n, j), 2 * n - 1);
  }

  function NextSync(s: State, n: nat, j: nat): State
    requires Syncing(s, n, j) && j + 1 < n
  {
    WritingAt(WroteOne(s, n, j), 2 * n - 1, j + 1)
  }

  lemma NextSyncing(s: State, n: nat, j: nat)
    requires Syncing(s, n, j) && j + 1 < n
    ensures Syncing(NextSync(s, n, j), n, j + 1) && NextSync(s, n, j).links == s.links
  {
    forall b | 1 <= b < n ensures Ahead(NextSync(s, n, j).bufs[b], b, j + 1) { assert Ahead(s.bufs[b], b, j); }
  }

  lemma NextReached(s0: State, s: State, n: nat, j: nat)
    requires Reached(s0, s, NOBODY) && Syncing(s, n, j) && j + 1 < n
    ensures Reached(s0, NextSync(s, n, j), NOBODY)
  {
    WroteReached(s0, s, n, j);
    WroteStep(s, n, j);
    assert Ahead(s.bufs[j + 1], j + 1, j) && Ahead(s.bufs[n - 1], n - 1, j);
    StartsWrite(s0, WroteOne(s, n, j), 2 * n - 1, j + 1);
  }

  /** All of the device is written, and buffer n - 1 goes back. */
  function Last(s: State, n: nat): State
    requires n >= 2 && Syncing(s, n, n - 1)
  {
    Returned(WroteOne(s, n, n - 1), 2 * n - 1)
  }

  lemma LastStep(s: State, n: nat)
    requires n >= 2 && Syncing(s, n, n - 1)
    ensures Step(WroteOne(s, n, n - 1), 2 * n - 1, Install(2 * n - 1), Last(s, n), NOBODY)
  {
    var u, id := WroteOne(s, n, n - 1), Id(1, 2 * n - 1);
    forall c ensures !Carries(u, c, id) { if 1 <= c < n { assert Ahead(s.bufs[c], c, n - 1); } }
    WroteStep(s, n, n - 1);
    ReturnStep(u, 2 * n - 1);
  }

  lemma {:induction false} LastReached(s0: State, s: State, n: nat, j: nat) returns (t: State)
    requires Reached(s0, s, NOBODY) && Syncing(s, n, j)
    ensures Syncing(t, n, n - 1) && Reached(s0, Last(t, n), NOBODY) && t.links == s.links && t.f == s.f
    decreases n - j
  {
    if j + 1 < n {
      NextSyncing(s, n, j);
      NextReached(s0, s, n, j);
      t := LastReached(s0, NextSync(s, n, j), n, j + 1);
    } else {
      t := s;
      WroteReached(s0, s, n, n - 1);
      LastStep(s, n);
      ReachStep(s0, WroteOne(s, n, n - 1), 2 * n - 1, Install(2 * n - 1), Last(s, n), NOBODY);
    }
  }

  // ------------------------------------------------------------------ how it begins

  /** With two buffers the last one is being written already. */
  lemma TwoSyncing(s: State, t: State)
    requires TakenBufs(s, 2, 2) && TakenActs(s, 2, 2) && ZeroBack(s, t, 2)
    ensures Syncing(t, 2, 1)
  {
  }

  /** With more, buffer 1 is written for the activity that took it, and activity 2n - 1 begins with buffer 2. */
  function SecondSync(t: State, n: nat): State
    requires |t.bufs| == n >= 3 && IsAct(t, 2 * n - 1) && t.acts[2 * n - 1].Evict?
  {
    WritingAt(SkippedTo(Written(t, 1), 2 * n - 1, 2), 2 * n - 1, 2)
  }

  ghost predicate Stuck(t: State, n: nat) {
    && n >= 3 && |t.bufs| == n && Evicting(t, 2 * n - 1, 1, false) && t.acts[2 * n - 1].b == n - 1
    && t.bufs[1].id.dev == 1 == t.bufs[n - 1].id.dev && t.bufs[1].io == Writing(false)
    && t.bufs[2].id.dev == 1 && t.bufs[2].dirt && t.bufs[2].io.Idle?
  }

  lemma LastStuck(s: State, t: State, n: nat)
    requires n >= 3 && TakenBufs(s, n, n) && TakenActs(s, n, n) && ZeroBack(s, t, n)
    ensures Stuck(t, n) && Syncing(SecondSync(t, n), n, 2)
  {
    var u := SecondSync(t, n);
    forall b | 1 <= b < n ensures Ahead(u.bufs[b], b, 2) { assert t.bufs[b] == TakenOf(n, b); }
  }

  lemma SecondStep(t: State, n: nat)
    requires Stuck(t, n)
    ensures var w, k := Written(t, 1), 2 * n - 1;
            && Step(w, NOBODY, SyncSkip(k, 2), SkippedTo(w, k, 2), k) && Evicting(SkippedTo(w, k, 2), k, 2, false)
  {
    var w, k := Written(t, 1), 2 * n - 1;
    SkipStep(w, k, 1, 2);
  }

  lemma SecondReached(s0: State, t: State, n: nat)
    requires Reached(s0, t, NOBODY) && Stuck(t, n)
    ensures Reached(s0, SecondSync(t, n), NOBODY)
  {
    var w, k := Written(t, 1), 2 * n - 1;
    Writes(s0, t, NOBODY, 1);
    SecondStep(t, n);
    ReachStep(s0, w, NOBODY, SyncSkip(k, 2), SkippedTo(w, k, 2), k);
    StartsWrite(s0, SkippedTo(w, k, 2), k, 2);
  }

  lemma SyncBegins(s0: State, s: State, t: State, n: nat) returns (u: State, j: nat)
    requires TakenBufs(s, n, n) && TakenActs(s, n, n) && ZeroBack(s, t, n) && Reached(s0, t, NOBODY)
    ensures Reached(s0, u, NOBODY) && Syncing(u, n, j) && u.links == t.links && u.f == t.f
  {
    if n == 2 {
      TwoSyncing(s, t);
      u, j := t, 1;
    } else {
      LastStuck(s, t, n);
      SecondReached(s0, t, n);
      u, j := SecondSync(t, n), 2;
    }
  }

  // ------------------------------------------------------------------ the loss

  /** After the two insertions into the emptied ring, free_list leads to buffer n - 1 only. */
  lemma TwoInserted(l: Links, n: nat, g: int, h: int)
    requires n >= 2 && Looped(l, n)
    ensures var r := Relinked(Relinked(l, g, 0), h, n - 1); |r.nf| == n && r.freeList == n - 1 && r.nf[n - 1] == n - 1
  {
  }

  lemma {:induction false} StaysAt(nf: seq<int>, b: int, k: nat)
    requires 0 <= b < |nf| && nf[b] == b
    ensures Follow(nf, b, k) == b
  {
    if k > 0 { StaysAt(nf, b, k - 1); }
  }

  lemma LastLoses(l: Links, g: int, t: State, n: nat)
    requires n >= 2 && Looped(l, n) && Syncing(t, n, n - 1) && t.links == Relinked(l, g, 0)
    ensures !UnusedOnRing(Last(t, n))
  {
    var r := Last(t, n).links;
    TwoInserted(l, n, g, HomeOf(t.f, Id(1, 2 * n - 1)));
    assert r.freeList == n - 1 && r.nf[n - 1] == n - 1;
    forall k: nat ensures Follow(r.nf, r.freeList, k) != 0 { StaysAt(r.nf, n - 1, k); }
    assert IsBuf(Last(t, n), 0) && Last(t, n).bufs[0].count == 0 && !OnRing(r, 0);
  }

  /** With as many tasks as buffers there is a run of the kernel that loses a buffer: unused, and not on the
      free ring. */
  lemma RingLost(f: Id -> int, n: nat, tasks: nat) returns (s: State)
    requires IsHash(f) && 2 <= n <= tasks
    ensures Reached(Initial(f, n, tasks, map[]), s, NOBODY) && !UnusedOnRing(s)
  {
    var s0 := Initial(f, n, tasks, map[]);
    StartDirtied(f, n, tasks);
    var a := DirtyAll(s0, n, n);
    AllDirtied(s0, a, n);
    var t := TakeRest(s0, a, n, 0);
    FirstWaits(t, n);
    GoneIs(t, n);
    GoneReached(s0, t, n);
    var u, j := SyncBegins(s0, t, Gone(t, n), n);
    var v := LastReached(s0, u, n, j);
    LastLoses(t.links, HomeOf(t.f, Id(1, n)), v, n);
    s := Last(v, n);
  }

  lemma StartDirtied(f: Id -> int, n: nat, tasks: nat)
    requires IsHash(f) && 2 <= n <= tasks
    ensures var s0 := Initial(f, n, tasks, map[]); Dirtied(s0, s0, n, 0)
  {
    var s0 := Initial(f, n, tasks, map[]);
    InitialRingIs(f, n, tasks, map[]);
    assert Rotated(0, n) == Counting(n);
    assert Real(s0, [], s0, NOBODY);
  }

  lemma AllDirtied(s0: State, a: State, n: nat)
    requires Dirtied(s0, a, n, n)
    ensures TakenUpTo(s0, a, n, 0)
  {
    assert Rotated(n, n) == Span(0, n);
  }

  /** On a ring of at least two buffers: in every run every unused buffer is on the free ring, if and only if
      there are fewer tasks than buffers. */
  lemma RingWholeIff(f: Id -> int, n: nat, tasks: nat)
    requires IsHash(f) && n >= 2
    ensures (forall ls :: UnusedOnRing(Exec(Initial(f, n, tasks, map[]), ls))) <==> tasks < n
  {
    var s0 := Initial(f, n, tasks, map[]);
    if tasks < n {
      forall ls ensures UnusedOnRing(Exec(s0, ls)) { Safety(f, n, tasks, map[], ls); }
    } else {
      var s := RingLost(f, n, tasks);
      var ls :| Real(s0, ls, s, NOBODY);
      RealIsExec(s0, ls, s, NOBODY);
    }
  }
}

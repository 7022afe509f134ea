/**
  A run of the kernel in which bread returns old contents: a modified buffer is taken off the queues to be
  written out, and while another buffer of the device is written first, its block is read again.
 */
module BufferStale {
  import opened BufferLists
  import opened BufferQueues
  import opened BufferIds
  import opened BufferProtocol
  import opened BufferRing
  import opened BufferRuns

  // ------------------------------------------------------------------ reading

  function Filled(s: State, k: int): State
    requires IsAct(s, k) && s.acts[k].Held? && IsBuf(s, s.acts[k].b)
  {
    var b := s.acts[k].b;
    s.(acts := s.acts[k := Filling(s.acts[k].id, b)], bufs := s.bufs[b := s.bufs[b].(io := Reading)])
  }

  lemma FillStep(s: State, k: int)
    requires IsAct(s, k) && s.acts[k].Held? && IsBuf(s, s.acts[k].b) && FreeToCall(s, k)
    requires !s.bufs[s.acts[k].b].uptodate && s.bufs[s.acts[k].b].io.Idle?
    ensures Step(s, NOBODY, FillStart(k), Filled(s, k), NOBODY)
  {
  }

  function ReadIn(s: State, b: int): State
    requires IsBuf(s, b)
  {
    s.(bufs := s.bufs[b := s.bufs[b].(uptodate := true, dirt := false, data := Get(s.disk, s.bufs[b].id), io := Idle)])
  }

  lemma ReadStep(s: State, b: int)
    requires IsBuf(s, b) && s.bufs[b].io == Reading
    ensures Step(s, NOBODY, Finish(b), ReadIn(s, b), NOBODY)
  {
  }

  function Resumed(s: State, k: int): State
    requires IsAct(s, k) && s.acts[k].Filling?
  {
    s.(acts := s.acts[k := Held(s.acts[k].id, s.acts[k].b)])
  }

  lemma ResumeStep(s: State, k: int)
    requires IsAct(s, k) && s.acts[k].Filling? && IsBuf(s, s.acts[k].b) && s.bufs[s.acts[k].b].io.Idle?
    ensures Step(s, NOBODY, FillWake(k), Resumed(s, k), NOBODY)
  {
  }

  /** getblk for a block that is not cached, on a ring whose first unused buffer is clean. */
  lemma Obtains(s0: State, s: State, t: int, id: Id, ring: seq<int>, j: int)
    requires Reached(s0, s, NOBODY) && id.dev != 0 && 0 <= t < s.tasks && Free(s, t) && !Cached(s, id)
    requires FirstUnused(s, ring, j) && |ring| >= 2 && s.bufs[ring[j]].io.Idle? && !s.bufs[ring[j]].dirt
    requires Queued(s.bufs[ring[j]])
    ensures Reached(s0, Acquired(s, t, id, ring[j]), NOBODY)
    ensures RingIs(Acquired(s, t, id, ring[j]), Without(ring, j) + [ring[j]])
  {
    CallsFirst(s, t, id, ring, j);
    Acquires(s0, s, t, id, ring[j]);
    AcquiredRing(s, t, id, ring, j);
  }

  // ------------------------------------------------------------------ the run

  const FOUR := Id(1, 4)
  const FIVE := Id(1, 5)
  const SIX := Id(1, 6)
  const EIGHT := Id(1, 8)

  function Clean(id: Id, count: int): Buf { Buf(id, false, false, count, [], QUEUED, Idle) }

  function Dirty(id: Id, count: int, data: Block): Buf { Buf(id, true, true, count, data, QUEUED, Idle) }

  /** Three buffers, two tasks. */
  ghost predicate Is(s: State, bufs: seq<Buf>, acts: seq<Act>, owner: seq<int>) {
    s.tasks == 2 && |bufs| == 3 && s.bufs == bufs && s.acts == acts && s.owner == owner
  }

  lemma Without3(a: int, b: int, c: int)
    ensures Without([a, b, c], 0) + [a] == [b, c, a] && Without([a, b, c], 1) == [a, c]
  {
  }

  ghost predicate Started(s: State) {
    Is(s, [EmptyBuf(), EmptyBuf(), EmptyBuf()], [], []) && RingIs(s, [0, 1, 2]) && s.disk == map[] && s.store == map[]
  }

  lemma Starts(f: Id -> int)
    requires IsHash(f)
    ensures var s0 := Initial(f, 3, 2, map[]); Started(s0) && Reached(s0, s0, NOBODY)
  {
    var s0 := Initial(f, 3, 2, map[]);
    InitialRingIs(f, 3, 2, map[]);
    assert [0, 1, 2] == Counting(3);
    assert s0.bufs == [EmptyBuf(), EmptyBuf(), EmptyBuf()];
    assert Real(s0, [], s0, NOBODY);
  }

  // ------------------------------------------------------------------ task 0 holds block 4, modified

  ghost predicate HasFour(s: State) {
    && Is(s, [Dirty(FOUR, 1, [4]), EmptyBuf(), EmptyBuf()], [Held(FOUR, 0)], [0])
    && RingIs(s, [1, 2, 0]) && s.disk == map[] && s.store == map[FOUR := [4]]
  }

  lemma FourFirst(s: State)
    requires Started(s)
    ensures FirstUnused(s, [0, 1, 2], 0) && !Cached(s, FOUR) && Free(s, 0)
  {
    forall c ensures !Carries(s, c, FOUR) { }
  }

  lemma GetsFour(s0: State, s: State) returns (s': State)
    requires Reached(s0, s, NOBODY) && Started(s)
    ensures Reached(s0, s', NOBODY) && HasFour(s')
  {
    FourFirst(s);
    Obtains(s0, s, 0, FOUR, [0, 1, 2], 0);
    Without3(0, 1, 2);
    var a := Acquired(s, 0, FOUR, 0);
    Stores(s0, a, 0, [4]);
    s' := Stored(a, 0, [4]);
    FrameRing(a, s', [1, 2, 0]);
    assert s'.bufs == [Dirty(FOUR, 1, [4]), EmptyBuf(), EmptyBuf()];
  }

  // ------------------------------------------------------------------ block 5, modified and let go

  ghost predicate HasFive(s: State) {
    && Is(s, [Dirty(FOUR, 1, [4]), Dirty(FIVE, 0, [7]), EmptyBuf()], [Held(FOUR, 0), Done], [0, 0])
    && RingIs(s, [2, 0, 1]) && s.disk == map[] && s.store == map[FOUR := [4], FIVE := [7]]
  }

  lemma FiveFirst(s: State)
    requires HasFour(s)
    ensures FirstUnused(s, [1, 2, 0], 0) && !Cached(s, FIVE) && Free(s, 0)
  {
    forall c ensures !Carries(s, c, FIVE) { }
  }

  lemma GetsFive(s0: State, s: State) returns (s': State)
    requires Reached(s0, s, NOBODY) && HasFour(s)
    ensures Reached(s0, s', NOBODY) && HasFive(s')
  {
    FiveFirst(s);
    Obtains(s0, s, 0, FIVE, [1, 2, 0], 0);
    Without3(1, 2, 0);
    var a := Acquired(s, 0, FIVE, 1);
    Stores(s0, a, 1, [7]);
    var b := Stored(a, 1, [7]);
    Lets(s0, b, 1);
    s' := Let(b, 1);
    FrameRing(a, s', [2, 0, 1]);
    assert s'.bufs == [Dirty(FOUR, 1, [4]), Dirty(FIVE, 0, [7]), EmptyBuf()];
    assert s'.acts == [Held(FOUR, 0), Done];
  }

  // ------------------------------------------------------------------ the third buffer, used and clean

  ghost predicate HasEight(s: State) {
    && Is(s, [Dirty(FOUR, 1, [4]), Dirty(FIVE, 0, [7]), Clean(EIGHT, 0)], [Held(FOUR, 0), Done, Done], [0, 0, 0])
    && RingIs(s, [0, 1, 2]) && s.disk == map[] && s.store == map[FOUR := [4], FIVE := [7]]
  }

  lemma EightFirst(s: State)
    requires HasFive(s)
    ensures FirstUnused(s, [2, 0, 1], 0) && !Cached(s, EIGHT) && Free(s, 0)
  {
    forall c ensures !Carries(s, c, EIGHT) { }
  }

  lemma GetsEight(s0: State, s: State) returns (s': State)
    requires Reached(s0, s, NOBODY) && HasFive(s)
    ensures Reached(s0, s', NOBODY) && HasEight(s')
  {
    EightFirst(s);
    Obtains(s0, s, 0, EIGHT, [2, 0, 1], 0);
    Without3(2, 0, 1);
    var a := Acquired(s, 0, EIGHT, 2);
    Lets(s0, a, 2);
    s' := Let(a, 2);
    FrameRing(a, s', [0, 1, 2]);
    assert s'.bufs == [Dirty(FOUR, 1, [4]), Dirty(FIVE, 0, [7]), Clean(EIGHT, 0)];
    assert s'.acts == [Held(FOUR, 0), Done, Done];
  }

  // ------------------------------------------------------------------ block 5 is evicted for block 6

  ghost predicate Evicts(s: State) {
    && Is(s, [Dirty(FOUR, 1, [4]).(io := Writing(false)), Dirty(FIVE, 1, [7]).(taker := 3), Clean(EIGHT, 0)],
          [Held(FOUR, 0), Done, Done, Evict(SIX, 1, 0, true)], [0, 0, 0, 0])
    && RingIs(s, [0, 2]) && s.disk == map[] && s.store == map[FOUR := [4], FIVE := [7]]
  }

  lemma SixFirst(s: State)
    requires HasEight(s)
    ensures FirstUnused(s, [0, 1, 2], 1) && !Cached(s, SIX) && Free(s, 0)
  {
    forall c ensures !Carries(s, c, SIX) { }
  }

  /** sync_dev comes to buffer 0 first and sleeps until it is written. */
  lemma TakesFive(s0: State, s: State) returns (s': State)
    requires Reached(s0, s, NOBODY) && HasEight(s)
    ensures Reached(s0, s', NOBODY) && Evicts(s')
  {
    SixFirst(s);
    CallsFirst(s, 0, SIX, [0, 1, 2], 1);
    Takes(s0, s, 0, SIX, 1);
    var a := TakenAt(s, 0, SIX, 1, 0);
    Without3(0, 1, 2);
    FiveLeaves(s, a);
    StartsWrite(s0, a, 3, 0);
    s' := WritingAt(a, 3, 0);
    FrameRing(a, s', [0, 2]);
    assert s'.bufs == [Dirty(FOUR, 1, [4]).(io := Writing(false)), Dirty(FIVE, 1, [7]).(taker := 3), Clean(EIGHT, 0)];
    assert s'.acts == [Held(FOUR, 0), Done, Done, Evict(SIX, 1, 0, true)];
  }

  lemma FiveLeaves(s: State, a: State)
    requires HasEight(s) && a == TakenAt(s, 0, SIX, 1, 0)
    ensures RingIs(a, [0, 2])
  {
    Without3(0, 1, 2);
    LeaveRing(s, a, [0, 1, 2], 1);
  }

  // ------------------------------------------------------------------ task 1 reads block 5

  ghost predicate Rereads(s: State) {
    && Is(s, [Dirty(FOUR, 1, [4]).(io := Writing(false)), Dirty(FIVE, 1, [7]).(taker := 3), Clean(FIVE, 1)],
          [Held(FOUR, 0), Done, Done, Evict(SIX, 1, 0, true), Held(FIVE, 2)], [0, 0, 0, 0, 1])
    && s.disk == map[] && s.store == map[FOUR := [4], FIVE := [7]]
  }

  lemma FiveAgain(s: State)
    requires Evicts(s)
    ensures FirstUnused(s, [0, 2], 1) && !Cached(s, FIVE) && Free(s, 1)
  {
    forall c ensures !Carries(s, c, FIVE) { }
  }

  lemma GetsFiveAgain(s0: State, s: State) returns (s': State)
    requires Reached(s0, s, NOBODY) && Evicts(s)
    ensures Reached(s0, s', NOBODY) && Rereads(s')
  {
    FiveAgain(s);
    Obtains(s0, s, 1, FIVE, [0, 2], 1);
    s' := Acquired(s, 1, FIVE, 2);
    assert s'.bufs == [Dirty(FOUR, 1, [4]).(io := Writing(false)), Dirty(FIVE, 1, [7]).(taker := 3), Clean(FIVE, 1)];
  }

  /** The disk serves the write of block 4 and then the read of block 5. */
  function Outcome(s: State): State
    requires Rereads(s)
  {
    Resumed(ReadIn(Written(Filled(s, 4), 0), 2), 4)
  }

  lemma ReadsStale(s0: State, s: State)
    requires Reached(s0, s, NOBODY) && Rereads(s)
    ensures Reached(s0, Outcome(s), NOBODY)
  {
    var a := Filled(s, 4);
    FillStep(s, 4);
    ReachStep(s0, s, NOBODY, FillStart(4), a, NOBODY);
    Writes(s0, a, NOBODY, 0);
    var b := Written(a, 0);
    ReadStep(b, 2);
    ReachStep(s0, b, NOBODY, Finish(2), ReadIn(b, 2), NOBODY);
    ResumeStep(ReadIn(b, 2), 4);
    ReachStep(s0, ReadIn(b, 2), NOBODY, FillWake(4), Outcome(s), NOBODY);
  }

  /** So bread can return old contents: the task that has read block 5 holds an up-to-date buffer of it, which
      is not what was last stored there. */
  lemma StaleReadHappens(f: Id -> int) returns (s: State)
    requires IsHash(f)
    ensures Reached(Initial(f, 3, 2, map[]), s, NOBODY) && |s.acts| == 5 && |s.bufs| == 3
    ensures s.acts[4] == Held(FIVE, 2) && s.bufs[2].uptodate && s.bufs[2].id == FIVE
    ensures s.bufs[2].data != Get(s.store, FIVE)
  {
    var s0 := Initial(f, 3, 2, map[]);
    Starts(f);
    var a := GetsFour(s0, s0);
    var b := GetsFive(s0, a);
    var c := GetsEight(s0, b);
    var d := TakesFive(s0, c);
    var e := GetsFiveAgain(s0, d);
    ReadsStale(s0, e);
    s := Outcome(e);
  }
}

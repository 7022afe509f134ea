/**
  The links of the buffer cache under every interleaving: the free ring stays one cycle of exactly the queued
  buffers as long as no buffer is taken off a ring of one, which cannot happen with fewer tasks than buffers.
 */
module BufferRing {
  import opened Common
  import opened BufferLists
  import opened BufferQueues
  import opened BufferIds
  import opened BufferProtocol

  ghost function HomesOf(s: State): (r: seq<int>)
    ensures |r| == |s.bufs| && forall b :: 0 <= b < |s.bufs| ==> r[b] == HomeOf(s.f, s.bufs[b].id)
  {
    seq(|s.bufs|, b requires 0 <= b < |s.bufs| => HomeOf(s.f, s.bufs[b].id))
  }

  ghost predicate AllOnRing(s: State, ring: seq<int>) { forall b :: IsBuf(s, b) ==> (Queued(s.bufs[b]) <==> b in ring) }

  /** The links are one cycle of exactly the queued buffers, in this order from free_list on, and a chain per
      hash value. */
  ghost predicate RingIs(s: State, ring: seq<int>) {
    IsHash(s.f) && AllOnRing(s, ring) && exists chains :: Linked(s.links, HomesOf(s), Shape(ring, chains))
  }

  ghost predicate RingInv(s: State) { exists ring :: RingIs(s, ring) }

  // ------------------------------------------------------------------ following the ring

  /** Where k steps along b_next_free lead. */
  function Follow(nf: seq<int>, b: int, k: nat): int {
    if k == 0 then b else var c := Follow(nf, b, k - 1); if 0 <= c < |nf| then nf[c] else NIL
  }

  /** Buffer b is found by following b_next_free from free_list, as getblk's scan does. */
  ghost predicate OnRing(l: Links, b: int) { exists k: nat :: Follow(l.nf, l.freeList, k) == b }

  lemma {:induction false} FollowsRing(nf: seq<int>, pf: seq<int>, ring: seq<int>, k: nat)
    requires Ring(nf, pf, ring) && k < |ring|
    ensures Follow(nf, ring[0], k) == ring[k]
  {
    if k > 0 {
      FollowsRing(nf, pf, ring, k - 1);
      assert RingAt(nf, pf, ring, k - 1);
    }
  }

  /** Every unused buffer is on the free ring. */
  ghost predicate UnusedOnRing(s: State) { forall b :: IsBuf(s, b) && s.bufs[b].count == 0 ==> OnRing(s.links, b) }

  lemma QueuedReached(s: State, b: int)
    requires RingInv(s) && IsBuf(s, b) && Queued(s.bufs[b])
    ensures OnRing(s.links, b)
  {
    var ring :| RingIs(s, ring);
    var chains :| Linked(s.links, HomesOf(s), Shape(ring, chains));
    var k := At(ring, b);
    FollowsRing(s.links.nf, s.links.pf, ring, k);
  }

  lemma UnusedReached(s: State)
    requires Inv(s) && RingInv(s)
    ensures UnusedOnRing(s)
  {
    forall b | IsBuf(s, b) && s.bufs[b].count == 0 ensures OnRing(s.links, b) {
      UnusedIsQueued(s, b);
      QueuedReached(s, b);
    }
  }

  // ------------------------------------------------------------------ steps

  /** Steps that change no link, no identity and no place. */
  lemma FrameRing(s: State, s': State, ring: seq<int>)
    requires RingIs(s, ring) && s'.f == s.f && s'.links == s.links && |s'.bufs| == |s.bufs|
    requires forall b :: IsBuf(s, b) ==> s'.bufs[b].id == s.bufs[b].id && s'.bufs[b].taker == s.bufs[b].taker
    ensures RingIs(s', ring)
  {
    assert HomesOf(s') == HomesOf(s);
    forall b | IsBuf(s', b) ensures Queued(s'.bufs[b]) <==> b in ring { assert IsBuf(s, b); }
  }

  lemma AtIs(ring: seq<int>, j: int)
    requires 0 <= j < |ring| && Distinct(ring)
    ensures At(ring, ring[j]) == j
  {
  }

  /** From s to s' buffer b has left the queues; the links follow remove_from_queues. */
  ghost predicate Leaves(s: State, s': State, b: int) {
    && IsBuf(s, b) && s'.f == s.f && |s'.bufs| == |s.bufs|
    && s'.links == Unlinked(s.links, HomeOf(s.f, s.bufs[b].id), b)
    && (forall c :: IsBuf(s, c) ==> s'.bufs[c].id == s.bufs[c].id)
    && (forall c :: IsBuf(s, c) ==> (Queued(s'.bufs[c]) <==> Queued(s.bufs[c]) && c != b))
  }

  /** Taking a buffer off a ring of two or more. */
  lemma LeaveRing(s: State, s': State, ring: seq<int>, j: int)
    requires RingIs(s, ring) && |ring| >= 2 && 0 <= j < |ring| && Leaves(s, s', ring[j])
    ensures RingIs(s', Without(ring, j))
  {
    var b := ring[j];
    var chains :| Linked(s.links, HomesOf(s), Shape(ring, chains));
    var sh, home := Shape(ring, chains), HomesOf(s);
    assert b in ring;
    RemoveKeeps(s.links, home, sh, b);
    AtIs(ring, j);
    assert HomesOf(s') == home;
    assert Linked(s'.links, home, Shape(Without(ring, j), Removed(sh, home, b).chains));
    LeaveAll(s, s', ring, j);
  }

  lemma LeaveAll(s: State, s': State, ring: seq<int>, j: int)
    requires AllOnRing(s, ring) && 0 <= j < |ring| && Leaves(s, s', ring[j])
    requires Distinct(ring) && InRange(ring, |s.bufs|)
    ensures AllOnRing(s', Without(ring, j))
  {
    WithoutDistinct(ring, j, |s.bufs|);
    forall c | IsBuf(s', c) ensures Queued(s'.bufs[c]) <==> c in Without(ring, j) { assert IsBuf(s, c); }
  }

  /** From s to s' buffer b has come back, perhaps under another name. */
  ghost predicate Enters(s: State, s': State, b: int) {
    && IsBuf(s, b) && s'.f == s.f && |s'.bufs| == |s.bufs| && !Queued(s.bufs[b])
    && s'.links == Relinked(s.links, HomeOf(s.f, s'.bufs[b].id), b)
    && (forall c :: IsBuf(s, c) && c != b ==> s'.bufs[c].id == s.bufs[c].id)
    && (forall c :: IsBuf(s, c) ==> (Queued(s'.bufs[c]) <==> Queued(s.bufs[c]) || c == b))
  }

  lemma EnterRing(s: State, s': State, ring: seq<int>, b: int)
    requires RingIs(s, ring) && Enters(s, s', b)
    ensures RingIs(s', ring + [b])
  {
    var chains :| Linked(s.links, HomesOf(s), Shape(ring, chains));
    var sh, h := Shape(ring, chains), HomeOf(s'.f, s'.bufs[b].id);
    var home := HomesOf(s)[b := h];
    RenameKeeps(s.links, HomesOf(s), sh, b, h);
    assert HomesOf(s') == home;
    InsertKeeps(s.links, home, sh, b);
    assert Linked(s'.links, home, Shape(ring + [b], Inserted(sh, home, b).chains));
    forall c | IsBuf(s', c) ensures Queued(s'.bufs[c]) <==> c in ring + [b] { assert IsBuf(s, c); }
  }

  lemma TakeRing(s: State, k: int, ring: seq<int>, j: int)
    requires RingIs(s, ring) && Enabled(s, Take(k)) && |ring| >= 2 && 0 <= j < |ring| && ring[j] == s.acts[k].b
    requires Inv(s)
    ensures RingIs(Apply(s, Take(k)), Without(ring, j))
  {
    UnusedIsQueued(s, ring[j]);
    TakeLeaves(s, k);
    LeaveRing(s, Apply(s, Take(k)), ring, j);
  }

  lemma TakeLeaves(s: State, k: int)
    requires Enabled(s, Take(k)) && IsAct(s, k)
    ensures Leaves(s, Apply(s, Take(k)), s.acts[k].b)
  {
  }

  /** Putting a taken buffer back, under whatever name. */
  lemma InstallRing(s: State, k: int, ring: seq<int>)
    requires Inv(s) && RingIs(s, ring) && Enabled(s, Install(k))
    ensures RingIs(Apply(s, Install(k)), ring + [s.acts[k].b])
  {
    assert ActOk(s, k);
    EnterRing(s, Apply(s, Install(k)), ring, s.acts[k].b);
  }

  /** Every step but a Take from a ring of one keeps the ring. */
  lemma StepRing(s: State, l: Label, ring: seq<int>)
    requires Inv(s) && RingIs(s, ring) && Enabled(s, l) && (l.Take? ==> |ring| >= 2)
    ensures RingInv(Apply(s, l))
  {
    match l
    case Take(k) =>
      UnusedIsQueued(s, s.acts[k].b);
      TakeRing(s, k, ring, At(ring, s.acts[k].b));
    case Install(k) => InstallRing(s, k, ring);
    case _ => FrameStep(s, l, ring);
  }

  lemma FrameStep(s: State, l: Label, ring: seq<int>)
    requires RingIs(s, ring) && Enabled(s, l) && !l.Take? && !l.Install?
    ensures RingIs(Apply(s, l), ring)
  {
    var s' := Apply(s, l);
    assert s'.links == s.links && s'.f == s.f && |s'.bufs| == |s.bufs|;
    FrameRing(s, s', ring);
  }

  /** Taking a buffer keeps the ring a cycle of the queued buffers if and only if another buffer is queued:
      off a ring of one, remove_from_queues leaves free_list at the buffer just taken. */
  lemma TakeKeepsRing(s: State, k: int)
    requires Inv(s) && RingInv(s) && Enabled(s, Take(k))
    ensures RingInv(Apply(s, Take(k))) <==> exists c :: IsBuf(s, c) && c != s.acts[k].b && Queued(s.bufs[c])
  {
    var s', b := Apply(s, Take(k)), s.acts[k].b;
    UnusedIsQueued(s, b);
    var ring :| RingIs(s, ring);
    if c :| IsBuf(s, c) && c != b && Queued(s.bufs[c]) {
      assert b in ring && c in ring;
      var i, j := At(ring, b), At(ring, c);
      StepRing(s, Take(k), ring);
    } else if RingInv(s') {
      var r :| RingIs(s', r);
      var chains :| Linked(s'.links, HomesOf(s'), Shape(r, chains));
      assert r[0] in r && IsBuf(s', r[0]);
      assert false;
    }
  }

  // ------------------------------------------------------------------ tasks

  /** Every activity belongs to a task, and no task is inside two calls at once. */
  ghost predicate TaskInv(s: State) {
    && |s.owner| == |s.acts| && (forall k :: IsAct(s, k) ==> 0 <= s.owner[k] < s.tasks)
    && forall j, k ::
         IsAct(s, j) && IsAct(s, k) && InCall(s.acts[j]) && InCall(s.acts[k]) && s.owner[j] == s.owner[k] ==> j == k
  }

  /** Activity k alone moves, into getblk or bread only when its task is free for a call. */
  ghost predicate OneMoves(s: State, s': State, k: int) {
    && IsAct(s, k) && s'.owner == s.owner && s'.tasks == s.tasks && |s'.bufs| == |s.bufs|
    && |s'.acts| == |s.acts| && s'.acts == s.acts[k := s'.acts[k]]
    && (InCall(s'.acts[k]) ==> InCall(s.acts[k]) || FreeToCall(s, k))
  }

  lemma StepMoves(s: State, l: Label)
    requires Enabled(s, l) && !l.Start? && !l.WriteBack? && !l.Serve? && !l.Finish?
    ensures OneMoves(s, Apply(s, l), l.k)
  {
  }

  lemma ActTasks(s: State, s': State, k: int)
    requires TaskInv(s) && OneMoves(s, s', k)
    ensures TaskInv(s')
  {
    forall i, j | IsAct(s', i) && IsAct(s', j) && InCall(s'.acts[i]) && InCall(s'.acts[j]) && s'.owner[i] == s'.owner[j]
      ensures i == j
    {
      assert IsAct(s, i) && IsAct(s, j);
    }
  }

  lemma StartTasks(s: State, t: int, id: Id)
    requires TaskInv(s) && Enabled(s, Start(t, id))
    ensures TaskInv(Apply(s, Start(t, id)))
  {
  }

  lemma StepTasks(s: State, l: Label)
    requires TaskInv(s) && Enabled(s, l)
    ensures TaskInv(Apply(s, l)) && Apply(s, l).tasks == s.tasks && |Apply(s, l).bufs| == |s.bufs|
  {
    if l.Start? { StartTasks(s, l.t, l.id); }
    else if l.WriteBack? || l.Serve? || l.Finish? { assert Apply(s, l).acts == s.acts && Apply(s, l).owner == s.owner; }
    else {
      StepMoves(s, l);
      ActTasks(s, Apply(s, l), l.k);
    }
  }

  /** With fewer tasks than buffers a task that takes a buffer finds another one queued: every buffer off the
      queues has its own task inside getblk. */
  lemma AnotherQueued(s: State, k: int) returns (c: int)
    requires Inv(s) && TaskInv(s) && s.tasks < |s.bufs| && Enabled(s, Take(k))
    ensures IsBuf(s, c) && c != s.acts[k].b && Queued(s.bufs[c])
  {
    var b := s.acts[k].b;
    if x :| IsBuf(s, x) && x != b && Queued(s.bufs[x]) {
      c := x;
    } else {
      NoneQueued(s, k);
      assert false;
    }
  }

  function TakerTask(s: State, x: int): int {
    if IsBuf(s, x) && IsAct(s, s.bufs[x].taker) && s.bufs[x].taker < |s.owner| then s.owner[s.bufs[x].taker] else NIL
  }

  lemma TakerInCall(s: State, x: int)
    requires Inv(s) && TaskInv(s) && IsBuf(s, x) && !Queued(s.bufs[x])
    ensures IsAct(s, s.bufs[x].taker) && s.acts[s.bufs[x].taker].Evict? && s.acts[s.bufs[x].taker].b == x
    ensures 0 <= TakerTask(s, x) < s.tasks && TakerTask(s, x) == s.owner[s.bufs[x].taker]
  {
    assert BufOk(s, x);
  }

  ghost predicate OthersTaken(s: State, b: int) {
    Inv(s) && TaskInv(s) && forall x :: IsBuf(s, x) && x != b ==> !Queued(s.bufs[x])
  }

  /** The tasks that have taken buffers below m, other than b. */
  ghost function Takers(s: State, b: int, m: nat): set<int> {
    if m == 0 then {} else Takers(s, b, m - 1) + (if m - 1 != b then {TakerTask(s, m - 1)} else {})
  }

  lemma {:induction false} TakerOf(s: State, b: int, m: nat, t: int) returns (x: int)
    requires t in Takers(s, b, m)
    ensures 0 <= x < m && x != b && TakerTask(s, x) == t
  {
    if m - 1 != b && t == TakerTask(s, m - 1) { x := m - 1; } else { x := TakerOf(s, b, m - 1, t); }
  }

  lemma TakersDiffer(s: State, b: int, m: nat)
    requires OthersTaken(s, b) && 0 < m <= |s.bufs| && m - 1 != b
    ensures TakerTask(s, m - 1) !in Takers(s, b, m - 1)
  {
    if TakerTask(s, m - 1) in Takers(s, b, m - 1) {
      var x := TakerOf(s, b, m - 1, TakerTask(s, m - 1));
      TakerInCall(s, x);
      TakerInCall(s, m - 1);
      assert false;
    }
  }

  lemma {:induction false} TakersCard(s: State, b: int, m: nat)
    requires OthersTaken(s, b) && m <= |s.bufs|
    ensures |Takers(s, b, m)| == m - (if 0 <= b < m then 1 else 0)
  {
    if m > 0 {
      TakersCard(s, b, m - 1);
      if m - 1 != b { TakersDiffer(s, b, m); }
    }
  }

  function UpTo(n: nat): (r: set<int>)
    ensures |r| == n && forall x :: x in r <==> 0 <= x < n
  {
    if n == 0 then {} else UpTo(n - 1) + {n - 1}
  }

  lemma Bounded(u: set<int>, n: nat, t: int)
    requires 0 <= t < n && forall x :: x in u ==> 0 <= x < n && x != t
    ensures |u| <= n - 1
  {
    var v := UpTo(n) - {t};
    assert u <= v;
    assert v == u + (v - u);
  }

  lemma NoneQueued(s: State, k: int)
    requires Enabled(s, Take(k)) && OthersTaken(s, s.acts[k].b)
    ensures |s.bufs| <= s.tasks
  {
    var b, t := s.acts[k].b, s.owner[k];
    var u := Takers(s, b, |s.bufs|);
    forall x | x in u ensures 0 <= x < s.tasks && x != t {
      var y := TakerOf(s, b, |s.bufs|, x);
      TakerInCall(s, y);
    }
    TakersCard(s, b, |s.bufs|);
    Bounded(u, s.tasks, t);
  }

  // ------------------------------------------------------------------ runs

  ghost predicate AllInv(s: State) { Inv(s) && TaskInv(s) && RingInv(s) }

  lemma InitialAll(f: Id -> int, n: nat, tasks: nat, disk: map<Id, Block>)
    requires IsHash(f) && n >= 2
    ensures AllInv(Initial(f, n, tasks, disk)) && RingIs(Initial(f, n, tasks, disk), Counting(n))
  {
    InitialInv(f, n, tasks, disk);
    InitialRingIs(f, n, tasks, disk);
  }

  lemma InitialRingIs(f: Id -> int, n: nat, tasks: nat, disk: map<Id, Block>)
    requires IsHash(f) && n >= 2
    ensures RingIs(Initial(f, n, tasks, disk), Counting(n))
  {
    var s := Initial(f, n, tasks, disk);
    var home := HomesOf(s);
    InitialLinked(n, home);
    assert InitialShape(n) == Shape(Counting(n), NoChains());
    forall b | IsBuf(s, b) ensures Queued(s.bufs[b]) <==> b in Counting(n) { assert Counting(n)[b] == b; }
  }

  lemma StepAll(s: State, l: Label)
    requires AllInv(s) && s.tasks < |s.bufs| && Enabled(s, l)
    ensures AllInv(Apply(s, l)) && Apply(s, l).tasks == s.tasks && |Apply(s, l).bufs| == |s.bufs|
  {
    StepKeeps(s, l);
    StepTasks(s, l);
    var ring :| RingIs(s, ring);
    if l.Take? {
      var c := AnotherQueued(s, l.k);
      TakeKeepsRing(s, l.k);
    } else {
      StepRing(s, l, ring);
    }
  }

  lemma {:induction false} ExecAll(s: State, ls: seq<Label>)
    requires AllInv(s) && s.tasks < |s.bufs|
    ensures AllInv(Exec(s, ls)) && Exec(s, ls).tasks == s.tasks && |Exec(s, ls).bufs| == |s.bufs|
    decreases |ls|
  {
    if ls != [] {
      ExecAll(s, ls[..|ls| - 1]);
      var before := Exec(s, ls[..|ls| - 1]);
      if Enabled(before, ls[|ls| - 1]) { StepAll(before, ls[|ls| - 1]); }
    }
  }

  /** Over every run with fewer tasks than buffers: one queued carrier per block, the ring one cycle of the
      queued buffers, every unused buffer on it, holders' buffers theirs. */
  lemma Safety(f: Id -> int, n: nat, tasks: nat, disk: map<Id, Block>, ls: seq<Label>)
    requires IsHash(f) && n >= 2 && tasks < n
    ensures var s := Exec(Initial(f, n, tasks, disk), ls);
            && OneCarrier(s) && RingInv(s) && UnusedOnRing(s)
            && (forall k :: IsAct(s, k) && s.acts[k].Held? ==> Carries(s, s.acts[k].b, s.acts[k].id))
  {
    InitialAll(f, n, tasks, disk);
    ExecAll(Initial(f, n, tasks, disk), ls);
    var s := Exec(Initial(f, n, tasks, disk), ls);
    UnusedReached(s);
    forall k | IsAct(s, k) && s.acts[k].Held? ensures Carries(s, s.acts[k].b, s.acts[k].id) { assert ActOk(s, k); }
  }
}

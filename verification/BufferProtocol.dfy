/**
  getblk and its users as a state machine over the points where they may sleep (fs/buffer.c:37-223). An
  activity is one acquisition of a buffer, from the lookup to the brelse; a task may hold many buffers but is
  inside at most one call at a time. A disk transfer has three steps: the request locks the buffer, the disk
  takes or brings the data, and the interrupt at the end clears b_dirt and unlocks. Which unused buffer is
  chosen and which woken task runs first are left open.
 */
module BufferProtocol {
  import opened Common
  import opened BufferLists
  import opened BufferQueues
  import opened BufferIds

  const QUEUED := -1

  datatype Io = Idle | Reading | Writing(sent: bool)

  /** A buffer; `taker` is the activity that has taken it off the queues, or QUEUED. */
  datatype Buf = Buf(id: Id, uptodate: bool, dirt: bool, count: int, data: Block, taker: int, io: Io)

  datatype Act =
    | Done
    | Want(id: Id)                                // at `repeat`, or asleep on buffer_wait
    | Hit(id: Id, b: int)                         // in get_hash_table, b_count raised, waiting
    | Cand(id: Id, b: int)                        // waiting on an unused buffer
    | Evict(id: Id, b: int, i: int, busy: bool)   // off the queues, in sync_dev at buffer i, writing it or not
    | Held(id: Id, b: int)                        // getblk or bread has returned b
    | Filling(id: Id, b: int)                     // in bread, waiting for the READ
    | Drop(b: int)                                // in brelse, waiting

  datatype State = State(f: Id -> int, tasks: nat, bufs: seq<Buf>, acts: seq<Act>, owner: seq<int>,
                         disk: map<Id, Block>, store: map<Id, Block>, links: Links)

  datatype Label =
    | Start(t: int, id: Id)
    | Lookup(k: int, b: int)              // b carries the block and is queued
    | Scan(k: int, b: int)                // nothing queued carries it; b is an unused candidate
    | Rescan(k: int, b: int)              // the candidate was taken meanwhile; try another
    | GiveUp(k: int)                      // no candidate left: sleep on buffer_wait
    | HitWakes(k: int)
    | Take(k: int)
    | SyncSkip(k: int, j: int)            // nothing to write from here to buffer j
    | SyncStart(k: int)                   // ll_rw_block WRITE on buffer i
    | SyncWake(k: int)
    | Install(k: int)
    | FillStart(k: int)                   // ll_rw_block READ
    | FillWake(k: int)
    | Store(k: int, data: Block)
    | Release(k: int)
    | Dropped(k: int)
    | WriteBack(b: int)                   // ll_rw_block WRITE in sys_sync
    | Serve(b: int)                       // the disk takes the data of a WRITE
    | Finish(b: int)                      // the interrupt that ends a request

  predicate HasRef(a: Act, b: int) { (a.Hit? || a.Evict? || a.Held? || a.Filling? || a.Drop?) && a.b == b }

  /** Inside a call to the cache. */
  predicate InCall(a: Act) { !a.Done? && !a.Held? }

  predicate Queued(x: Buf) { x.taker == QUEUED }

  predicate Carries(s: State, b: int, id: Id) { 0 <= b < |s.bufs| && Queued(s.bufs[b]) && s.bufs[b].id == id }

  ghost predicate Cached(s: State, id: Id) { exists b :: Carries(s, b, id) }

  predicate IsAct(s: State, k: int) { 0 <= k < |s.acts| }

  predicate IsBuf(s: State, b: int) { 0 <= b < |s.bufs| }

  /** Task t is not inside any call. */
  ghost predicate Free(s: State, t: int) {
    forall k :: 0 <= k < |s.acts| && k < |s.owner| && s.owner[k] == t ==> !InCall(s.acts[k])
  }

  ghost predicate FreeToCall(s: State, k: int) { 0 <= k < |s.owner| && Free(s, s.owner[k]) }

  /** sync_dev for the device of buffer b passes over buffer i. */
  predicate Skips(s: State, b: int, i: int)
    requires IsBuf(s, b) && IsBuf(s, i)
  {
    s.bufs[i].id.dev != s.bufs[b].id.dev || (!s.bufs[i].dirt && s.bufs[i].io.Idle?)
  }

  ghost predicate Enabled(s: State, l: Label) {
    match l
    case Start(t, id) => id.dev != 0 && 0 <= t < s.tasks && Free(s, t)
    case Lookup(k, b) => IsAct(s, k) && s.acts[k].Want? && Carries(s, b, s.acts[k].id)
    case Scan(k, b) => IsAct(s, k) && s.acts[k].Want? && !Cached(s, s.acts[k].id) && IsBuf(s, b) && s.bufs[b].count == 0
    case Rescan(k, b) => IsAct(s, k) && s.acts[k].Cand? && IsBuf(s, b) && s.bufs[b].count == 0
    case GiveUp(k) => IsAct(s, k) && s.acts[k].Cand?
    case HitWakes(k) => IsAct(s, k) && s.acts[k].Hit? && IsBuf(s, s.acts[k].b) && s.bufs[s.acts[k].b].io.Idle?
    case Take(k) =>
      IsAct(s, k) && s.acts[k].Cand? && IsBuf(s, s.acts[k].b) && s.bufs[s.acts[k].b].count == 0 &&
        s.bufs[s.acts[k].b].io.Idle?
    case SyncSkip(k, j) =>
      && IsAct(s, k) && s.acts[k].Evict? && IsBuf(s, s.acts[k].b) && !s.acts[k].busy
      && 0 <= s.acts[k].i < j <= |s.bufs| && forall i :: s.acts[k].i <= i < j ==> Skips(s, s.acts[k].b, i)
    case SyncStart(k) =>
      && IsAct(s, k) && s.acts[k].Evict? && IsBuf(s, s.acts[k].b) && !s.acts[k].busy && IsBuf(s, s.acts[k].i)
      && s.bufs[s.acts[k].i].dirt && s.bufs[s.acts[k].i].io.Idle?
    case SyncWake(k) =>
      && IsAct(s, k) && s.acts[k].Evict? && IsBuf(s, s.acts[k].b) && s.acts[k].busy && IsBuf(s, s.acts[k].i)
      && s.bufs[s.acts[k].i].io.Idle?
    case Install(k) => IsAct(s, k) && s.acts[k].Evict? && IsBuf(s, s.acts[k].b) && s.acts[k].i == |s.bufs|
    case FillStart(k) =>
      && IsAct(s, k) && s.acts[k].Held? && IsBuf(s, s.acts[k].b) && FreeToCall(s, k)
      && !s.bufs[s.acts[k].b].uptodate && s.bufs[s.acts[k].b].io.Idle?
    case FillWake(k) => IsAct(s, k) && s.acts[k].Filling? && IsBuf(s, s.acts[k].b) && s.bufs[s.acts[k].b].io.Idle?
    case Store(k, _) => IsAct(s, k) && s.acts[k].Held? && IsBuf(s, s.acts[k].b)
    case Release(k) => IsAct(s, k) && s.acts[k].Held? && FreeToCall(s, k)
    case Dropped(k) => IsAct(s, k) && s.acts[k].Drop? && IsBuf(s, s.acts[k].b) && s.bufs[s.acts[k].b].io.Idle?
    case WriteBack(b) => IsBuf(s, b) && s.bufs[b].dirt && s.bufs[b].io.Idle?
    case Serve(b) => IsBuf(s, b) && s.bufs[b].io == Writing(false)
    case Finish(b) => IsBuf(s, b) && (s.bufs[b].io == Writing(true) || s.bufs[b].io.Reading?)
  }

  function SetAct(s: State, k: int, a: Act): State
    requires IsAct(s, k)
  {
    s.(acts := s.acts[k := a])
  }

  function SetBuf(s: State, b: int, x: Buf): State
    requires IsBuf(s, b)
  {
    s.(bufs := s.bufs[b := x])
  }

  function HomeOf(f: Id -> int, id: Id): int { if id.dev == 0 then NIL else f(id) }

  /** remove_from_queues and insert_into_queues on the links, as far as the pointers lead anywhere. */
  function Unlinked(l: Links, h: int, b: int): Links {
    if |l.nx| == |l.pv| == |l.nf| == |l.pf| && 0 <= b < |l.nx| && 0 <= l.pf[b] < |l.nf| && 0 <= l.nf[b] < |l.pf|
    then LinksRemoved(l, h, b) else l
  }

  function Relinked(l: Links, h: int, b: int): Links {
    if |l.nx| == |l.pv| == |l.nf| == |l.pf| && 0 <= b < |l.nx| && 0 <= l.freeList < |l.pf| &&
      0 <= l.pf[l.freeList] < |l.nf|
    then LinksInserted(l, h, b) else l
  }

  function Freed(x: Buf): Buf { Buf(Id(0, 0), false, false, 0, x.data, QUEUED, x.io) }

  function Renamed(x: Buf, id: Id): Buf { Buf(id, false, false, x.count, x.data, QUEUED, x.io) }

  /** The end of getblk: the buffer goes back to the queues, under its new name unless somebody was faster. */
  ghost function Installed(s: State, k: int): State
    requires Enabled(s, Install(k))
  {
    var b, id := s.acts[k].b, s.acts[k].id;
    if Cached(s, id) then
      SetAct(SetBuf(s, b, Freed(s.bufs[b])), k, Want(id)).(links := Relinked(s.links, NIL, b))
    else
      SetAct(SetBuf(s, b, Renamed(s.bufs[b], id)), k, Held(id, b)).(links := Relinked(s.links, HomeOf(s.f, id), b))
  }

  function Finished(s: State, b: int): Buf
    requires IsBuf(s, b)
  {
    if s.bufs[b].io.Reading?
    then s.bufs[b].(uptodate := true, dirt := false, data := Get(s.disk, s.bufs[b].id), io := Idle)
    else s.bufs[b].(uptodate := true, dirt := false, io := Idle)
  }

  ghost function Apply(s: State, l: Label): State
    requires Enabled(s, l)
  {
    match l
    case Start(t, id) => s.(acts := s.acts + [Want(id)], owner := s.owner + [t])
    case Lookup(k, b) =>
      SetAct(SetBuf(s, b, s.bufs[b].(count := s.bufs[b].count + 1)), k, Hit(s.acts[k].id, b))
    case Scan(k, b) => SetAct(s, k, Cand(s.acts[k].id, b))
    case Rescan(k, b) => SetAct(s, k, Cand(s.acts[k].id, b))
    case GiveUp(k) => SetAct(s, k, Want(s.acts[k].id))
    case HitWakes(k) =>
      if s.bufs[s.acts[k].b].id == s.acts[k].id then SetAct(s, k, Held(s.acts[k].id, s.acts[k].b))
      else SetAct(s, k, Drop(s.acts[k].b))
    case Take(k) =>
      var b := s.acts[k].b;
      SetAct(SetBuf(s, b, s.bufs[b].(count := 1, taker := k)), k,
             Evict(s.acts[k].id, b, if s.bufs[b].dirt then 0 else |s.bufs|, false))
        .(links := Unlinked(s.links, HomeOf(s.f, s.bufs[b].id), b))
    case SyncSkip(k, j) => SetAct(s, k, s.acts[k].(i := j))
    case SyncStart(k) => SetAct(SetBuf(s, s.acts[k].i, s.bufs[s.acts[k].i].(io := Writing(false))), k,
      s.acts[k].(busy := true))
    case SyncWake(k) => SetAct(s, k, s.acts[k].(i := s.acts[k].i + 1, busy := false))
    case Install(k) => Installed(s, k)
    case FillStart(k) =>
      SetAct(SetBuf(s, s.acts[k].b, s.bufs[s.acts[k].b].(io := Reading)), k, Filling(s.acts[k].id, s.acts[k].b))
    case FillWake(k) => SetAct(s, k, Held(s.acts[k].id, s.acts[k].b))
    case Store(k, data) =>
      SetBuf(s, s.acts[k].b, s.bufs[s.acts[k].b].(uptodate := true, dirt := true, data := data))
        .(store := s.store[s.bufs[s.acts[k].b].id := data])
    case Release(k) => SetAct(s, k, Drop(s.acts[k].b))
    case Dropped(k) =>
      SetAct(SetBuf(s, s.acts[k].b, s.bufs[s.acts[k].b].(count := s.bufs[s.acts[k].b].count - 1)), k, Done)
    case WriteBack(b) => SetBuf(s, b, s.bufs[b].(io := Writing(false)))
    case Serve(b) => SetBuf(s, b, s.bufs[b].(io := Writing(true))).(disk := s.disk[s.bufs[b].id := s.bufs[b].data])
    case Finish(b) => SetBuf(s, b, Finished(s, b))
  }

  /** A run: labels that are not enabled are passed over. */
  ghost function Exec(s: State, ls: seq<Label>): State
    decreases |ls|
  {
    if ls == [] then s
    else
      var before := Exec(s, ls[..|ls| - 1]);
      if Enabled(before, ls[|ls| - 1]) then Apply(before, ls[|ls| - 1]) else before
  }

  // ------------------------------------------------------------------ the invariant

  ghost function Refs(acts: seq<Act>, b: int): set<int> {
    set k | 0 <= k < |acts| && HasRef(acts[k], b)
  }

  /** What an activity relies on at each point where it may sleep. */
  ghost predicate ActOk(s: State, k: int)
    requires IsAct(s, k)
  {
    match s.acts[k]
    case Done => true
    case Want(id) => id.dev != 0
    case Hit(id, b) => id.dev != 0 && Carries(s, b, id)
    case Cand(id, b) => id.dev != 0 && IsBuf(s, b)
    case Evict(id, b, i, busy) =>
      && id.dev != 0 && IsBuf(s, b) && s.bufs[b].taker == k && 0 <= i <= |s.bufs|
      && (b < i ==> !s.bufs[b].dirt && s.bufs[b].io.Idle?)
      && (busy ==> i < |s.bufs|) && (busy && i == b && s.bufs[b].io.Idle? ==> !s.bufs[b].dirt)
    case Held(id, b) => id.dev != 0 && Carries(s, b, id)
    case Filling(id, b) => id.dev != 0 && Carries(s, b, id)
    case Drop(b) => IsBuf(s, b) && Queued(s.bufs[b])
  }

  /** b_count counts the users; an unused buffer is queued; one off the queues has its taker as only user. */
  ghost predicate BufOk(s: State, b: int)
    requires IsBuf(s, b)
  {
    && s.bufs[b].count == |Refs(s.acts, b)|
    && (!Queued(s.bufs[b]) ==>
          && IsAct(s, s.bufs[b].taker) && s.acts[s.bufs[b].taker].Evict? && s.acts[s.bufs[b].taker].b == b
          && s.bufs[b].count == 1)
    && (s.bufs[b].io.Writing? ==> s.bufs[b].dirt)
    && (s.bufs[b].io.Reading? ==> Queued(s.bufs[b]) && s.bufs[b].id.dev != 0)
  }

  /** At most one queued buffer carries a given block. */
  ghost predicate OneCarrier(s: State) {
    forall b, c | IsBuf(s, b) && IsBuf(s, c) && Queued(s.bufs[b]) && Queued(s.bufs[c]) ::
      s.bufs[b].id.dev != 0 && s.bufs[b].id == s.bufs[c].id ==> b == c
  }

  ghost predicate Inv(s: State) {
    && (forall k :: IsAct(s, k) ==> ActOk(s, k))
    && (forall b :: IsBuf(s, b) ==> BufOk(s, b))
    && OneCarrier(s)
  }

  lemma RefsChange(acts: seq<Act>, k: int, a: Act, b: int)
    requires 0 <= k < |acts|
    ensures |Refs(acts[k := a], b)| == |Refs(acts, b)| - One(HasRef(acts[k], b)) + One(HasRef(a, b))
  {
    var r, r' := Refs(acts, b), Refs(acts[k := a], b);
    assert r - {k} == r' - {k};
    CardMinus(r, k);
    CardMinus(r', k);
  }

  lemma CardMinus(s: set<int>, x: int)
    ensures |s| == |s - {x}| + One(x in s)
  {
    if x in s { assert s == (s - {x}) + {x}; } else { assert s == s - {x}; }
  }

  /** A buffer with users is queued unless its only user is the one that took it. */
  lemma UserOfTaken(s: State, b: int, k: int)
    requires Inv(s) && IsBuf(s, b) && IsAct(s, k) && HasRef(s.acts[k], b)
    ensures s.bufs[b].count >= 1
    ensures !Queued(s.bufs[b]) ==> s.bufs[b].taker == k
  {
    assert BufOk(s, b);
    var r := Refs(s.acts, b);
    assert k in r;
    CardMinus(r, k);
    if !Queued(s.bufs[b]) {
      var t := s.bufs[b].taker;
      assert t in r;
      assert |r - {k}| == 0;
    }
  }

  lemma UnusedIsQueued(s: State, b: int)
    requires Inv(s) && IsBuf(s, b) && s.bufs[b].count == 0
    ensures Queued(s.bufs[b]) && forall k :: IsAct(s, k) ==> !HasRef(s.acts[k], b)
  {
    assert BufOk(s, b);
    forall k | IsAct(s, k) ensures !HasRef(s.acts[k], b) { assert k !in Refs(s.acts, b); }
  }

  // ------------------------------------------------------------------ each step keeps it

  /** Steps that move one activity on and touch no buffer. */
  lemma ActKeeps(s: State, k: int, a: Act)
    requires Inv(s) && IsAct(s, k)
    requires forall b :: HasRef(a, b) <==> HasRef(s.acts[k], b)
    requires a.Evict? <==> s.acts[k].Evict?
    requires a.Evict? ==> a.b == s.acts[k].b
    requires ActOk(SetAct(s, k, a), k)
    ensures Inv(SetAct(s, k, a))
  {
    var s' := SetAct(s, k, a);
    forall j | IsAct(s', j) ensures ActOk(s', j) { assert ActOk(s, j); }
    forall b | IsBuf(s', b) ensures BufOk(s', b) {
      assert BufOk(s, b);
      RefsChange(s.acts, k, a, b);
    }
  }

  lemma StartKeeps(s: State, t: int, id: Id)
    requires Inv(s) && id.dev != 0
    ensures Inv(s.(acts := s.acts + [Want(id)], owner := s.owner + [t]))
  {
    var s' := s.(acts := s.acts + [Want(id)], owner := s.owner + [t]);
    forall j | IsAct(s', j) ensures ActOk(s', j) { if j < |s.acts| { assert ActOk(s, j); } }
    forall b | IsBuf(s', b) ensures BufOk(s', b) {
      assert BufOk(s, b);
      assert Refs(s'.acts, b) == Refs(s.acts, b);
    }
  }

  /** Steps that change a buffer's contents or flags but not its identity, users or place. */
  lemma DataKeeps(s: State, b: int, x: Buf)
    requires Inv(s) && IsBuf(s, b) && x.id == s.bufs[b].id && x.count == s.bufs[b].count && x.taker == s.bufs[b].taker
    requires x.io.Writing? ==> x.dirt
    requires x.io.Reading? ==> Queued(x) && x.id.dev != 0
    requires !Queued(s.bufs[b]) ==> (x.dirt ==> s.bufs[b].dirt) && (x.io.Idle? ==> s.bufs[b].io.Idle? || !x.dirt)
    requires !Queued(s.bufs[b]) && s.bufs[b].io.Idle? && !x.io.Idle? ==> s.bufs[b].dirt
    ensures Inv(SetBuf(s, b, x))
  {
    var s' := SetBuf(s, b, x);
    forall j | IsAct(s', j) ensures ActOk(s', j) { assert ActOk(s, j); }
    forall c | IsBuf(s', c) ensures BufOk(s', c) { assert BufOk(s, c); }
  }

  /** Disk, store and links play no part in the invariant. */
  lemma RestKeeps(s: State, disk: map<Id, Block>, store: map<Id, Block>, links: Links)
    requires Inv(s)
    ensures Inv(s.(disk := disk, store := store, links := links))
  {
    var s' := s.(disk := disk, store := store, links := links);
    forall j | IsAct(s', j) ensures ActOk(s', j) { assert ActOk(s, j); }
    forall c | IsBuf(s', c) ensures BufOk(s', c) { assert BufOk(s, c); }
  }

  lemma LookupKeeps(s: State, k: int, b: int)
    requires Inv(s) && Enabled(s, Lookup(k, b))
    ensures Inv(Apply(s, Lookup(k, b)))
  {
    var s' := Apply(s, Lookup(k, b));
    forall j | IsAct(s', j) ensures ActOk(s', j) { assert ActOk(s, j); }
    forall c | IsBuf(s', c) ensures BufOk(s', c) {
      assert BufOk(s, c);
      RefsChange(s.acts, k, s'.acts[k], c);
    }
  }

  lemma TakeKeeps(s: State, k: int)
    requires Inv(s) && Enabled(s, Take(k))
    ensures Inv(Apply(s, Take(k)))
  {
    var s', b := Apply(s, Take(k)), s.acts[k].b;
    UnusedIsQueued(s, b);
    assert BufOk(s, b);
    forall j | IsAct(s', j) ensures ActOk(s', j) { assert ActOk(s, j); }
    forall c | IsBuf(s', c) ensures BufOk(s', c) {
      assert BufOk(s, c);
      RefsChange(s.acts, k, s'.acts[k], c);
    }
  }

  lemma SyncKeeps(s: State, l: Label)
    requires Inv(s) && Enabled(s, l) && (l.SyncSkip? || l.SyncStart? || l.SyncWake?)
    ensures Inv(Apply(s, l))
  {
    var k := l.k;
    assert ActOk(s, k);
    var b, i := s.acts[k].b, s.acts[k].i;
    match l
    case SyncSkip(_, j) =>
      if i <= b < j { assert Skips(s, b, b); }
      ActKeeps(s, k, s.acts[k].(i := j));
    case SyncStart(_) =>
      DataKeeps(s, i, s.bufs[i].(io := Writing(false)));
      var s1 := SetBuf(s, i, s.bufs[i].(io := Writing(false)));
      assert ActOk(s1, k);
      ActKeeps(s1, k, s.acts[k].(busy := true));
    case SyncWake(_) =>
      ActKeeps(s, k, s.acts[k].(i := i + 1, busy := false));
  }

  lemma InstallKeeps(s: State, k: int)
    requires Inv(s) && Enabled(s, Install(k))
    ensures Inv(Apply(s, Install(k)))
  {
    var s', b := Apply(s, Install(k)), s.acts[k].b;
    assert ActOk(s, k) && BufOk(s, b);
    forall j | IsAct(s', j) ensures ActOk(s', j) {
      assert ActOk(s, j);
      if HasRef(s.acts[j], b) { UserOfTaken(s, b, j); }
    }
    forall c | IsBuf(s', c) ensures BufOk(s', c) {
      assert BufOk(s, c);
      RefsChange(s.acts, k, s'.acts[k], c);
    }
    InstallOne(s, k);
  }

  lemma InstallOne(s: State, k: int)
    requires OneCarrier(s) && Enabled(s, Install(k))
    ensures OneCarrier(Apply(s, Install(k)))
  {
    if !Cached(s, s.acts[k].id) {
      forall c | IsBuf(s, c) && Queued(s.bufs[c]) ensures s.bufs[c].id != s.acts[k].id {
        assert !Carries(s, c, s.acts[k].id);
      }
    }
  }

  lemma DroppedKeeps(s: State, k: int)
    requires Inv(s) && Enabled(s, Dropped(k))
    ensures s.bufs[s.acts[k].b].count > 0
    ensures Inv(Apply(s, Dropped(k)))
  {
    var s', b := Apply(s, Dropped(k)), s.acts[k].b;
    assert ActOk(s, k);
    UserOfTaken(s, b, k);
    forall j | IsAct(s', j) ensures ActOk(s', j) { assert ActOk(s, j); }
    forall c | IsBuf(s', c) ensures BufOk(s', c) {
      assert BufOk(s, c);
      RefsChange(s.acts, k, Done, c);
    }
  }

  lemma HoldSteps(s: State, l: Label)
    requires Inv(s) && Enabled(s, l) && (l.FillStart? || l.FillWake? || l.Store? || l.Release? || l.HitWakes?)
    ensures Inv(Apply(s, l))
  {
    var k := l.k;
    assert ActOk(s, k);
    var b := s.acts[k].b;
    assert BufOk(s, b);
    match l
    case FillStart(_) =>
      var x := s.bufs[b].(io := Reading);
      DataKeeps(s, b, x);
      ActKeeps(SetBuf(s, b, x), k, Filling(s.acts[k].id, b));
    case FillWake(_) => ActKeeps(s, k, Held(s.acts[k].id, b));
    case Store(_, data) =>
      var x := s.bufs[b].(uptodate := true, dirt := true, data := data);
      DataKeeps(s, b, x);
      RestKeeps(SetBuf(s, b, x), s.disk, s.store[s.bufs[b].id := data], s.links);
      assert Apply(s, l) == SetBuf(s, b, x).(disk := s.disk, store := s.store[s.bufs[b].id := data], links := s.links);
    case Release(_) => ActKeeps(s, k, Drop(b));
    case HitWakes(_) => ActKeeps(s, k, Held(s.acts[k].id, b));
  }

  lemma DiskSteps(s: State, l: Label)
    requires Inv(s) && Enabled(s, l) && (l.WriteBack? || l.Serve? || l.Finish?)
    ensures Inv(Apply(s, l))
  {
    var b := l.b;
    assert BufOk(s, b);
    match l
    case WriteBack(_) => DataKeeps(s, b, s.bufs[b].(io := Writing(false)));
    case Serve(_) =>
      var x := s.bufs[b].(io := Writing(true));
      DataKeeps(s, b, x);
      RestKeeps(SetBuf(s, b, x), s.disk[s.bufs[b].id := s.bufs[b].data], s.store, s.links);
      assert Apply(s, l) == SetBuf(s, b, x).(disk := s.disk[s.bufs[b].id := s.bufs[b].data], store := s.store,
             links := s.links);
    case Finish(_) => DataKeeps(s, b, Finished(s, b));
  }

  /** Every step keeps the invariant. */
  lemma StepKeeps(s: State, l: Label)
    requires Inv(s) && Enabled(s, l)
    ensures Inv(Apply(s, l))
  {
    match l
    case Start(t, id) => StartKeeps(s, t, id);
    case Lookup(k, b) => LookupKeeps(s, k, b);
    case Scan(k, b) => assert ActOk(s, k); ActKeeps(s, k, Cand(s.acts[k].id, b));
    case Rescan(k, b) => assert ActOk(s, k); ActKeeps(s, k, Cand(s.acts[k].id, b));
    case GiveUp(k) => assert ActOk(s, k); ActKeeps(s, k, Want(s.acts[k].id));
    case Take(k) => TakeKeeps(s, k);
    case SyncSkip(_, _) => SyncKeeps(s, l);
    case SyncStart(_) => SyncKeeps(s, l);
    case SyncWake(_) => SyncKeeps(s, l);
    case Install(k) => InstallKeeps(s, k);
    case Dropped(k) => DroppedKeeps(s, k);
    case FillStart(_) => HoldSteps(s, l);
    case FillWake(_) => HoldSteps(s, l);
    case Store(_, _) => HoldSteps(s, l);
    case Release(_) => HoldSteps(s, l);
    case HitWakes(_) => HoldSteps(s, l);
    case WriteBack(_) => DiskSteps(s, l);
    case Serve(_) => DiskSteps(s, l);
    case Finish(_) => DiskSteps(s, l);
  }

  /** In every interleaving the invariant holds. */
  lemma {:induction false} ExecKeeps(s: State, ls: seq<Label>)
    requires Inv(s)
    ensures Inv(Exec(s, ls))
    decreases |ls|
  {
    if ls != [] {
      ExecKeeps(s, ls[..|ls| - 1]);
      var before := Exec(s, ls[..|ls| - 1]);
      if Enabled(before, ls[|ls| - 1]) { StepKeeps(before, ls[|ls| - 1]); }
    }
  }

  function EmptyBuf(): Buf { Buf(Id(0, 0), false, false, 0, [], QUEUED, Idle) }

  /** buffer_init: n buffers in one ring, without a device; `tasks` tasks. */
  function Initial(f: Id -> int, n: nat, tasks: nat, disk: map<Id, Block>): (s: State)
    ensures |s.bufs| == n && (forall b :: 0 <= b < n ==> s.bufs[b] == EmptyBuf()) && s.acts == [] && s.owner == []
    ensures s.f == f && s.tasks == tasks && s.disk == disk && s.store == disk && s.links == InitialLinks(n)
  {
    State(f, tasks, seq(n, _ => EmptyBuf()), [], [], disk, disk, InitialLinks(n))
  }

  lemma InitialInv(f: Id -> int, n: nat, tasks: nat, disk: map<Id, Block>)
    ensures Inv(Initial(f, n, tasks, disk))
  {
    var s := Initial(f, n, tasks, disk);
    forall b | IsBuf(s, b) ensures BufOk(s, b) { assert Refs(s.acts, b) == {}; }
  }

  /** While somebody holds a buffer no step by anyone changes what block it carries. */
  lemma HolderKeepsIdentity(s: State, l: Label, k: int)
    requires Inv(s) && Enabled(s, l) && IsAct(s, k) && (s.acts[k].Held? || s.acts[k].Filling?)
    ensures IsBuf(s, s.acts[k].b) && IsBuf(Apply(s, l), s.acts[k].b)
    ensures Apply(s, l).bufs[s.acts[k].b].id == s.acts[k].id
  {
    assert ActOk(s, k);
    if l.Install? { assert ActOk(s, l.k); }
  }
}

/**
  Block contents under every interleaving of the buffer cache: a holder of an up-to-date buffer sees the last
  contents stored, unless a store meets a transfer of the same buffer, or a block is given a new buffer while
  its old, dirty one is still on its way to the disk.
 */
module BufferCoherence {
  import opened BufferIds
  import opened BufferProtocol

  /** A buffer whose contents count: findable, or still to be written out. */
  predicate Live(x: Buf) { x.id.dev != 0 && (Queued(x) || x.dirt) }

  ghost predicate DataOk(s: State, b: int)
    requires IsBuf(s, b)
  {
    && (s.bufs[b].dirt ==> s.bufs[b].uptodate && s.bufs[b].id.dev != 0)
    && (Live(s.bufs[b]) && s.bufs[b].uptodate ==> s.bufs[b].data == Get(s.store, s.bufs[b].id))
    && (s.bufs[b].io == Writing(true) ==> s.bufs[b].data == Get(s.disk, s.bufs[b].id))
    && (s.bufs[b].io.Reading? ==> !s.bufs[b].uptodate)
  }

  ghost predicate DirtyCarrier(s: State, id: Id) { exists b :: IsBuf(s, b) && s.bufs[b].dirt && s.bufs[b].id == id }

  ghost predicate OneLive(s: State) {
    forall b, c | IsBuf(s, b) && IsBuf(s, c) && Live(s.bufs[b]) && Live(s.bufs[c]) ::
      s.bufs[b].id == s.bufs[c].id ==> b == c
  }

  ghost predicate Coherent(s: State) {
    && (forall b :: IsBuf(s, b) ==> DataOk(s, b)) && OneLive(s)
    && (forall id :: DirtyCarrier(s, id) || Get(s.disk, id) == Get(s.store, id))
  }

  /** A dirty buffer of this block is off the queues, on its way to the disk. */
  ghost predicate TakenDirty(s: State, id: Id) {
    exists b :: IsBuf(s, b) && !Queued(s.bufs[b]) && s.bufs[b].dirt && s.bufs[b].id == id
  }

  /** The two races: a block is given a new buffer while its old, dirty one is still being written out, or a
      holder stores into a buffer that is being transferred. */
  ghost predicate Races(s: State, l: Label) {
    || (l.Install? && IsAct(s, l.k) && s.acts[l.k].Evict? && !Cached(s, s.acts[l.k].id) &&
       TakenDirty(s, s.acts[l.k].id))
    || (l.Store? && IsAct(s, l.k) && s.acts[l.k].Held? && IsBuf(s, s.acts[l.k].b) && !s.bufs[s.acts[l.k].b].io.Idle?)
  }

  lemma SameDirty(s: State, s': State, id: Id)
    requires |s'.bufs| == |s.bufs| && (DirtyCarrier(s, id) || Get(s.disk, id) == Get(s.store, id))
    requires Get(s'.disk, id) == Get(s.disk, id) && Get(s'.store, id) == Get(s.store, id)
    requires forall b :: IsBuf(s, b) && s.bufs[b].dirt ==> s'.bufs[b].dirt && s'.bufs[b].id == s.bufs[b].id
    ensures DirtyCarrier(s', id) || Get(s'.disk, id) == Get(s'.store, id)
  {
    if b :| IsBuf(s, b) && s.bufs[b].dirt && s.bufs[b].id == id { assert IsBuf(s', b); }
  }

  /** Counts and queues apart, at most a write is started: contents, identity and flags stay. */
  ghost predicate Quiet(s: State, s': State) {
    && |s'.bufs| == |s.bufs| && s'.disk == s.disk && s'.store == s.store
    && (forall b :: IsBuf(s, b) ==> QuietBuf(s.bufs[b], s'.bufs[b]))
  }

  ghost predicate QuietBuf(b: Buf, b': Buf) {
    && b' == b.(count := b'.count, taker := b'.taker, io := b'.io)
    && (b'.io == b.io || b'.io == Writing(false)) && (Queued(b') ==> Queued(b))
  }

  lemma StepQuiet(s: State, l: Label)
    requires Enabled(s, l)
    requires !l.Install? && !l.FillStart? && !l.Store? && !l.Serve? && !l.Finish? && !l.Take?
    ensures Quiet(s, Apply(s, l))
  {
  }

  lemma QuietCoherent(s: State, s': State)
    requires Coherent(s) && Quiet(s, s')
    ensures Coherent(s')
  {
    forall b | IsBuf(s', b) ensures DataOk(s', b) { assert DataOk(s, b); }
    forall id ensures DirtyCarrier(s', id) || Get(s'.disk, id) == Get(s'.store, id) { SameDirty(s, s', id); }
  }

  lemma FillStartCoherent(s: State, k: int)
    requires Coherent(s) && Enabled(s, FillStart(k))
    ensures Coherent(Apply(s, FillStart(k)))
  {
    var s' := Apply(s, FillStart(k));
    forall b | IsBuf(s', b) ensures DataOk(s', b) { assert DataOk(s, b); }
    forall id ensures DirtyCarrier(s', id) || Get(s'.disk, id) == Get(s'.store, id) { SameDirty(s, s', id); }
  }

  /** The disk takes the data of a write: outside dirty buffers nothing changes on it. */
  lemma ServeCoherent(s: State, b: int)
    requires Inv(s) && Coherent(s) && Enabled(s, Serve(b))
    ensures Coherent(Apply(s, Serve(b)))
  {
    var s' := Apply(s, Serve(b));
    assert DataOk(s, b) && BufOk(s, b);
    forall c | IsBuf(s', c) ensures DataOk(s', c) {
      assert DataOk(s, c) && BufOk(s, c);
      if c != b && s.bufs[c].io.Writing? { assert Live(s.bufs[b]) && Live(s.bufs[c]); }
    }
    forall id ensures DirtyCarrier(s', id) || Get(s'.disk, id) == Get(s'.store, id) {
      if id == s.bufs[b].id { assert IsBuf(s', b) && s'.bufs[b].dirt; } else { SameDirty(s, s', id); }
    }
  }

  lemma FinishCoherent(s: State, b: int)
    requires Inv(s) && Coherent(s) && Enabled(s, Finish(b))
    ensures Coherent(Apply(s, Finish(b)))
  {
    var s' := Apply(s, Finish(b));
    var id := s.bufs[b].id;
    assert DataOk(s, b) && BufOk(s, b);
    OnDisk(s, b);
    forall c | IsBuf(s', c) ensures DataOk(s', c) { assert DataOk(s, c); }
    forall i ensures DirtyCarrier(s', i) || Get(s'.disk, i) == Get(s'.store, i) {
      if i != id && Get(s.disk, i) != Get(s.store, i) {
        var c :| IsBuf(s, c) && s.bufs[c].dirt && s.bufs[c].id == i;
        assert IsBuf(s', c) && s'.bufs[c].dirt;
      }
    }
  }

  /** At the end of a request the disk holds what was last stored to the block. */
  lemma OnDisk(s: State, b: int)
    requires Inv(s) && Coherent(s) && Enabled(s, Finish(b))
    ensures Get(s.disk, s.bufs[b].id) == Get(s.store, s.bufs[b].id)
    ensures s.bufs[b].io.Reading? ==> !DirtyCarrier(s, s.bufs[b].id)
  {
    assert DataOk(s, b) && BufOk(s, b);
    if s.bufs[b].io.Reading? {
      if c :| IsBuf(s, c) && s.bufs[c].dirt && s.bufs[c].id == s.bufs[b].id {
        assert Live(s.bufs[b]) && Live(s.bufs[c]);
      }
    }
  }

  lemma InstallCoherent(s: State, k: int)
    requires Inv(s) && Coherent(s) && Enabled(s, Install(k)) && !Races(s, Install(k))
    ensures Coherent(Apply(s, Install(k)))
  {
    var s', b, id := Apply(s, Install(k)), s.acts[k].b, s.acts[k].id;
    assert ActOk(s, k) && !s.bufs[b].dirt;
    forall c | IsBuf(s', c) ensures DataOk(s', c) { assert DataOk(s, c); }
    forall i ensures DirtyCarrier(s', i) || Get(s'.disk, i) == Get(s'.store, i) { SameDirty(s, s', i); }
    if !Cached(s, id) {
      forall c | IsBuf(s, c) && c != b && Live(s.bufs[c]) ensures s.bufs[c].id != id {
        assert !Carries(s, c, id);
      }
    }
  }

  lemma StoreCoherent(s: State, k: int, data: Block)
    requires Inv(s) && Coherent(s) && Enabled(s, Store(k, data)) && !Races(s, Store(k, data))
    ensures Coherent(Apply(s, Store(k, data)))
  {
    var s', b := Apply(s, Store(k, data)), s.acts[k].b;
    assert ActOk(s, k) && DataOk(s, b);
    var id := s.bufs[b].id;
    forall c | IsBuf(s', c) ensures DataOk(s', c) { assert DataOk(s, c); }
    forall i ensures DirtyCarrier(s', i) || Get(s'.disk, i) == Get(s'.store, i) {
      if i == id { assert IsBuf(s', b) && s'.bufs[b].dirt; } else { SameDirty(s, s', i); }
    }
  }

  /** Without a race every step keeps contents coherent. */
  lemma StepCoherent(s: State, l: Label)
    requires Inv(s) && Coherent(s) && Enabled(s, l) && !Races(s, l)
    ensures Coherent(Apply(s, l))
  {
    match l
    case Install(k) => InstallCoherent(s, k);
    case FillStart(k) => FillStartCoherent(s, k);
    case Store(k, data) => StoreCoherent(s, k, data);
    case Serve(b) => ServeCoherent(s, b);
    case Finish(b) => FinishCoherent(s, b);
    case Take(k) => TakeCoherent(s, k);
    case _ => QuietStep(s, l);
  }

  lemma TakeCoherent(s: State, k: int)
    requires Inv(s) && Coherent(s) && Enabled(s, Take(k))
    ensures Coherent(Apply(s, Take(k)))
  {
    UnusedIsQueued(s, s.acts[k].b);
    QuietCoherent(s, Apply(s, Take(k)));
  }

  lemma QuietStep(s: State, l: Label)
    requires Coherent(s) && Enabled(s, l)
    requires !l.Install? && !l.FillStart? && !l.Store? && !l.Serve? && !l.Finish? && !l.Take?
    ensures Coherent(Apply(s, l))
  {
    StepQuiet(s, l);
    QuietCoherent(s, Apply(s, l));
  }

  /** No step of the run is a race. */
  ghost predicate RaceFree(s: State, ls: seq<Label>)
    decreases |ls|
  {
    ls == [] || (RaceFree(s, ls[..|ls| - 1]) && !Races(Exec(s, ls[..|ls| - 1]), ls[|ls| - 1]))
  }

  /** In every race-free interleaving a holder of an up-to-date buffer sees the last contents stored. */
  lemma {:induction false} ExecCoherent(s: State, ls: seq<Label>)
    requires Inv(s) && Coherent(s) && RaceFree(s, ls)
    ensures Coherent(Exec(s, ls))
    decreases |ls|
  {
    if ls != [] {
      var less := ls[..|ls| - 1];
      ExecCoherent(s, less);
      ExecKeeps(s, less);
      if Enabled(Exec(s, less), ls[|ls| - 1]) { StepCoherent(Exec(s, less), ls[|ls| - 1]); }
    }
  }

  lemma InitialCoherent(f: Id -> int, n: nat, tasks: nat, disk: map<Id, Block>)
    ensures Coherent(Initial(f, n, tasks, disk))
  {
  }

  /** From buffer_init on, without the two races: every task sees in an up-to-date buffer it holds the last contents
      stored to its block, and a block that no dirty buffer carries is right on the disk. */
  lemma HoldersSeeLast(f: Id -> int, n: nat, tasks: nat, disk: map<Id, Block>, ls: seq<Label>)
    requires RaceFree(Initial(f, n, tasks, disk), ls)
    ensures var s := Exec(Initial(f, n, tasks, disk), ls);
            && (forall k :: IsAct(s, k) && s.acts[k].Held? ==> SeesLast(s, k))
            && (forall id :: DirtyCarrier(s, id) || Get(s.disk, id) == Get(s.store, id))
  {
    var s0 := Initial(f, n, tasks, disk);
    var s := Exec(s0, ls);
    InitialInv(f, n, tasks, disk);
    InitialCoherent(f, n, tasks, disk);
    ExecKeeps(s0, ls);
    ExecCoherent(s0, ls);
    forall k | IsAct(s, k) && s.acts[k].Held? ensures SeesLast(s, k) {
      assert ActOk(s, k);
      assert BufOk(s, s.acts[k].b) && DataOk(s, s.acts[k].b);
    }
  }

  predicate SeesLast(s: State, k: int)
    requires IsAct(s, k) && s.acts[k].Held?
  {
    var b, id := s.acts[k].b, s.acts[k].id;
    IsBuf(s, b) && s.bufs[b].id == id && (s.bufs[b].uptodate ==> s.bufs[b].data == Get(s.store, id))
  }

  /** The buffer given to a block during the first race is stale, once it has been read, exactly when the
      dirty contents on their way differ from what is on the disk. */
  lemma RaceIsStale(s: State, k: int)
    requires Inv(s) && Coherent(s) && Enabled(s, Install(k)) && !Cached(s, s.acts[k].id)
    requires |s.owner| == |s.acts| && Free(Apply(s, Install(k)), s.owner[k])
    ensures var s1, b := Apply(s, Install(k)), s.acts[k].b;
            && Enabled(s1, FillStart(k))
            && var s2 := Apply(s1, FillStart(k));
            && Enabled(s2, Finish(b))
            && (Apply(s2, Finish(b)).bufs[b].data == Get(s.store, s.acts[k].id)
                <==> forall c :: IsBuf(s, c) && !Queued(s.bufs[c]) && s.bufs[c].dirt && s.bufs[c].id == s.acts[k].id
                                 ==> s.bufs[c].data == Get(s.disk, s.acts[k].id))
  {
    var id := s.acts[k].id;
    assert ActOk(s, k);
    if b :| IsBuf(s, b) && s.bufs[b].dirt && s.bufs[b].id == id {
      assert DataOk(s, b);
      assert !Carries(s, b, id);
    }
  }

  /** A store that meets the end of a write of the same buffer is taken for written: the block on disk is what
      was stored if and only if the store changed nothing. */
  lemma StoreMeetsWrite(s: State, k: int, data: Block)
    requires Inv(s) && Coherent(s) && Enabled(s, Store(k, data)) && s.bufs[s.acts[k].b].io == Writing(true)
    ensures var s1, b := Apply(s, Store(k, data)), s.acts[k].b;
            && Enabled(s1, Finish(b))
            && var s2, id := Apply(s1, Finish(b)), s.bufs[b].id;
            !s2.bufs[b].dirt && (Get(s2.disk, id) == Get(s2.store, id) <==> data == s.bufs[b].data)
  {
    assert DataOk(s, s.acts[k].b);
  }
}

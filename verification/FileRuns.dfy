/**
  Whole runs of reads, writes and truncations over the zone tree, against flat files: the history
  says which bytes were stored where, and every read returns what the history holds.
 */
module FileRuns {
  import opened Zones
  import opened ZoneSteps
  import opened FileSystems
  import opened Truncation

  datatype Event =
    | Wrote(n: int, pos: int, data: seq<int>)     // the bytes that were completed
    | Got(n: int, pos: int, data: seq<int>)
    | Cut(n: int)
    | Skipped

  datatype Op =
    | Write(n: int, append: bool, pos: int, buf: seq<int>)
    | Read(n: int, pos: int, count: int)
    | Truncate(n: int)

  /** The operation is one the source carries out: the file exists, and no block beyond the largest file is
      asked of _bmap, which would panic. */
  predicate Applies(op: Op, fs: Fs) {
    0 <= op.n < |fs.inode| &&
    match op
    case Write(n, append, pos, buf) => 0 <= pos && (if append then fs.inode[n].size else pos) + |buf| <= MAX_BYTES
    case Read(n, pos, count) => 0 <= pos && (count > 0 ==> pos + count <= MAX_BYTES)
    case Truncate(n) => true
  }

  /** What an operation leaves in the history, from state fs to state fs': it is skipped if and only if it does
      not apply; a write completes all its bytes unless the device is then full; a read gets all it asked for. */
  ghost predicate Outcome(g: Geometry, op: Op, fs: Fs, e: Event, fs': Fs)
    requires Shape(g, fs')
  {
    if !Applies(op, fs) then e == Skipped
    else
      match op
      case Write(n, append, pos, buf) =>
        && e.Wrote? && e.n == n && e.pos == (if append then fs.inode[n].size else pos) && e.data <= buf
        && (e.data == buf || NoSpace(g, fs'))
      case Read(n, pos, count) => e.Got? && e.n == n && e.pos == pos && |e.data| == if count > 0 then count else 0
      case Truncate(n) => e == Cut(n)
  }

  /** Event base + k is the outcome of operation k, between states k and k + 1. */
  ghost predicate Follows(g: Geometry, ops: seq<Op>, ev: seq<Event>, base: int, states: seq<Fs>, n: int) {
    && 0 <= base && 0 <= n <= |ops| && base + n <= |ev| && |states| == n + 1
    && forall k :: 0 <= k < n ==> OutcomeAt(g, ops, ev, base, states, k)
  }

  ghost predicate OutcomeAt(g: Geometry, ops: seq<Op>, ev: seq<Event>, base: nat, states: seq<Fs>, k: nat) {
    && k < |ops| && base + k < |ev| && k + 1 < |states|
    && Shape(g, states[k + 1]) && Outcome(g, ops[k], states[k], ev[base + k], states[k + 1])
  }

  lemma FollowsExtend(g: Geometry, ops: seq<Op>, ev: seq<Event>, e: Event, base: int, states: seq<Fs>, fs: Fs, n: int)
    requires Follows(g, ops, ev, base, states, n) && n < |ops| && |ev| == base + n
    requires Shape(g, fs) && Outcome(g, ops[n], states[n], e, fs)
    ensures Follows(g, ops, ev + [e], base, states + [fs], n + 1)
  {
    var ev', states' := ev + [e], states + [fs];
    forall k | 0 <= k < n + 1 ensures OutcomeAt(g, ops, ev', base, states', k) {
      if k < n { assert OutcomeAt(g, ops, ev, base, states, k); }
    }
  }

  /** Byte p of file n: the last byte stored there since the file was last cut, else zero. */
  function Recall(ev: seq<Event>, n: int, p: int): int
    decreases |ev|
  {
    if |ev| == 0 then 0
    else
      match ev[|ev| - 1]
      case Wrote(m, pos, data) =>
        if m == n && pos <= p < pos + |data| then data[p - pos] else Recall(ev[..|ev| - 1], n, p)
      case Cut(m) => if m == n then 0 else Recall(ev[..|ev| - 1], n, p)
      case _ => Recall(ev[..|ev| - 1], n, p)
  }

  function SizeOf(ev: seq<Event>, n: int): int
    decreases |ev|
  {
    if |ev| == 0 then 0
    else
      var before := SizeOf(ev[..|ev| - 1], n);
      match ev[|ev| - 1]
      case Wrote(m, pos, data) => if m == n && |data| > 0 && pos + |data| > before then pos + |data| else before
      case Cut(m) => if m == n then 0 else before
      case _ => before
  }

  /** Beyond its size a file holds nothing: gaps left by seeking read as zeros. */
  lemma {:induction false} ZeroPastEnd(ev: seq<Event>, n: int, p: int)
    requires SizeOf(ev, n) <= p
    ensures Recall(ev, n, p) == 0
    decreases |ev|
  {
    if |ev| != 0 {
      var before := ev[..|ev| - 1];
      match ev[|ev| - 1]
      case Wrote(m, pos, data) => ZeroPastEnd(before, n, p);
      case Cut(m) => if m != n { ZeroPastEnd(before, n, p); }
      case Got(_, _, _) => ZeroPastEnd(before, n, p);
      case Skipped => ZeroPastEnd(before, n, p);
    }
  }

  lemma Last(ev: seq<Event>, e: Event)
    ensures (ev + [e])[..|ev + [e]| - 1] == ev && (ev + [e])[|ev + [e]| - 1] == e
  {
  }

  ghost predicate Agrees(g: Geometry, fs: Fs, ev: seq<Event>) {
    && Shape(g, fs)
    && (forall n, p :: 0 <= n < |fs.inode| && 0 <= p < MAX_BYTES ==> ByteAt(g, fs, n, p) == Recall(ev, n, p))
    && (forall n :: 0 <= n < |fs.inode| ==> fs.inode[n].size == SizeOf(ev, n))
    && (forall n :: 0 <= n < |fs.inode| ==> 0 <= SizeOf(ev, n))
  }

  /** Every read returned the bytes of the flat file at that point of the history. */
  ghost predicate Consistent(ev: seq<Event>) {
    forall j :: 0 <= j < |ev| && ev[j].Got? ==> Shows(ev[..j], ev[j])
  }

  ghost predicate Shows(ev: seq<Event>, e: Event)
    requires e.Got?
  {
    forall k :: 0 <= k < |e.data| ==> e.data[k] == Recall(ev, e.n, e.pos + k)
  }

  lemma ReadShows(g: Geometry, fs: Fs, ev: seq<Event>, n: int, pos: int, out: seq<int>)
    requires Agrees(g, fs, ev) && 0 <= n < |fs.inode| && 0 <= pos && (out != [] ==> pos + |out| <= MAX_BYTES)
    requires forall k :: 0 <= k < |out| ==> out[k] == ByteAt(g, fs, n, pos + k)
    ensures Shows(ev, Got(n, pos, out))
  {
  }

  lemma ConsistentExtend(ev: seq<Event>, e: Event)
    requires Consistent(ev) && (e.Got? ==> Shows(ev, e))
    ensures Consistent(ev + [e])
  {
    forall j | 0 <= j < |ev + [e]| && (ev + [e])[j].Got? ensures Shows((ev + [e])[..j], (ev + [e])[j]) {
      if j < |ev| { assert (ev + [e])[..j] == ev[..j]; } else { assert (ev + [e])[..j] == ev; }
    }
  }

  lemma AgreesWrote(g: Geometry, fs: Fs, fs': Fs, ev: seq<Event>, n: int, pos: int, data: seq<int>)
    requires Agrees(g, fs, ev) && Spliced(g, fs, fs', n, pos, data) && 0 <= pos
    requires fs'.inode[n].size == if |data| > 0 && pos + |data| > fs.inode[n].size then pos + |data|
             else fs.inode[n].size
    ensures Agrees(g, fs', ev + [Wrote(n, pos, data)])
  {
    Last(ev, Wrote(n, pos, data));
    forall m, p | 0 <= m < |fs'.inode| && 0 <= p < MAX_BYTES
      ensures ByteAt(g, fs', m, p) == Recall(ev + [Wrote(n, pos, data)], m, p)
    {
      assert ByteAt(g, fs, m, p) == Recall(ev, m, p);
      assert FileBlock(fs, m, p / BLOCK_SIZE);
    }
  }

  lemma AgreesCut(g: Geometry, fs: Fs, fs': Fs, ev: seq<Event>, n: int)
    requires Agrees(g, fs, ev) && 0 <= n < |fs.inode| && Shape(g, fs') && |fs'.inode| == |fs.inode|
    requires forall b :: 0 <= b < MAX_BLOCKS ==> Content(g, fs', n, b) == ZeroBlock()
    requires forall m, b :: FileBlock(fs, m, b) && m != n ==> Content(g, fs', m, b) == Content(g, fs, m, b)
    requires forall m :: 0 <= m < |fs.inode| ==> fs'.inode[m].size == if m == n then 0 else fs.inode[m].size
    ensures Agrees(g, fs', ev + [Cut(n)])
  {
    Last(ev, Cut(n));
    forall m, p | 0 <= m < |fs'.inode| && 0 <= p < MAX_BYTES
      ensures ByteAt(g, fs', m, p) == Recall(ev + [Cut(n)], m, p)
    {
      assert ByteAt(g, fs, m, p) == Recall(ev, m, p);
      assert FileBlock(fs, m, p / BLOCK_SIZE);
    }
  }

  lemma AgreesQuiet(g: Geometry, fs: Fs, ev: seq<Event>, e: Event)
    requires Agrees(g, fs, ev) && (e.Got? || e.Skipped?)
    ensures Agrees(g, fs, ev + [e])
  {
    Last(ev, e);
  }

  class Runner {
    const fs: FileSystem
    ghost var ev: seq<Event>

    ghost predicate Valid()
      reads this, fs, fs.zmap, fs.disk, fs.inode
    {
      fs.Valid() && Agrees(fs.g, fs.F(), ev) && Consistent(ev)
    }

    constructor (geo: Geometry, mapBlocks: int, inodes: int)
      requires GeoOk(geo) && 1 <= mapBlocks <= 8 && geo.nzones - geo.firstData < MAP_BITS * mapBlocks && 0 <= inodes
      ensures Valid() && ev == [] && fresh(fs) && fresh(fs.zmap) && fresh(fs.disk) && fresh(fs.inode)
    {
      fs := new FileSystem(geo, mapBlocks, inodes);
      ev := [];
      new;
      forall n, p | 0 <= n < |fs.F().inode| && 0 <= p < MAX_BYTES ensures ByteAt(fs.g, fs.F(), n, p) == 0 {
        assert FileBlock(fs.F(), n, p / BLOCK_SIZE);
      }
    }

    method DoWrite(n: int, append: bool, pos: int, buf: seq<int>)
      requires Valid() && 0 <= n < fs.inode.Length && 0 <= pos
      requires (if append then fs.inode[n].size else pos) + |buf| <= MAX_BYTES
      modifies this`ev, fs`use, fs.zmap, fs.disk, fs.inode
      ensures Valid() && |ev| == |old(ev)| + 1 && ev == old(ev) + [ev[|old(ev)|]]
      ensures Outcome(fs.g, Write(n, append, pos, buf), old(fs.F()), ev[|old(ev)|], fs.F())
    {
      var start := if append then fs.inode[n].size else pos;
      ghost var before := fs.F();
      var i, _, _ := fs.FileWrite(n, append, pos, buf);
      AgreesWrote(fs.g, before, fs.F(), ev, n, start, buf[..i]);
      ConsistentExtend(ev, Wrote(n, start, buf[..i]));
      ev := ev + [Wrote(n, start, buf[..i])];
    }

    method DoRead(n: int, pos: int, count: int)
      requires Valid() && 0 <= n < fs.inode.Length && 0 <= pos && (count > 0 ==> pos + count <= MAX_BYTES)
      modifies this`ev, fs`use, fs.zmap, fs.disk, fs.inode
      ensures Valid() && |ev| == |old(ev)| + 1 && ev == old(ev) + [ev[|old(ev)|]]
      ensures Outcome(fs.g, Read(n, pos, count), old(fs.F()), ev[|old(ev)|], fs.F())
    {
      var out, _ := fs.FileRead(n, pos, count);
      AgreesQuiet(fs.g, fs.F(), ev, Got(n, pos, out));
      ReadShows(fs.g, fs.F(), ev, n, pos, out);
      ConsistentExtend(ev, Got(n, pos, out));
      ev := ev + [Got(n, pos, out)];
    }

    method DoTruncate(n: int)
      requires Valid() && 0 <= n < fs.inode.Length
      modifies this`ev, fs`use, fs.zmap, fs.disk, fs.inode
      ensures Valid() && ev == old(ev) + [Cut(n)]
    {
      ghost var before := fs.F();
      Truncation.Truncate(fs, n, true);
      AgreesCut(fs.g, before, fs.F(), ev, n);
      ConsistentExtend(ev, Cut(n));
      ev := ev + [Cut(n)];
    }

    /** One operation, as the flat files see it; what the source would panic on is skipped. */
    method Step(op: Op)
      requires Valid()
      modifies this`ev, fs`use, fs.zmap, fs.disk, fs.inode
      ensures Valid() && |ev| == |old(ev)| + 1 && ev == old(ev) + [ev[|old(ev)|]]
      ensures Outcome(fs.g, op, old(fs.F()), ev[|old(ev)|], fs.F())
    {
      match op {
        case Write(n, append, pos, buf) =>
          if 0 <= n < fs.inode.Length && 0 <= pos && (if append then fs.inode[n].size else pos) + |buf| <= MAX_BYTES {
            DoWrite(n, append, pos, buf);
            return;
          }
        case Read(n, pos, count) =>
          if 0 <= n < fs.inode.Length && 0 <= pos && (count > 0 ==> pos + count <= MAX_BYTES) {
            DoRead(n, pos, count);
            return;
          }
        case Truncate(n) =>
          if 0 <= n < fs.inode.Length {
            DoTruncate(n);
            return;
          }
      }
      AgreesQuiet(fs.g, fs.F(), ev, Skipped);
      ConsistentExtend(ev, Skipped);
      ev := ev + [Skipped];
    }

    /** Any run: every operation that applies is carried out, all reads are those of flat files, and marked
        zones stay exactly the reachable ones. */
    method Run(ops: seq<Op>) returns (ghost states: seq<Fs>)
      requires Valid()
      modifies this`ev, fs`use, fs.zmap, fs.disk, fs.inode
      ensures Valid() && Consistent(ev) && |ev| == |old(ev)| + |ops| && old(ev) <= ev
      ensures Follows(fs.g, ops, ev, |old(ev)|, states, |ops|) && states[0] == old(fs.F()) && states[|ops|] == fs.F()
      ensures forall z :: DataZone(fs.g, z) ==>
                (Marked(fs.g, fs.F(), z) <==> exists s :: SlotOk(fs.F(), s) && Val(fs.F(), s) == z)
    {
      states := [fs.F()];
      for k := 0 to |ops|
        invariant Valid() && |ev| == |old(ev)| + k && old(ev) <= ev
        invariant Follows(fs.g, ops, ev, |old(ev)|, states, k) && states[0] == old(fs.F()) && states[k] == fs.F()
      {
        ghost var was := ev;
        Step(ops[k]);
        FollowsExtend(fs.g, ops, was, ev[|was|], |old(ev)|, states, fs.F(), k);
        states := states + [fs.F()];
      }
      forall z | DataZone(fs.g, z)
        ensures Marked(fs.g, fs.F(), z) <==> exists s :: SlotOk(fs.F(), s) && Val(fs.F(), s) == z
      {
        MarkedIsReachable(fs.g, fs.F(), fs.use, z);
      }
    }
  }
}

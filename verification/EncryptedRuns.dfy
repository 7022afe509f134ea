/**
  Histories of reads and writes on a device some of whose files are encrypted (fs/file_dev.c:70-188): to its
  users every file is a flat plaintext, while every marked file is always stored as that plaintext with its
  maximal hole-free block prefix transposed block by block.
 */
module EncryptedRuns {
  import opened Zones
  import opened ZoneSteps
  import opened FileSystems
  import opened Transposition
  import opened EncryptedFiles

  datatype FileOp = Read(n: int, pos: int, count: int) | Write(n: int, append: bool, fpos: int, buf: seq<int>)

  datatype FileEvent = Got(n: int, pos: int, out: seq<int>) | Put(n: int, pos: int, data: seq<int>) | Refused

  /** The key, which files are marked, and the inode numbers; none of them changes during the history. */
  datatype Setting = Setting(key: seq<int>, marked: set<int>, num: seq<int>)

  ghost predicate FileStored(g: Geometry, fs: Fs, c: Setting, n: int, plain: seq<Block>) {
    && Shape(g, fs) && 0 <= n < |fs.inode| && PlainShape(plain)
    && if n in c.marked then StoredAs(g, fs, n, c.key, plain) else ContentsOf(g, fs, n) == plain
  }

  ghost predicate AllStored(g: Geometry, fs: Fs, c: Setting, plains: seq<seq<Block>>) {
    && Shape(g, fs) && |c.key| >= 1 && |plains| == |fs.inode| == |c.num|
    && forall n :: 0 <= n < |plains| ==> FileStored(g, fs, c, n, plains[n])
  }

  ghost predicate Plaintexts(plains: seq<seq<Block>>) { forall n :: 0 <= n < |plains| ==> PlainShape(plains[n]) }

  /** sys_read passes on only positive counts (read_write.c:68-70); _bmap panics beyond the largest file. */
  predicate ReadApplies(c: Setting, n: int, pos: int, count: int) {
    0 <= n < |c.num| && c.num[n] != DENIED && 0 <= pos && count > 0 && pos + count <= MAX_BYTES
  }

  predicate WriteApplies(c: Setting, size: int, n: int, append: bool, fpos: int, buf: seq<int>) {
    && 0 <= n < |c.num| && c.num[n] != DENIED && 0 <= fpos && 0 <= size
    && (if append then size else fpos) + |buf| <= MAX_BYTES
  }

  /** The event of an operation: it is refused if and only if it does not apply; a read gives as many bytes as
      asked for, a write fewer only when the device is full. */
  ghost predicate Outcome(g: Geometry, c: Setting, op: FileOp, fs: Fs, e: FileEvent, fs': Fs)
    requires Shape(g, fs) && Shape(g, fs') && |c.num| == |fs.inode|
  {
    match op
    case Read(n, pos, count) =>
      if ReadApplies(c, n, pos, count) then e.Got? && e.n == n && e.pos == pos && |e.out| == count else e == Refused
    case Write(n, append, fpos, buf) =>
      if 0 <= n < |c.num| && WriteApplies(c, fs.inode[n].size, n, append, fpos, buf) then
        && e.Put? && e.n == n && e.pos == (if append then fs.inode[n].size else fpos)
        && e.data <= buf && (e.data != buf ==> NoSpace(g, fs'))
      else e == Refused
  }

  ghost predicate OutcomeAt(g: Geometry, c: Setting, ops: seq<FileOp>, log: seq<FileEvent>, states: seq<Fs>, k: nat) {
    && k < |ops| && k < |log| && k + 1 < |states| && Shape(g, states[k]) && Shape(g, states[k + 1])
    && |c.num| == |states[k].inode| && Outcome(g, c, ops[k], states[k], log[k], states[k + 1])
  }

  /** Event k is the outcome of operation k, between states k and k + 1. */
  ghost predicate Follows(g: Geometry, c: Setting, ops: seq<FileOp>, log: seq<FileEvent>, states: seq<Fs>) {
    && |log| <= |ops| && |states| == |log| + 1
    && forall k :: 0 <= k < |log| ==> OutcomeAt(g, c, ops, log, states, k)
  }

  lemma FollowsNext(g: Geometry, c: Setting, ops: seq<FileOp>, log: seq<FileEvent>, states: seq<Fs>, e: FileEvent,
    fs: Fs)
    requires Follows(g, c, ops, log, states) && |log| < |ops| && Shape(g, states[|log|]) && Shape(g, fs)
    requires |c.num| == |states[|log|].inode| && Outcome(g, c, ops[|log|], states[|log|], e, fs)
    ensures Follows(g, c, ops, log + [e], states + [fs])
  {
    var log', states' := log + [e], states + [fs];
    forall k | 0 <= k < |log'| ensures OutcomeAt(g, c, ops, log', states', k) {
      if k < |log| { assert OutcomeAt(g, c, ops, log, states, k); }
    }
  }

  lemma PlainShown(g: Geometry, fs: Fs, n: int, plain: seq<Block>, pos: int, out: seq<int>)
    requires Shape(g, fs) && 0 <= n < |fs.inode| && PlainShape(plain) && ContentsOf(g, fs, n) == plain
    requires 0 <= pos && pos + |out| <= MAX_BYTES && forall k :: 0 <= k < |out| ==> out[k] == ByteAt(g, fs, n, pos + k)
    ensures Shown(plain, pos, out)
  {
    PlainBytes(g, fs, n, plain, pos, out);
  }

  lemma KeptStored(g: Geometry, fs: Fs, fs': Fs, c: Setting, plains: seq<seq<Block>>)
    requires AllStored(g, fs, c, plains) && SameContents(g, fs, fs')
    requires forall m, k, plain :: StoredAs(g, fs, m, k, plain) ==> StoredAs(g, fs', m, k, plain)
    ensures AllStored(g, fs', c, plains)
  {
    forall n | 0 <= n < |plains| ensures FileStored(g, fs', c, n, plains[n]) {
      assert FileStored(g, fs, c, n, plains[n]);
      if n !in c.marked { SamePlain(g, fs, fs', n); }
    }
  }

  lemma SamePlain(g: Geometry, fs: Fs, fs': Fs, n: int)
    requires Shape(g, fs) && Shape(g, fs') && 0 <= n < |fs.inode| && n < |fs'.inode|
    requires forall b :: FileBlock(fs, n, b) ==> Content(g, fs', n, b) == Content(g, fs, n, b)
    ensures ContentsOf(g, fs', n) == ContentsOf(g, fs, n)
  {
    forall b | 0 <= b < MAX_BLOCKS ensures ContentsOf(g, fs', n)[b] == ContentsOf(g, fs, n)[b] {
      assert FileBlock(fs, n, b);
    }
  }

  /** A write to file n leaves the other files stored as they were. */
  lemma OthersStored(g: Geometry, fs: Fs, fs': Fs, c: Setting, n: int, m: int, plain: seq<Block>)
    requires Shape(g, fs) && Shape(g, fs') && OthersSame(g, fs, fs', n) && ZonesKept(g, fs, fs', n) && m != n
    requires FileStored(g, fs, c, m, plain)
    ensures FileStored(g, fs', c, m, plain)
  {
    assert forall b :: 0 <= b < MAX_BLOCKS ==> FileBlock(fs, m, b);
    FirstHoleSame(g, fs, fs', m, 0);
    SamePlain(g, fs, fs', m);
  }

  lemma WrittenStored(g: Geometry, fs: Fs, fs': Fs, c: Setting, n: int, plains: seq<seq<Block>>, plain': seq<Block>)
    requires AllStored(g, fs, c, plains) && 0 <= n < |plains| && Shape(g, fs')
    requires OthersSame(g, fs, fs', n) && ZonesKept(g, fs, fs', n) && FileStored(g, fs', c, n, plain')
    ensures AllStored(g, fs', c, plains[n := plain'])
  {
    var plains' := plains[n := plain'];
    forall m | 0 <= m < |plains'| ensures FileStored(g, fs', c, m, plains'[m]) {
      if m != n { OthersStored(g, fs, fs', c, n, m, plains[m]); }
    }
  }

  // ------------------------------------------------------------------ the operations

  method DoRead(v: FileSystem, c: Setting, n: int, pos: int, count: int, ghost plains: seq<seq<Block>>)
    returns (e: FileEvent)
    requires v.Valid() && AllStored(v.g, v.F(), c, plains)
    modifies v`use, v.zmap, v.disk, v.inode
    ensures v.Valid() && AllStored(v.g, v.F(), c, plains)
    ensures Outcome(v.g, c, Read(n, pos, count), old(v.F()), e, v.F())
    ensures e.Got? ==> Shown(plains[n], pos, e.out)
    ensures !e.Put?
  {
    if !ReadApplies(c, n, pos, count) { return Refused; }
    ghost var fs := v.F();
    assert FileStored(v.g, fs, c, n, plains[n]);
    var out, newPos := ReadFile(v, n, c.num[n], true, n in c.marked, c.key, pos, count);
    if n !in c.marked { PlainShown(v.g, fs, n, plains[n], pos, out); }
    KeptStored(v.g, fs, v.F(), c, plains);
    e := Got(n, pos, out);
  }

  /** file_write on a file, marked or not. */
  method WriteEither(v: FileSystem, c: Setting, n: int, append: bool, fpos: int, buf: seq<int>, ghost plain: seq<Block>)
    returns (i: int, ghost plain': seq<Block>)
    requires v.Valid() && 0 <= n < v.inode.Length && |c.key| >= 1 && FileStored(v.g, v.F(), c, n, plain)
    requires 0 <= fpos && 0 <= v.inode[n].size && (if append then v.inode[n].size else fpos) + |buf| <= MAX_BYTES
    modifies v`use, v.zmap, v.disk, v.inode
    ensures v.Valid() && 0 <= i <= |buf| && (i < |buf| ==> NoSpace(v.g, v.F()))
    ensures FileStored(v.g, v.F(), c, n, plain')
    ensures PlainSpliced(plain, plain', if append then old(v.inode[n].size) else fpos, buf[..i])
    ensures OthersSame(v.g, old(v.F()), v.F(), n) && ZonesKept(v.g, old(v.F()), v.F(), n)
  {
    var newPos;
    if n in c.marked {
      i, newPos, plain' := WriteMarkedFile(v, n, c.key, append, fpos, buf, plain);
    } else {
      ghost var fs, pos := v.F(), if append then v.inode[n].size else fpos;
      var panicked;
      i, newPos, panicked := v.FileWrite(n, append, fpos, buf);
      plain' := ContentsOf(v.g, v.F(), n);
      SplicedPlain(v.g, fs, v.F(), n, pos, buf[..i], plain, plain');
    }
  }

  /** From plains to plains' exactly the event's bytes have been spliced in. */
  ghost predicate PutInto(plains: seq<seq<Block>>, plains': seq<seq<Block>>, e: FileEvent) {
    && Plaintexts(plains) && Plaintexts(plains') && |plains'| == |plains|
    && forall n, p :: 0 <= n < |plains| && 0 <= p < MAX_BYTES ==>
         PlainByte(plains'[n], p) ==
         if e.Put? && n == e.n && e.pos <= p < e.pos + |e.data| then e.data[p - e.pos] else PlainByte(plains[n], p)
  }

  lemma PutOne(plains: seq<seq<Block>>, n: int, plain': seq<Block>, pos: int, data: seq<int>)
    requires Plaintexts(plains) && 0 <= n < |plains| && PlainShape(plain') && PlainSpliced(plains[n], plain', pos, data)
    ensures PutInto(plains, plains[n := plain'], Put(n, pos, data))
  {
  }

  method DoWrite(v: FileSystem, c: Setting, n: int, append: bool, fpos: int, buf: seq<int>,
    ghost plains: seq<seq<Block>>)
    returns (e: FileEvent, ghost plains': seq<seq<Block>>)
    requires v.Valid() && AllStored(v.g, v.F(), c, plains) && Plaintexts(plains)
    modifies v`use, v.zmap, v.disk, v.inode
    ensures v.Valid() && AllStored(v.g, v.F(), c, plains') && PutInto(plains, plains', e) && !e.Got?
    ensures Outcome(v.g, c, Write(n, append, fpos, buf), old(v.F()), e, v.F())
  {
    if !(0 <= n < |c.num|) || !WriteApplies(c, v.inode[n].size, n, append, fpos, buf) { return Refused, plains; }
    ghost var fs := v.F();
    assert FileStored(v.g, fs, c, n, plains[n]);
    var pos := if append then v.inode[n].size else fpos;
    var i;
    ghost var plain';
    i, plain' := WriteEither(v, c, n, append, fpos, buf, plains[n]);
    WrittenStored(v.g, fs, v.F(), c, n, plains, plain');
    PutOne(plains, n, plain', pos, buf[..i]);
    plains' := plains[n := plain'];
    e := Put(n, pos, buf[..i]);
  }

  // ------------------------------------------------------------------ histories

  /** The plaintext behind what is stored: every state of the device is the stored form of one. */
  ghost function PlainOf(g: Geometry, fs: Fs, c: Setting, n: int): seq<Block>
    requires Shape(g, fs) && 0 <= n < |fs.inode| && |c.key| >= 1
  {
    seq(MAX_BLOCKS, b requires 0 <= b < MAX_BLOCKS =>
      if n in c.marked && b < FirstHole(g, fs, n, 0) then Decrypted(c.key, Content(g, fs, n, b))
        else Content(g, fs, n, b))
  }

  ghost function PlainsOf(g: Geometry, fs: Fs, c: Setting): (r: seq<seq<Block>>)
    requires Shape(g, fs) && |c.key| >= 1
    ensures |r| == |fs.inode|
  {
    seq(|fs.inode|, n requires 0 <= n < |fs.inode| => PlainOf(g, fs, c, n))
  }

  lemma StoredFromTheStart(g: Geometry, fs: Fs, c: Setting)
    requires Shape(g, fs) && |c.key| >= 1 && |c.num| == |fs.inode|
    ensures AllStored(g, fs, c, PlainsOf(g, fs, c))
  {
    forall n | 0 <= n < |fs.inode| ensures FileStored(g, fs, c, n, PlainsOf(g, fs, c)[n]) {
      FileFromTheStart(g, fs, c, n);
    }
  }

  lemma FileFromTheStart(g: Geometry, fs: Fs, c: Setting, n: int)
    requires Shape(g, fs) && 0 <= n < |fs.inode| && |c.key| >= 1
    ensures FileStored(g, fs, c, n, PlainOf(g, fs, c, n))
  {
    forall b | 0 <= b < MAX_BLOCKS ensures |Content(g, fs, n, b)| == BLOCK_SIZE { }
    if n in c.marked {
      forall b | 0 <= b < FirstHole(g, fs, n, 0)
        ensures Encrypted(c.key, PlainOf(g, fs, c, n)[b]) == Content(g, fs, n, b)
      {
        EncryptsDecrypted(c.key, Content(g, fs, n, b));
      }
    } else {
      assert ContentsOf(g, fs, n) == PlainOf(g, fs, c, n);
    }
  }

  /** Byte p of file n: what the last write to it put there, or what was there at the start. */
  ghost function Recall(start: seq<seq<Block>>, log: seq<FileEvent>, n: int, p: int): int
    requires Plaintexts(start) && 0 <= n < |start| && 0 <= p < MAX_BYTES
    decreases |log|
  {
    if log == [] then PlainByte(start[n], p)
    else
      var e := log[|log| - 1];
      if e.Put? && e.n == n && e.pos <= p < e.pos + |e.data| then e.data[p - e.pos]
      else Recall(start, log[..|log| - 1], n, p)
  }

  ghost predicate Agrees(start: seq<seq<Block>>, log: seq<FileEvent>, plains: seq<seq<Block>>) {
    && Plaintexts(start) && Plaintexts(plains) && |plains| == |start|
    && forall n, p :: 0 <= n < |start| && 0 <= p < MAX_BYTES ==> PlainByte(plains[n], p) == Recall(start, log, n, p)
  }

  lemma AgreesNext(start: seq<seq<Block>>, log: seq<FileEvent>, e: FileEvent, plains: seq<seq<Block>>,
    plains': seq<seq<Block>>)
    requires Agrees(start, log, plains) && PutInto(plains, plains', e)
    ensures Agrees(start, log + [e], plains')
  {
    assert (log + [e])[..|log|] == log;
  }

  ghost predicate ReadRight(start: seq<seq<Block>>, less: seq<FileEvent>, e: FileEvent)
    requires Plaintexts(start)
  {
    e.Got? ==>
      && 0 <= e.n < |start| && 0 <= e.pos && e.pos + |e.out| <= MAX_BYTES
      && forall k :: 0 <= k < |e.out| ==> e.out[k] == Recall(start, less, e.n, e.pos + k)
  }

  /** Every read returned the plaintext as it was then. */
  ghost predicate ReadsRight(start: seq<seq<Block>>, log: seq<FileEvent>) {
    Plaintexts(start) && forall j :: 0 <= j < |log| ==> ReadRight(start, log[..j], log[j])
  }

  lemma ReadsNext(start: seq<seq<Block>>, log: seq<FileEvent>, e: FileEvent, plains: seq<seq<Block>>)
    requires ReadsRight(start, log) && Agrees(start, log, plains)
    requires e.Got? ==> 0 <= e.n < |plains| && Shown(plains[e.n], e.pos, e.out)
    ensures ReadsRight(start, log + [e])
  {
    var log' := log + [e];
    forall j | 0 <= j < |log'| ensures ReadRight(start, log'[..j], log'[j]) {
      if j < |log| { assert log'[..j] == log[..j]; } else { assert log'[..j] == log; }
    }
  }

  /** Any history: every read returns the plaintext, every write splices into it, and at the end every marked
      file is stored as its plaintext with the hole-free prefix transposed. */
  method Run(v: FileSystem, c: Setting, ops: seq<FileOp>)
    returns (log: seq<FileEvent>, ghost plains: seq<seq<Block>>, ghost states: seq<Fs>)
    requires v.Valid() && |c.key| >= 1 && |c.num| == v.inode.Length
    modifies v`use, v.zmap, v.disk, v.inode
    ensures v.Valid() && |log| == |ops| && AllStored(v.g, v.F(), c, plains)
    ensures var start := PlainsOf(v.g, old(v.F()), c); Agrees(start, log, plains) && ReadsRight(start, log)
    ensures Follows(v.g, c, ops, log, states) && states[0] == old(v.F()) && states[|ops|] == v.F()
  {
    StoredFromTheStart(v.g, v.F(), c);
    ghost var start := PlainsOf(v.g, v.F(), c);
    plains, log, states := start, [], [v.F()];
    assert Plaintexts(start) by { assert forall n :: 0 <= n < |start| ==> FileStored(v.g, v.F(), c, n, start[n]); }
    for k := 0 to |ops|
      invariant v.Valid() && |log| == k && AllStored(v.g, v.F(), c, plains)
      invariant Agrees(start, log, plains) && ReadsRight(start, log)
      invariant Follows(v.g, c, ops, log, states) && states[0] == old(v.F()) && states[k] == v.F()
    {
      var e;
      e, plains := Do(v, c, ops[k], start, log, plains);
      FollowsNext(v.g, c, ops, log, states, e, v.F());
      log, states := log + [e], states + [v.F()];
    }
  }

  method Do(v: FileSystem, c: Setting, op: FileOp, ghost start: seq<seq<Block>>, ghost log: seq<FileEvent>,
    ghost plains: seq<seq<Block>>)
    returns (e: FileEvent, ghost plains': seq<seq<Block>>)
    requires v.Valid() && AllStored(v.g, v.F(), c, plains) && Agrees(start, log, plains) && ReadsRight(start, log)
    modifies v`use, v.zmap, v.disk, v.inode
    ensures v.Valid() && AllStored(v.g, v.F(), c, plains')
    ensures Agrees(start, log + [e], plains') && ReadsRight(start, log + [e])
    ensures Outcome(v.g, c, op, old(v.F()), e, v.F())
  {
    match op {
      case Read(n, pos, count) =>
        e := DoRead(v, c, n, pos, count, plains);
        plains' := plains;
      case Write(n, append, fpos, buf) =>
        e, plains' := DoWrite(v, c, n, append, fpos, buf, plains);
    }
    ReadsNext(start, log, e, plains);
    AgreesNext(start, log, e, plains, plains');
  }
}

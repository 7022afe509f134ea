/**
  The write-back cache of fs/buffer.c, run by one task at a time on a reliable disk.  `store` is the
  plain array of disk blocks a caller thinks in: only storing into a buffer changes it, and every
  bread returns its contents, whatever was evicted or written back in between.
 */
module BufferCaches {
  import opened BufferLists
  import opened BufferQueues
  import opened BufferIds

  /** The fields of a buffer head other than its links. */
  datatype Info = Info(id: Id, uptodate: bool, dirt: bool, count: int, data: Block)

  function Home(f: Id -> int, i: Info): int { if i.id.dev == 0 then NIL else f(i.id) }

  function Homes(f: Id -> int, info: seq<Info>): (r: seq<int>)
    ensures |r| == |info| && forall b :: 0 <= b < |info| ==> r[b] == Home(f, info[b])
  {
    seq(|info|, b requires 0 <= b < |info| => Home(f, info[b]))
  }

  // ------------------------------------------------------------------ what the cache keeps

  /** At most one buffer carries a given block. */
  ghost predicate Unique(info: seq<Info>) {
    forall b, c :: 0 <= b < |info| && 0 <= c < |info| && info[b].id.dev != 0 && info[b].id == info[c].id ==> b == c
  }

  ghost predicate BufferOk(info: seq<Info>, store: map<Id, Block>, b: int)
    requires 0 <= b < |info|
  {
    && info[b].count >= 0
    && (info[b].dirt ==> info[b].uptodate && info[b].id.dev != 0)
    && (info[b].uptodate && info[b].id.dev != 0 ==> info[b].data == Get(store, info[b].id))
  }

  /** Outside dirty buffers, disk and store agree. */
  ghost predicate CleanOnDisk(info: seq<Info>, disk: map<Id, Block>, store: map<Id, Block>, id: Id) {
    (exists b :: 0 <= b < |info| && info[b].dirt && info[b].id == id) || Get(disk, id) == Get(store, id)
  }

  ghost predicate Coherent(info: seq<Info>, disk: map<Id, Block>, store: map<Id, Block>) {
    && Unique(info)
    && (forall b :: 0 <= b < |info| ==> BufferOk(info, store, b))
    && (forall id :: CleanOnDisk(info, disk, store, id))
  }

  lemma StillClean(info: seq<Info>, info': seq<Info>, disk: map<Id, Block>, store: map<Id, Block>, id: Id)
    requires CleanOnDisk(info, disk, store, id) && |info'| == |info|
    requires forall c :: 0 <= c < |info| && info[c].dirt ==> info'[c].dirt && info'[c].id == info[c].id
    ensures CleanOnDisk(info', disk, store, id)
  {
    if Get(disk, id) != Get(store, id) {
      var c :| 0 <= c < |info| && info[c].dirt && info[c].id == id;
      assert info'[c].dirt && info'[c].id == id;
    }
  }

  /** Writing a buffer out (ll_rw_block WRITE): the store is not changed. */
  lemma WriteOutKeeps(info: seq<Info>, disk: map<Id, Block>, store: map<Id, Block>, b: int)
    requires Coherent(info, disk, store) && 0 <= b < |info| && info[b].dirt
    ensures Coherent(info[b := info[b].(dirt := false)], disk[info[b].id := info[b].data], store)
  {
    var info', disk' := info[b := info[b].(dirt := false)], disk[info[b].id := info[b].data];
    assert BufferOk(info, store, b);
    forall c | 0 <= c < |info'| ensures BufferOk(info', store, c) { assert BufferOk(info, store, c); }
    forall id ensures CleanOnDisk(info', disk', store, id) {
      assert CleanOnDisk(info, disk, store, id);
      if id != info[b].id && Get(disk, id) != Get(store, id) {
        var c :| 0 <= c < |info| && info[c].dirt && info[c].id == id;
        assert info'[c].dirt && info'[c].id == id;
      }
    }
  }

  /** Reading a block in (ll_rw_block READ) into a buffer that is not up to date. */
  lemma ReadInKeeps(info: seq<Info>, disk: map<Id, Block>, store: map<Id, Block>, b: int)
    requires Coherent(info, disk, store) && 0 <= b < |info| && !info[b].uptodate && info[b].id.dev != 0
    ensures Get(disk, info[b].id) == Get(store, info[b].id)
    ensures Coherent(info[b := info[b].(uptodate := true, dirt := false, data := Get(disk, info[b].id))], disk, store)
  {
    var id := info[b].id;
    assert CleanOnDisk(info, disk, store, id) && BufferOk(info, store, b);
    var info' := info[b := info[b].(uptodate := true, dirt := false, data := Get(disk, id))];
    forall c | 0 <= c < |info'| ensures BufferOk(info', store, c) { assert BufferOk(info, store, c); }
    forall i ensures CleanOnDisk(info', disk, store, i) { StillClean(info, info', disk, store, i); }
  }

  function WithCount(info: seq<Info>, b: int, n: int): seq<Info>
    requires 0 <= b < |info|
  {
    info[b := info[b].(count := n)]
  }

  /** `b_count--`, refused on a free buffer. */
  function Lowered(info: seq<Info>, b: int): seq<Info>
    requires 0 <= b < |info|
  {
    if info[b].count > 0 then WithCount(info, b, info[b].count - 1) else info
  }

  lemma LowerKeeps(info: seq<Info>, disk: map<Id, Block>, store: map<Id, Block>, b: int)
    requires Coherent(info, disk, store) && 0 <= b < |info|
    ensures Coherent(Lowered(info, b), disk, store)
  {
    if info[b].count > 0 { CountKeeps(info, disk, store, b, info[b].count - 1); }
  }

  /** A change of use count changes nothing. */
  lemma CountKeeps(info: seq<Info>, disk: map<Id, Block>, store: map<Id, Block>, b: int, n: int)
    requires Coherent(info, disk, store) && 0 <= b < |info| && n >= 0
    ensures Coherent(WithCount(info, b, n), disk, store)
  {
    var info' := info[b := info[b].(count := n)];
    forall c | 0 <= c < |info'| ensures BufferOk(info', store, c) { assert BufferOk(info, store, c); }
    forall i ensures CleanOnDisk(info', disk, store, i) { StillClean(info, info', disk, store, i); }
  }

  /** Giving a clean buffer a new identity that no buffer carries. */
  lemma ReuseKeeps(info: seq<Info>, disk: map<Id, Block>, store: map<Id, Block>, b: int, id: Id, n: int)
    requires Coherent(info, disk, store) && 0 <= b < |info| && !info[b].dirt && n >= 0
    requires forall c :: 0 <= c < |info| && c != b ==> info[c].id != id
    ensures Coherent(info[b := info[b].(id := id, uptodate := false, dirt := false, count := n)], disk, store)
  {
    var info' := info[b := info[b].(id := id, uptodate := false, dirt := false, count := n)];
    forall c | 0 <= c < |info'| ensures BufferOk(info', store, c) { assert BufferOk(info, store, c); }
    forall i ensures CleanOnDisk(info', disk, store, i) { StillClean(info, info', disk, store, i); }
  }

  /** Storing into a buffer and marking it dirty is a store to the block it carries. */
  lemma StoreKeeps(info: seq<Info>, disk: map<Id, Block>, store: map<Id, Block>, b: int, data: Block)
    requires Coherent(info, disk, store) && 0 <= b < |info| && info[b].id.dev != 0
    ensures Coherent(info[b := info[b].(data := data, uptodate := true, dirt := true)], disk, store[info[b].id := data])
  {
    var id := info[b].id;
    var info', store' := info[b := info[b].(data := data, uptodate := true, dirt := true)], store[id := data];
    forall c | 0 <= c < |info'| ensures BufferOk(info', store', c) { assert BufferOk(info, store, c); }
    forall i ensures CleanOnDisk(info', disk, store', i) {
      assert CleanOnDisk(info, disk, store, i);
      if i == id {
        assert info'[b].dirt && info'[b].id == i;
      } else if Get(disk, i) != Get(store, i) {
        var c :| 0 <= c < |info| && info[c].dirt && info[c].id == i;
        assert info'[c].dirt && info'[c].id == i;
      }
    }
  }

  // ------------------------------------------------------------------ link stores

  /** The stores of remove_from_queues (buffer.c:74-86), in their order; h is NIL without a device. */
  method Unlink(l: Links, h: int, b: int) returns (r: Links)
    requires |l.nx| == |l.pv| == |l.nf| == |l.pf| && 0 <= b < |l.nx| && h < |l.hash|
    requires 0 <= l.pf[b] < |l.nf| && 0 <= l.nf[b] < |l.pf|
    requires (l.nx[b] == NIL || 0 <= l.nx[b] < |l.nx|) && (l.pv[b] == NIL || 0 <= l.pv[b] < |l.nx|)
    ensures r == LinksRemoved(l, h, b)
  {
    var nx, pv, nf, pf, hash, freeList := l.nx, l.pv, l.nf, l.pf, l.hash, l.freeList;
    if nx[b] != NIL { pv := pv[nx[b] := pv[b]]; }
    if l.pv[b] != NIL { nx := nx[l.pv[b] := nx[b]]; }
    if 0 <= h && hash[h] == b { hash := hash[h := nx[b]]; }
    nf := nf[pf[b] := nf[b]];
    pf := pf[nf[b] := pf[b]];
    if freeList == b { freeList := nf[b]; }
    r := Links(nx, pv, nf, pf, hash, freeList);
  }

  /** The stores of insert_into_queues (buffer.c:92-103), the back link guarded. */
  method Link(l: Links, h: int, b: int) returns (r: Links)
    requires |l.nx| == |l.pv| == |l.nf| == |l.pf| && 0 <= b < |l.nx| && h < |l.hash|
    requires 0 <= l.freeList < |l.pf| && 0 <= l.pf[l.freeList] < |l.nf|
    requires 0 <= h ==> l.hash[h] == NIL || 0 <= l.hash[h] < |l.pv|
    ensures r == LinksInserted(l, h, b)
  {
    var nx, pv, nf, pf, hash := l.nx, l.pv, l.nf, l.pf, l.hash;
    var last := pf[l.freeList];
    nf := nf[b := l.freeList];
    pf := pf[b := last];
    nf := nf[last := b];
    pf := pf[l.freeList := b];
    pv := pv[b := NIL];
    nx := nx[b := NIL];
    if 0 <= h {
      nx := nx[b := hash[h]];
      if hash[h] != NIL { pv := pv[hash[h] := b]; }
      hash := hash[h := b];
    }
    r := Links(nx, pv, nf, pf, hash, l.freeList);
  }

  function Blank(n: nat): (r: seq<Info>)
    ensures |r| == n && forall b :: 0 <= b < n ==> r[b] == Info(Id(0, 0), false, false, 0, [])
  {
    seq(n, _ => Info(Id(0, 0), false, false, 0, []))
  }

  lemma BlankCoherent(n: nat, d: map<Id, Block>)
    ensures Coherent(Blank(n), d, d)
  {
  }

  // ------------------------------------------------------------------ the cache

  /** Well formed queues holding every buffer but `out`. */
  ghost predicate QueuesBut(f: Id -> int, l: Links, info: seq<Info>, s: Shape, out: int) {
    && IsHash(f) && Linked(l, Homes(f, info), s)
    && (forall b :: 0 <= b < |info| && b != out ==> b in s.ring) && out !in s.ring
  }

  lemma AllHeld(info: seq<Info>, disk: map<Id, Block>, store: map<Id, Block>, ring: seq<int>, id: Id)
    requires Coherent(info, disk, store) && forall b :: 0 <= b < |info| ==> b in ring && info[b].count != 0
    requires forall b :: 0 <= b < |info| && b in ring ==> info[b].id != id
    ensures forall b :: 0 <= b < |info| ==> info[b].count > 0 && info[b].id != id
  {
    forall b | 0 <= b < |info| ensures info[b].count > 0 && info[b].id != id { assert BufferOk(info, store, b); }
  }

  lemma TwoQueued(f: Id -> int, l: Links, info: seq<Info>, s: Shape, b: int)
    requires |info| >= 2 && QueuesBut(f, l, info, s, NIL) && 0 <= b < |info|
    ensures b in s.ring && |s.ring| >= 2
  {
    var c := if b == 0 then 1 else 0;
    assert b in s.ring && c in s.ring;
  }

  lemma HeadReady(l: Links, home: seq<int>, s: Shape, h: int)
    requires Linked(l, home, s) && HomeOk(h)
    ensures h < |l.hash| && (0 <= h ==> l.hash[h] == NIL || 0 <= l.hash[h] < |l.pv|)
  {
    if h != NIL { HeadMember(l, home, s, h); }
  }

  lemma RemoveReady(f: Id -> int, l: Links, info: seq<Info>, s: Shape, b: int)
    requires |info| >= 2 && QueuesBut(f, l, info, s, NIL) && 0 <= b < |info|
    ensures |l.nx| == |l.pv| == |l.nf| == |l.pf| == |info| && Home(f, info[b]) < |l.hash| && b in s.ring
    ensures 0 <= l.pf[b] < |l.nf| && 0 <= l.nf[b] < |l.pf|
    ensures (l.nx[b] == NIL || 0 <= l.nx[b] < |l.nx|) && (l.pv[b] == NIL || 0 <= l.pv[b] < |l.nx|)
    ensures QueuesBut(f, LinksRemoved(l, Home(f, info[b]), b), info, Removed(s, Homes(f, info), b), b)
  {
    var home := Homes(f, info);
    TwoQueued(f, l, info, s, b);
    RemoveKeeps(l, home, s, b);
    Neighbours(l, home, s, b);
  }

  lemma InsertReady(f: Id -> int, l: Links, info: seq<Info>, s: Shape, b: int)
    requires QueuesBut(f, l, info, s, b) && 0 <= b < |info|
    ensures |l.nx| == |l.pv| == |l.nf| == |l.pf| == |info| && Home(f, info[b]) < |l.hash|
    ensures 0 <= l.freeList < |l.pf| && 0 <= l.pf[l.freeList] < |l.nf|
    ensures 0 <= Home(f, info[b]) ==> l.hash[Home(f, info[b])] == NIL || 0 <= l.hash[Home(f, info[b])] < |l.pv|
    ensures QueuesBut(f, LinksInserted(l, Home(f, info[b]), b), info, Inserted(s, Homes(f, info), b), NIL)
  {
    InsertKeeps(l, Homes(f, info), s, b);
    HeadReady(l, Homes(f, info), s, Home(f, info[b]));
  }

  /** Only identities matter to the queues. */
  lemma HomesSame(f: Id -> int, l: Links, info: seq<Info>, info': seq<Info>, s: Shape, out: int)
    requires QueuesBut(f, l, info, s, out) && |info'| == |info|
    requires forall b :: 0 <= b < |info| ==> info'[b].id == info[b].id
    ensures QueuesBut(f, l, info', s, out)
  {
    assert Homes(f, info') == Homes(f, info);
  }

  lemma HomesRenamed(f: Id -> int, l: Links, info: seq<Info>, s: Shape, b: int, i: Info)
    requires QueuesBut(f, l, info, s, b) && 0 <= b < |info|
    ensures QueuesBut(f, l, info[b := i], s, b)
  {
    RenameKeeps(l, Homes(f, info), s, b, Home(f, i));
    assert Homes(f, info[b := i]) == Homes(f, info)[b := Home(f, i)];
  }

  lemma BlankQueues(f: Id -> int, n: nat)
    requires n >= 2 && IsHash(f)
    ensures QueuesBut(f, InitialLinks(n), Blank(n), InitialShape(n), NIL)
  {
    InitialLinked(n, Homes(f, Blank(n)));
  }

  /** The buffer heads as buffer_init leaves them. */
  method InitialHeads(f: Id -> int, n: nat, d: map<Id, Block>) returns (heads: seq<Info>, l: Links, ghost sh: Shape)
    requires n >= 2 && IsHash(f)
    ensures |heads| == n && QueuesBut(f, l, heads, sh, NIL) && Coherent(heads, d, d)
    ensures forall b :: 0 <= b < n ==> heads[b] == Info(Id(0, 0), false, false, 0, [])
  {
    BlankCoherent(n, d);
    BlankQueues(f, n);
    heads, l, sh := Blank(n), InitialLinks(n), InitialShape(n);
  }

  /** b is the first unused buffer of the ring. */
  ghost predicate FirstUnused(info: seq<Info>, ring: seq<int>, b: int) {
    exists k :: FirstAt(info, ring, b, k)
  }

  ghost predicate FirstAt(info: seq<Info>, ring: seq<int>, b: int, k: int) {
    && 0 <= k < |ring| && ring[k] == b && 0 <= b < |info| && info[b].count == 0
    && forall j :: 0 <= j < k ==> 0 <= ring[j] < |info| && info[ring[j]].count != 0
  }

  /** Buffer b has gone to the end of the ring; the others keep their order. */
  ghost predicate MovedLast(ring: seq<int>, ring': seq<int>, b: int) {
    b in ring && ring' == Without(ring, At(ring, b)) + [b]
  }

  /** The buffers but b, which was turned over: a dirty one has first been written out with its whole device. */
  ghost predicate WrittenOut(info: seq<Info>, info': seq<Info>, b: int) {
    && |info'| == |info| && 0 <= b < |info|
    && forall c :: 0 <= c < |info| && c != b ==>
         info'[c] == info[c].(dirt := info[c].dirt && !(info[b].dirt && info[c].id.dev == info[b].id.dev))
  }

  /** What a request for a block does to the ring: nothing when the block is there or nothing is unused. */
  ghost predicate Replaced(info: seq<Info>, ring: seq<int>, id: Id, b: int, ring': seq<int>) {
    if b != NIL && (forall c :: 0 <= c < |info| ==> info[c].id != id)
    then FirstUnused(info, ring, b) && MovedLast(ring, ring', b)
    else ring' == ring
  }

  class BufferCache {
    const f: Id -> int
    var info: seq<Info>
    var links: Links
    var disk: map<Id, Block>
    /** The disk as callers see it. */
    ghost var store: map<Id, Block>
    ghost var shape: Shape

    ghost predicate Valid()
      reads this
    {
      |info| >= 2 && QueuesBut(f, links, info, shape, NIL) && Coherent(info, disk, store)
    }

    /** buffer_init: n buffers without a device, in one ring (buffer.c:225-254). */
    constructor (hash: Id -> int, n: nat, d: map<Id, Block>)
      requires n >= 2 && IsHash(hash)
      ensures Valid() && |info| == n && disk == d && store == d
    {
      var heads, l, sh := InitialHeads(hash, n, d);
      f, info, links, disk, store, shape := hash, heads, l, d, d, sh;
    }

    /** find_buffer agrees with a scan of all queued buffers (buffer.c:106-114). */
    method FindBuffer(id: Id) returns (r: int)
      requires IsHash(f) && Linked(links, Homes(f, info), shape) && id.dev != 0
      ensures r == NIL ==> forall b :: 0 <= b < |info| && b in shape.ring ==> info[b].id != id
      ensures r != NIL ==> 0 <= r < |info| && r in shape.ring && info[r].id == id
    {
      var h := f(id);
      ghost var home, chain := Homes(f, info), shape.chains[h];
      assert QueueOk(links, home, shape, h);
      var tmp := links.hash[h];
      ghost var k := 0;
      while tmp != NIL
        invariant 0 <= k <= |chain| && tmp == (if k < |chain| then chain[k] else NIL)
        invariant forall j :: 0 <= j < k ==> info[chain[j]].id != id
        decreases |chain| - k
      {
        if info[tmp].id == id {
          ChainMember(links, home, shape, h, tmp);
          return tmp;
        }
        assert LinkAt(links.nx, links.pv, chain, k);
        tmp := links.nx[tmp];
        k := k + 1;
      }
      forall b | 0 <= b < |info| && b in shape.ring ensures info[b].id != id {
        if info[b].id == id { InOwnChain(links, home, shape, b); }
      }
      return NIL;
    }

    /** remove_from_queues (buffer.c:71-87). */
    method RemoveFromQueues(b: int)
      requires |info| >= 2 && QueuesBut(f, links, info, shape, NIL) && 0 <= b < |info|
      modifies this`links, this`shape
      ensures QueuesBut(f, links, info, shape, b)
      ensures b in old(shape).ring && shape.ring == Without(old(shape).ring, At(old(shape).ring, b))
    {
      RemoveReady(f, links, info, shape, b);
      links := Unlink(links, Home(f, info[b]), b);
      shape := Removed(shape, Homes(f, info), b);
    }

    /** insert_into_queues (buffer.c:89-104). */
    method InsertIntoQueues(b: int)
      requires QueuesBut(f, links, info, shape, b) && 0 <= b < |info|
      modifies this`links, this`shape
      ensures QueuesBut(f, links, info, shape, NIL) && shape.ring == old(shape).ring + [b]
    {
      var h := Home(f, info[b]);
      InsertReady(f, links, info, shape, b);
      links := Link(links, h, b);
      shape := Inserted(shape, Homes(f, info), b);
    }

    /** sync_dev: every dirty buffer of the device is written out (buffer.c:52-66). */
    method SyncDev(dev: int)
      requires Coherent(info, disk, store)
      modifies this`info, this`disk
      ensures Coherent(info, disk, store) && |info| == |old(info)|
      ensures forall b :: 0 <= b < |info| ==>
                info[b] == old(info)[b].(dirt := old(info)[b].dirt && old(info)[b].id.dev != dev)
      ensures forall id: Id :: id.dev == dev ==> Get(disk, id) == Get(store, id)
    {
      for i := 0 to |info|
        invariant Coherent(info, disk, store) && |info| == |old(info)|
        invariant forall b :: 0 <= b < |info| ==>
                    info[b] == old(info)[b].(dirt := old(info)[b].dirt && !(b < i && old(info)[b].id.dev == dev))
      {
        if info[i].id.dev == dev && info[i].dirt {
          WriteOutKeeps(info, disk, store, i);
          disk := disk[info[i].id := info[i].data];
          info := info[i := info[i].(dirt := false)];
        }
      }
      forall id: Id | id.dev == dev ensures Get(disk, id) == Get(store, id) {
        assert CleanOnDisk(info, disk, store, id);
      }
    }

    /** The scan for an unused buffer, from free_list round the ring (buffer.c:151-159). */
    method FindUnused() returns (tmp: int)
      requires QueuesBut(f, links, info, shape, NIL)
      ensures tmp == NIL ==> forall b :: 0 <= b < |info| ==> info[b].count != 0
      ensures tmp != NIL ==> 0 <= tmp < |info| && info[tmp].count == 0 && FirstUnused(info, shape.ring, tmp)
    {
      ghost var ring := shape.ring;
      tmp := links.freeList;
      ghost var k := 0;
      while info[tmp].count != 0
        invariant 0 <= k < |ring| && tmp == ring[k]
        invariant forall j :: 0 <= j < k ==> info[ring[j]].count != 0
        decreases |ring| - k
      {
        assert RingAt(links.nf, links.pf, ring, k);
        tmp := links.nf[tmp];
        if tmp == links.freeList {
          assert k + 1 == |ring|;
          forall b | 0 <= b < |info| ensures info[b].count != 0 { var j := At(ring, b); }
          return NIL;
        }
        k := k + 1;
      }
      assert FirstAt(info, ring, tmp, k);
    }

    /** getblk: the buffer that carries the block, or an unused one turned over to it, dirty data first
        written out; NIL when every buffer is in use, where the source sleeps (buffer.c:144-194). The one turned
        over is the first unused in the ring, and it goes to the end of the ring: the oldest is evicted first. */
    method GetBlk(id: Id) returns (b: int)
      requires Valid() && id.dev != 0
      modifies this`info, this`links, this`disk, this`shape
      ensures Valid() && |info| == |old(info)|
      ensures b == NIL ==> forall c :: 0 <= c < |info| ==> old(info)[c].count > 0 && old(info)[c].id != id
      ensures b != NIL ==> 0 <= b < |info| && info[b].id == id && info[b].count >= 1
      ensures forall c :: 0 <= c < |info| && c != b && old(info)[c].count > 0 ==>
              info[c] == old(info)[c].(dirt := info[c].dirt)
      ensures b != NIL && old(info)[b].count > 0 ==> info[b] == old(info)[b].(count := old(info)[b].count + 1)
      ensures forall c :: 0 <= c < |info| ==> info[c].count == old(info)[c].count + (if c == b then 1 else 0)
      ensures Replaced(old(info), old(shape).ring, id, b, shape.ring)
      ensures b == NIL ==> info == old(info)
      ensures b != NIL && old(info)[b].id == id ==> info == WithCount(old(info), b, old(info)[b].count + 1)
      ensures b != NIL && old(info)[b].id != id ==> WrittenOut(old(info), info, b) && !info[b].uptodate && !info[b].dirt
    {
      b := FindBuffer(id);
      if b != NIL {
        assert BufferOk(info, store, b);
        SetCount(b, info[b].count + 1);
        return;
      }
      b := FindUnused();
      if b == NIL {
        AllHeld(info, disk, store, shape.ring, id);
        return;
      }
      TurnOver(b, id);
    }

    method SetCount(b: int, n: int)
      requires Valid() && 0 <= b < |info| && n >= 0
      modifies this`info
      ensures Valid() && info == WithCount(old(info), b, n)
    {
      CountKeeps(info, disk, store, b, n);
      HomesSame(f, links, info, WithCount(info, b, n), shape, NIL);
      info := WithCount(info, b, n);
    }

    /** Evicts what buffer b carries and gives it a new block (buffer.c:167-193). */
    method TurnOver(b: int, id: Id)
      requires Valid() && 0 <= b < |info| && info[b].count == 0 && id.dev != 0
      requires forall c :: 0 <= c < |info| ==> info[c].id != id
      modifies this`info, this`links, this`disk, this`shape
      ensures Valid() && |info| == |old(info)|
      ensures info[b].id == id && info[b].count == 1 && !info[b].uptodate && !info[b].dirt
      ensures WrittenOut(old(info), info, b)
      ensures MovedLast(old(shape).ring, shape.ring, b)
    {
      SetCount(b, 1);
      RemoveFromQueues(b);
      if info[b].dirt {
        ghost var before := info;
        SyncDev(info[b].id.dev);
        HomesSame(f, links, before, info, shape, b);
      }
      ReuseKeeps(info, disk, store, b, id, 1);
      var i := info[b].(id := id, uptodate := false, dirt := false, count := 1);
      HomesRenamed(f, links, info, shape, b, i);
      info := info[b := i];
      InsertIntoQueues(b);
    }

    /** bread: the buffer holds the last contents stored to the block (buffer.c:210-223). */
    method BRead(id: Id) returns (b: int)
      requires Valid() && id.dev != 0
      modifies this`info, this`links, this`disk, this`shape
      ensures Valid() && |info| == |old(info)|
      ensures b == NIL ==> forall c :: 0 <= c < |info| ==> old(info)[c].count > 0 && old(info)[c].id != id
      ensures b != NIL ==> 0 <= b < |info| && info[b].id == id && info[b].count >= 1 && info[b].uptodate
      ensures b != NIL ==> info[b].data == Get(store, id)
      ensures forall c :: 0 <= c < |info| ==> info[c].count == old(info)[c].count + (if c == b then 1 else 0)
      ensures forall c :: 0 <= c < |info| && old(info)[c].count > 0 ==> info[c].id == old(info)[c].id
      ensures Replaced(old(info), old(shape).ring, id, b, shape.ring)
    {
      b := GetBlk(id);
      if b != NIL { FillIn(b); }
    }

    /** The buffer is read in unless it is up to date (buffer.c:216-222). */
    method FillIn(b: int)
      requires Valid() && 0 <= b < |info| && info[b].id.dev != 0
      modifies this`info
      ensures Valid() && |info| == |old(info)| && info[b].uptodate && info[b].data == Get(store, info[b].id)
      ensures forall c :: 0 <= c < |info| ==> info[c].count == old(info)[c].count && info[c].id == old(info)[c].id
    {
      assert BufferOk(info, store, b);
      if info[b].uptodate { return; }
      ReadInKeeps(info, disk, store, b);
      var i := info[b].(uptodate := true, dirt := false, data := Get(disk, info[b].id));
      HomesSame(f, links, info, info[b := i], shape, NIL);
      info := info[b := i];
    }

    /** A holder stores into its buffer and marks it dirty: a store to the block. */
    method Modify(b: int, data: Block)
      requires Valid() && 0 <= b < |info| && info[b].count >= 1 && info[b].id.dev != 0
      modifies this`info, this`store
      ensures Valid() && store == old(store)[info[b].id := data]
      ensures info == old(info)[b := old(info)[b].(data := data, uptodate := true, dirt := true)]
    {
      StoreKeeps(info, disk, store, b, data);
      var i := info[b].(data := data, uptodate := true, dirt := true);
      HomesSame(f, links, info, info[b := i], shape, NIL);
      store := store[info[b].id := data];
      info := info[b := i];
    }

    /** brelse: false stands for the panic on a free buffer (buffer.c:196-204). */
    method BRelse(b: int) returns (ok: bool)
      requires Valid() && 0 <= b < |info|
      modifies this`info
      ensures Valid()
      ensures ok == (old(info)[b].count > 0)
      ensures info == Lowered(old(info), b)
    {
      ok := info[b].count > 0;
      LowerKeeps(info, disk, store, b);
      HomesSame(f, links, info, Lowered(info, b), shape, NIL);
      info := Lowered(info, b);
    }

    /** sys_sync: afterwards the disk itself is what callers think it is (buffer.c:37-50). */
    method Sync()
      requires Valid()
      modifies this`info, this`disk
      ensures Valid() && (forall id :: Get(disk, id) == Get(store, id)) && |info| == |old(info)|
      ensures forall b :: 0 <= b < |info| ==> info[b].count == old(info)[b].count && info[b].id == old(info)[b].id
    {
      for i := 0 to |info|
        invariant Valid() && |info| == |old(info)|
        invariant forall b :: 0 <= b < i ==> !info[b].dirt
        invariant forall b :: 0 <= b < |info| ==> info[b].count == old(info)[b].count && info[b].id == old(info)[b].id
      {
        if info[i].dirt {
          WriteOutKeeps(info, disk, store, i);
          HomesSame(f, links, info, info[i := info[i].(dirt := false)], shape, NIL);
          disk := disk[info[i].id := info[i].data];
          info := info[i := info[i].(dirt := false)];
        }
      }
      forall id ensures Get(disk, id) == Get(store, id) { assert CleanOnDisk(info, disk, store, id); }
    }

    // ---------------------------------------------------------------- runs

    /** One operation by any holder. */
    method Do(op: CacheOp, ghost start: seq<Info>, ghost log: seq<CacheEvent>) returns (e: CacheEvent)
      requires Valid() && Accounts(start, log, info)
      modifies this
      ensures Valid() && |info| == |old(info)| && Accounts(start, log + [e], info) && Outcome(start, log, op, e)
      ensures e.Got? ==> e.data == Get(old(store), e.id)
      ensures store == if e.Stored? then old(store)[e.id := e.data] else old(store)
    {
      match op {
        case Bread(id) => e := DoBread(id, start, log);
        case Store(b, data) => e := DoStore(b, data, start, log);
        case Brelse(b) => e := DoBrelse(b, start, log);
        case SyncAll =>
          ghost var was := info;
          Sync();
          e := Other;
          QuietAccounts(start, log, e, was, info);
      }
    }

    method DoBread(id: Id, ghost start: seq<Info>, ghost log: seq<CacheEvent>) returns (e: CacheEvent)
      requires Valid() && Accounts(start, log, info)
      modifies this`info, this`links, this`disk, this`shape
      ensures Valid() && |info| == |old(info)| && Accounts(start, log + [e], info) && Outcome(start, log, Bread(id), e)
      ensures e.Got? ==> e.data == Get(store, e.id)
    {
      ghost var was := info;
      if id.dev == 0 {
        e := Other;
        QuietAccounts(start, log, e, was, info);
        return;
      }
      var b := BRead(id);
      if b == NIL {
        e := NoneFree;
        QuietAccounts(start, log, e, was, info);
        NoneFits(start, log, was, id);
      } else {
        e := Got(id, b, info[b].data);
        assert NamedAt(start, log, b, was[b]);
        GotAccounts(start, log, e, was, info);
      }
    }

    method DoStore(b: int, data: Block, ghost start: seq<Info>, ghost log: seq<CacheEvent>) returns (e: CacheEvent)
      requires Valid() && Accounts(start, log, info)
      modifies this`info, this`store
      ensures Valid() && |info| == |old(info)| && Accounts(start, log + [e], info)
      ensures Outcome(start, log, Store(b, data), e)
      ensures store == if e.Stored? then old(store)[e.id := e.data] else old(store)
    {
      ghost var was := info;
      assert 0 <= b < |info| ==> NamedAt(start, log, b, info[b]);
      e := Other;
      if 0 <= b < |info| && info[b].count >= 1 && info[b].id.dev != 0 {
        e := Stored(info[b].id, b, data);
        Modify(b, data);
      }
      QuietAccounts(start, log, e, was, info);
    }

    method DoBrelse(b: int, ghost start: seq<Info>, ghost log: seq<CacheEvent>) returns (e: CacheEvent)
      requires Valid() && Accounts(start, log, info)
      modifies this`info
      ensures Valid() && |info| == |old(info)| && Accounts(start, log + [e], info) && Outcome(start, log, Brelse(b), e)
    {
      ghost var was := info;
      assert 0 <= b < |info| ==> NamedAt(start, log, b, info[b]);
      e := Other;
      if 0 <= b < |info| {
        var ok := BRelse(b);
        if ok {
          e := Released(b);
          ReleasedAccounts(start, log, b, was, info);
          return;
        }
      }
      QuietAccounts(start, log, e, was, info);
    }

    /** Any run of bread, store, brelse and sync, with any buffers held meanwhile: every bread returns the last
        contents stored to its block, whatever was evicted or written back in between; a bread fails exactly
        when all buffers are in use for other blocks, and a store goes to the block the buffer is held for. */
    method Run(ops: seq<CacheOp>) returns (log: seq<CacheEvent>)
      requires Valid()
      modifies this
      ensures Valid() && |log| == |ops| && Answered(old(store), log) && Proper(old(info), ops, log)
      ensures forall b :: 0 <= b < |info| && info[b].uptodate && info[b].id.dev != 0 ==>
                info[b].data == Recall(old(store), log, info[b].id)
    {
      log := [];
      ghost var start, was := info, store;
      for k := 0 to |ops|
        invariant Valid() && |log| == k && Accounts(start, log, info)
        invariant Shows(was, log, store) && Answered(was, log) && Proper(start, ops[..k], log)
      {
        ghost var before := store;
        var e := Do(ops[k], start, log);
        EventShows(was, log, e, before, store);
        EventAnswered(was, log, e, before);
        EventProper(start, ops[..k], ops[k], log, e);
        assert ops[..k] + [ops[k]] == ops[..k + 1];
        log := log + [e];
      }
      assert ops[..|ops|] == ops;
      forall b | 0 <= b < |info| && info[b].uptodate && info[b].id.dev != 0
        ensures info[b].data == Recall(was, log, info[b].id)
      {
        assert BufferOk(info, store, b);
      }
    }
  }

  datatype CacheOp = Bread(id: Id) | Store(b: int, data: Block) | Brelse(b: int) | SyncAll

  /** What came of an operation. */
  datatype CacheEvent =
    | Got(id: Id, b: int, data: Block) | NoneFree
    | Stored(id: Id, b: int, data: Block) | Released(b: int) | Other

  /** The block buffer b was last handed out for. */
  function NameOf(start: seq<Info>, log: seq<CacheEvent>, b: int): Id
    requires 0 <= b < |start|
    decreases |log|
  {
    if log == [] then start[b].id
    else
      var e := log[|log| - 1];
      if e.Got? && e.b == b then e.id else NameOf(start, log[..|log| - 1], b)
  }

  /** How often buffer b has been handed out and not yet released. */
  function UsesOf(start: seq<Info>, log: seq<CacheEvent>, b: int): int
    requires 0 <= b < |start|
    decreases |log|
  {
    if log == [] then start[b].count else UsesOf(start, log[..|log| - 1], b) + Use(log[|log| - 1], b)
  }

  function Use(e: CacheEvent, b: int): int {
    if e.Got? && e.b == b then 1 else if e == Released(b) then -1 else 0
  }

  predicate NamedAt(start: seq<Info>, log: seq<CacheEvent>, b: int, i: Info)
    requires 0 <= b < |start|
  {
    i.count == UsesOf(start, log, b) && (i.count >= 1 ==> i.id == NameOf(start, log, b))
  }

  /** The log accounts for the use counts, and held buffers carry the block they were last handed out for. */
  ghost predicate Accounts(start: seq<Info>, log: seq<CacheEvent>, info: seq<Info>) {
    |start| == |info| && forall b :: 0 <= b < |start| ==> NamedAt(start, log, b, info[b])
  }

  lemma QuietAccounts(start: seq<Info>, log: seq<CacheEvent>, e: CacheEvent, was: seq<Info>, now: seq<Info>)
    requires Accounts(start, log, was) && |now| == |was| && !e.Got? && !e.Released?
    requires forall b :: 0 <= b < |was| ==>
               now[b].count == was[b].count && (was[b].count >= 1 ==> now[b].id == was[b].id)
    ensures Accounts(start, log + [e], now)
  {
    assert (log + [e])[..|log|] == log;
    forall b | 0 <= b < |start| ensures NamedAt(start, log + [e], b, now[b]) {
      assert NamedAt(start, log, b, was[b]);
    }
  }

  lemma GotAccounts(start: seq<Info>, log: seq<CacheEvent>, e: CacheEvent, was: seq<Info>, now: seq<Info>)
    requires Accounts(start, log, was) && |now| == |was| && e.Got? && 0 <= e.b < |was| && now[e.b].id == e.id
    requires forall b :: 0 <= b < |was| ==> now[b].count == was[b].count + (if b == e.b then 1 else 0)
    requires forall b :: 0 <= b < |was| && was[b].count > 0 ==> now[b].id == was[b].id
    ensures Accounts(start, log + [e], now)
  {
    assert (log + [e])[..|log|] == log;
    forall b | 0 <= b < |start| ensures NamedAt(start, log + [e], b, now[b]) {
      assert NamedAt(start, log, b, was[b]);
    }
  }

  lemma ReleasedAccounts(start: seq<Info>, log: seq<CacheEvent>, b: int, was: seq<Info>, now: seq<Info>)
    requires Accounts(start, log, was) && 0 <= b < |was| && was[b].count > 0 && now == Lowered(was, b)
    ensures Accounts(start, log + [Released(b)], now)
  {
    var e := Released(b);
    assert (log + [e])[..|log|] == log;
    forall c | 0 <= c < |start| ensures NamedAt(start, log + [e], c, now[c]) {
      assert NamedAt(start, log, c, was[c]);
    }
  }

  lemma NoneFits(start: seq<Info>, log: seq<CacheEvent>, info: seq<Info>, id: Id)
    requires Accounts(start, log, info)
    requires forall b :: 0 <= b < |info| ==> info[b].count > 0 && info[b].id != id
    ensures forall b :: 0 <= b < |start| ==> !Fits(start, log, b, id)
  {
    forall b | 0 <= b < |start| ensures !Fits(start, log, b, id) { assert NamedAt(start, log, b, info[b]); }
  }

  /** What an operation comes to after the log: a bread gets a buffer that was unused or is held for the same
      block, and nothing exactly when there is none; a store or release works exactly on a held buffer. */
  ghost predicate Outcome(start: seq<Info>, log: seq<CacheEvent>, op: CacheOp, e: CacheEvent) {
    match op
    case Bread(id) =>
      if id.dev == 0 then e == Other
      else if e.Got? then e.id == id && 0 <= e.b < |start| && Fits(start, log, e.b, id)
      else e == NoneFree && forall b :: 0 <= b < |start| ==> !Fits(start, log, b, id)
    case Store(b, data) =>
      e == if 0 <= b < |start| && UsesOf(start, log, b) >= 1 && NameOf(start, log, b).dev != 0
           then Stored(NameOf(start, log, b), b, data) else Other
    case Brelse(b) => e == if 0 <= b < |start| && UsesOf(start, log, b) >= 1 then Released(b) else Other
    case SyncAll => e == Other
  }

  predicate Fits(start: seq<Info>, log: seq<CacheEvent>, b: int, id: Id)
    requires 0 <= b < |start|
  {
    UsesOf(start, log, b) == 0 || NameOf(start, log, b) == id
  }

  /** The last contents stored to a block. */
  function Recall(start: map<Id, Block>, log: seq<CacheEvent>, id: Id): Block
    decreases |log|
  {
    if log == [] then Get(start, id)
    else
      var e := log[|log| - 1];
      if e.Stored? && e.id == id then e.data else Recall(start, log[..|log| - 1], id)
  }

  ghost predicate Shows(start: map<Id, Block>, log: seq<CacheEvent>, store: map<Id, Block>) {
    forall id :: Get(store, id) == Recall(start, log, id)
  }

  lemma EventShows(start: map<Id, Block>, log: seq<CacheEvent>, e: CacheEvent, store: map<Id, Block>,
    store': map<Id, Block>)
    requires Shows(start, log, store) && store' == if e.Stored? then store[e.id := e.data] else store
    ensures Shows(start, log + [e], store')
  {
    assert (log + [e])[..|log|] == log;
  }

  /** Every bread got the last contents stored to its block. */
  ghost predicate Answered(start: map<Id, Block>, log: seq<CacheEvent>) {
    forall j :: 0 <= j < |log| && log[j].Got? ==> log[j].data == Recall(start, log[..j], log[j].id)
  }

  lemma EventAnswered(start: map<Id, Block>, log: seq<CacheEvent>, e: CacheEvent, store: map<Id, Block>)
    requires Answered(start, log) && Shows(start, log, store) && (e.Got? ==> e.data == Get(store, e.id))
    ensures Answered(start, log + [e])
  {
    var log' := log + [e];
    forall j | 0 <= j < |log'| && log'[j].Got? ensures log'[j].data == Recall(start, log'[..j], log'[j].id) {
      if j < |log| { assert log'[..j] == log[..j]; } else { assert log'[..j] == log; }
    }
  }

  /** Every event is the outcome of its operation after the events before it. */
  ghost predicate Proper(start: seq<Info>, ops: seq<CacheOp>, log: seq<CacheEvent>) {
    |ops| == |log| && forall j :: 0 <= j < |log| ==> Outcome(start, log[..j], ops[j], log[j])
  }

  lemma EventProper(start: seq<Info>, ops: seq<CacheOp>, op: CacheOp, log: seq<CacheEvent>, e: CacheEvent)
    requires Proper(start, ops, log) && Outcome(start, log, op, e)
    ensures Proper(start, ops + [op], log + [e])
  {
    var log', ops' := log + [e], ops + [op];
    forall j | 0 <= j < |log'| ensures Outcome(start, log'[..j], ops'[j], log'[j]) {
      if j < |log| { assert log'[..j] == log[..j]; } else { assert log'[..j] == log; }
    }
  }
}

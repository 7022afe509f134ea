/**
  The hash queues and the free ring of the buffer cache (fs/buffer.c:68-114, 225-254).

  One entry per buffer head in each link table; insertion at the head of a hash queue is the guarded
  one (the source stores through b_next also when the queue was empty).
 */
module BufferQueues {
  import opened Common
  import opened BufferLists

  const NR_HASH := 307

  /** Which hash queue a buffer belongs to: NIL for a buffer without a device. */
  predicate HomeOk(home: int) { home == NIL || 0 <= home < NR_HASH }

  datatype Links = Links(nx: seq<int>, pv: seq<int>, nf: seq<int>, pf: seq<int>, hash: seq<int>, freeList: int)

  /** The sequences behind the links: the ring from free_list on, and one chain per hash value. */
  datatype Shape = Shape(ring: seq<int>, chains: seq<seq<int>>)

  ghost function Elems(s: seq<int>): set<int> { set x | x in s }

  ghost function Homed(members: set<int>, home: seq<int>, h: int): set<int> {
    set b | b in members && 0 <= b < |home| && home[b] == h
  }

  /** Queue h is a list of exactly the queued buffers that belong there. */
  ghost predicate QueueOk(l: Links, home: seq<int>, s: Shape, h: int)
    requires |s.chains| == NR_HASH && |l.hash| == NR_HASH && 0 <= h < NR_HASH
  {
    && Chain(l.nx, l.pv, s.chains[h]) && l.hash[h] == Head(s.chains[h])
    && Elems(s.chains[h]) == Homed(Elems(s.ring), home, h)
  }

  ghost predicate Sizes(l: Links, home: seq<int>, s: Shape) {
    && |home| == |l.nx| == |l.pv| == |l.nf| == |l.pf| && |l.hash| == NR_HASH && |s.chains| == NR_HASH
    && forall b :: 0 <= b < |home| ==> HomeOk(home[b])
  }

  /** The links are a cycle of the queued buffers and, per hash value, a list of exactly those that hash there. */
  ghost predicate Linked(l: Links, home: seq<int>, s: Shape) {
    && Sizes(l, home, s)
    && Ring(l.nf, l.pf, s.ring) && l.freeList == s.ring[0]
    && (forall h :: 0 <= h < NR_HASH ==> QueueOk(l, home, s, h))
    && (forall b :: b in Elems(s.ring) && 0 <= b < |home| && home[b] == NIL ==> l.nx[b] == NIL && l.pv[b] == NIL)
  }

  ghost function At(s: seq<int>, x: int): (k: int)
    requires x in s
    ensures 0 <= k < |s| && s[k] == x
  {
    var k :| 0 <= k < |s| && s[k] == x; k
  }

  lemma RingLinks(l: Links, home: seq<int>, s: Shape, b: int)
    requires Linked(l, home, s) && b in s.ring
    ensures 0 <= b < |l.nx| && 0 <= l.pf[b] < |l.nf| && 0 <= l.nf[b] < |l.pf|
  {
    assert RingAt(l.nf, l.pf, s.ring, At(s.ring, b));
  }

  /** A queued buffer with a home is in that chain. */
  lemma InOwnChain(l: Links, home: seq<int>, s: Shape, b: int)
    requires Linked(l, home, s) && b in s.ring && 0 <= b < |home| && home[b] != NIL
    ensures b in s.chains[home[b]]
  {
    assert QueueOk(l, home, s, home[b]);
    assert b in Homed(Elems(s.ring), home, home[b]);
  }

  /** A chain's members are queued and at home there. */
  lemma ChainMember(l: Links, home: seq<int>, s: Shape, h: int, b: int)
    requires Linked(l, home, s) && 0 <= h < NR_HASH && b in s.chains[h]
    ensures b in s.ring && 0 <= b < |home| && home[b] == h
  {
    assert QueueOk(l, home, s, h);
    assert b in Elems(s.chains[h]);
  }

  // ------------------------------------------------------------------ remove_from_queues

  function LinksRemoved(l: Links, h: int, b: int): Links
    requires |l.nx| == |l.pv| == |l.nf| == |l.pf| && 0 <= b < |l.nx|
    requires 0 <= l.pf[b] < |l.nf| && 0 <= l.nf[b] < |l.pf|
  {
    Links(NextAfterRemove(l.nx, l.pv, b), PrevAfterRemove(l.nx, l.pv, b),
          l.nf[l.pf[b] := l.nf[b]], l.pf[l.nf[b] := l.pf[b]],
          if 0 <= h < |l.hash| && l.hash[h] == b then l.hash[h := l.nx[b]] else l.hash,
          if l.freeList == b then l.nf[b] else l.freeList)
  }

  /** The shape after buffer b is taken out. */
  ghost function Removed(s: Shape, home: seq<int>, b: int): Shape
    requires b in s.ring && 0 <= b < |home|
  {
    Shape(Without(s.ring, At(s.ring, b)),
          if 0 <= home[b] < |s.chains| && b in s.chains[home[b]]
          then s.chains[home[b] := Without(s.chains[home[b]], At(s.chains[home[b]], b))] else s.chains)
  }

  lemma ElemsWithout(s: seq<int>, b: int, n: int)
    requires Distinct(s) && InRange(s, n) && b in s
    ensures Elems(Without(s, At(s, b))) == Elems(s) - {b}
  {
    WithoutDistinct(s, At(s, b), n);
  }

  lemma HomedWithout(members: set<int>, home: seq<int>, h: int, b: int)
    ensures Homed(members - {b}, home, h) == Homed(members, home, h) - {b}
    ensures 0 <= b < |home| && home[b] != h ==> Homed(members - {b}, home, h) == Homed(members, home, h)
  {
  }

  /** The neighbours of b in its chain belong to the same queue. */
  lemma Neighbours(l: Links, home: seq<int>, s: Shape, b: int)
    requires Linked(l, home, s) && b in s.ring && 0 <= b < |home|
    ensures home[b] == NIL ==> l.nx[b] == NIL && l.pv[b] == NIL
    ensures l.nx[b] != NIL ==> 0 <= l.nx[b] < |home| && home[l.nx[b]] == home[b]
    ensures l.pv[b] != NIL ==> 0 <= l.pv[b] < |home| && home[l.pv[b]] == home[b]
  {
    if home[b] != NIL {
      InOwnChain(l, home, s, b);
      assert QueueOk(l, home, s, home[b]);
      ChainStays(l.nx, l.pv, s.chains[home[b]], b);
      if l.nx[b] != NIL { ChainMember(l, home, s, home[b], l.nx[b]); }
      if l.pv[b] != NIL { ChainMember(l, home, s, home[b], l.pv[b]); }
    }
  }

  /** Links of queues other than that of b are not touched. */
  lemma OtherLinks(l: Links, home: seq<int>, s: Shape, b: int, h: int)
    requires Linked(l, home, s) && b in s.ring && 0 <= b < |home| && 0 <= h < NR_HASH && h != home[b]
    ensures Chain(NextAfterRemove(l.nx, l.pv, b), PrevAfterRemove(l.nx, l.pv, b), s.chains[h])
  {
    var nx', pv' := NextAfterRemove(l.nx, l.pv, b), PrevAfterRemove(l.nx, l.pv, b);
    Neighbours(l, home, s, b);
    assert QueueOk(l, home, s, h);
    forall x | x in s.chains[h] ensures nx'[x] == l.nx[x] && pv'[x] == l.pv[x] {
      ChainMember(l, home, s, h, x);
    }
    ChainFrame(l.nx, l.pv, nx', pv', s.chains[h]);
  }

  lemma OtherQueue(l: Links, home: seq<int>, s: Shape, b: int, h: int)
    requires Linked(l, home, s) && b in s.ring && 0 <= b < |home| && 0 <= h < NR_HASH && h != home[b]
    requires 0 <= l.pf[b] < |l.nf| && 0 <= l.nf[b] < |l.pf|
    ensures QueueOk(LinksRemoved(l, home[b], b), home, Removed(s, home, b), h)
  {
    OtherLinks(l, home, s, b, h);
    assert QueueOk(l, home, s, h);
    ElemsWithout(s.ring, b, |l.nx|);
    HomedWithout(Elems(s.ring), home, h, b);
  }

  lemma OwnQueue(l: Links, home: seq<int>, s: Shape, b: int)
    requires Linked(l, home, s) && b in s.ring && 0 <= b < |home| && home[b] != NIL
    requires 0 <= l.pf[b] < |l.nf| && 0 <= l.nf[b] < |l.pf|
    ensures QueueOk(LinksRemoved(l, home[b], b), home, Removed(s, home, b), home[b])
  {
    var h := home[b];
    var l', s' := LinksRemoved(l, h, b), Removed(s, home, b);
    InOwnChain(l, home, s, b);
    assert QueueOk(l, home, s, h);
    var c, k := s.chains[h], At(s.chains[h], b);
    ChainRemove(l.nx, l.pv, c, k);
    ElemsWithout(c, b, |l.nx|);
    ElemsWithout(s.ring, b, |l.nx|);
    HomedWithout(Elems(s.ring), home, h, b);
    HeadIs(c, b, k);
  }

  lemma HeadIs(c: seq<int>, b: int, k: int)
    requires Distinct(c) && 0 <= k < |c| && c[k] == b
    ensures Head(c) == b <==> k == 0
  {
  }

  /** The removal of b reaches x only as a neighbour, and then x has the same home as b. */
  lemma OnlyNeighbours(nx: seq<int>, pv: seq<int>, home: seq<int>, b: int, x: int)
    requires |nx| == |pv| == |home| && 0 <= b < |home| && 0 <= x < |home| && home[x] == NIL && nx[x] == NIL &&
             pv[x] == NIL
    requires home[b] == NIL ==> nx[b] == NIL && pv[b] == NIL
    requires nx[b] != NIL ==> 0 <= nx[b] < |home| && home[nx[b]] == home[b]
    requires pv[b] != NIL ==> 0 <= pv[b] < |home| && home[pv[b]] == home[b]
    ensures NextAfterRemove(nx, pv, b)[x] == NIL && PrevAfterRemove(nx, pv, b)[x] == NIL
  {
  }

  lemma RemovedRing(l: Links, home: seq<int>, s: Shape, b: int)
    requires Linked(l, home, s) && b in s.ring && |s.ring| >= 2
    ensures 0 <= b < |l.nx| && 0 <= l.pf[b] < |l.nf| && 0 <= l.nf[b] < |l.pf|
    ensures var l', s' := LinksRemoved(l, home[b], b), Removed(s, home, b);
            Ring(l'.nf, l'.pf, s'.ring) && l'.freeList == s'.ring[0]
    ensures forall x :: x in Removed(s, home, b).ring <==> x in s.ring && x != b
  {
    RingLinks(l, home, s, b);
    var k := At(s.ring, b);
    RingRemove(l.nf, l.pf, s.ring, k);
    WithoutDistinct(s.ring, k, |l.nf|);
    HeadIs(s.ring, b, k);
    assert RingAt(l.nf, l.pf, s.ring, k);
  }

  /** remove_from_queues keeps ring and chains well formed, without b. */
  lemma RemoveKeeps(l: Links, home: seq<int>, s: Shape, b: int)
    requires Linked(l, home, s) && b in s.ring && |s.ring| >= 2
    ensures 0 <= b < |l.nx| && 0 <= l.pf[b] < |l.nf| && 0 <= l.nf[b] < |l.pf|
    ensures Linked(LinksRemoved(l, home[b], b), home, Removed(s, home, b))
    ensures forall x :: x in Removed(s, home, b).ring <==> x in s.ring && x != b
  {
    RemovedRing(l, home, s, b);
    var l', s' := LinksRemoved(l, home[b], b), Removed(s, home, b);
    assert Sizes(l', home, s');
    forall h | 0 <= h < NR_HASH ensures QueueOk(l', home, s', h) {
      if h == home[b] { OwnQueue(l, home, s, b); } else { OtherQueue(l, home, s, b, h); }
    }
    forall x | x in Elems(s'.ring) && 0 <= x < |home| && home[x] == NIL ensures l'.nx[x] == NIL && l'.pv[x] == NIL {
      Neighbours(l, home, s, b);
      Neighbours(l, home, s, x);
      OnlyNeighbours(l.nx, l.pv, home, b, x);
    }
  }

  // ------------------------------------------------------------------ insert_into_queues

  function LinksInserted(l: Links, h: int, b: int): Links
    requires |l.nx| == |l.pv| == |l.nf| == |l.pf| && 0 <= b < |l.nx|
    requires 0 <= l.freeList < |l.pf| && 0 <= l.pf[l.freeList] < |l.nf|
  {
    var hashed := 0 <= h < |l.hash|;
    Links(if hashed then l.nx[b := l.hash[h]] else l.nx[b := NIL],
          if hashed && 0 <= l.hash[h] < |l.pv| then l.pv[b := NIL][l.hash[h] := b] else l.pv[b := NIL],
          l.nf[b := l.freeList][l.pf[l.freeList] := b],
          l.pf[b := l.pf[l.freeList]][l.freeList := b],
          if hashed then l.hash[h := b] else l.hash,
          l.freeList)
  }

  /** The shape after buffer b is put at the end of the ring and the front of its chain. */
  ghost function Inserted(s: Shape, home: seq<int>, b: int): Shape
    requires 0 <= b < |home|
  {
    Shape(s.ring + [b],
          if 0 <= home[b] < |s.chains| then s.chains[home[b] := [b] + s.chains[home[b]]] else s.chains)
  }

  lemma HeadMember(l: Links, home: seq<int>, s: Shape, h: int)
    requires Linked(l, home, s) && 0 <= h < NR_HASH
    ensures l.hash[h] != NIL ==> l.hash[h] in s.ring && 0 <= l.hash[h] < |home| && home[l.hash[h]] == h
  {
    assert QueueOk(l, home, s, h);
    if s.chains[h] != [] {
      assert s.chains[h][0] in s.chains[h];
      ChainMember(l, home, s, h, s.chains[h][0]);
    }
  }

  lemma InsertedQueue(l: Links, home: seq<int>, s: Shape, b: int, h: int)
    requires Linked(l, home, s) && 0 <= b < |home| && b !in s.ring && 0 <= h < NR_HASH
    requires 0 <= l.freeList < |l.pf| && 0 <= l.pf[l.freeList] < |l.nf|
    ensures QueueOk(LinksInserted(l, home[b], b), home, Inserted(s, home, b), h)
  {
    var l', s' := LinksInserted(l, home[b], b), Inserted(s, home, b);
    assert QueueOk(l, home, s, h);
    assert b !in s.chains[h] by { if b in s.chains[h] { ChainMember(l, home, s, h, b); } }
    assert Elems(s'.ring) == Elems(s.ring) + {b};
    if h == home[b] {
      ChainInsert(l.nx, l.pv, s.chains[h], b);
      HeadMember(l, home, s, h);
      assert Elems(s'.chains[h]) == Elems(s.chains[h]) + {b};
      assert Homed(Elems(s'.ring), home, h) == Homed(Elems(s.ring), home, h) + {b};
    } else {
      if home[b] != NIL { HeadMember(l, home, s, home[b]); }
      forall x | x in s.chains[h] ensures l'.nx[x] == l.nx[x] && l'.pv[x] == l.pv[x] {
        ChainMember(l, home, s, h, x);
      }
      ChainFrame(l.nx, l.pv, l'.nx, l'.pv, s.chains[h]);
      assert Homed(Elems(s'.ring), home, h) == Homed(Elems(s.ring), home, h);
    }
  }

  /** insert_into_queues keeps ring and chains well formed, b last in the ring and first in its chain. */
  lemma InsertKeeps(l: Links, home: seq<int>, s: Shape, b: int)
    requires Linked(l, home, s) && 0 <= b < |home| && b !in s.ring
    ensures 0 <= l.freeList < |l.pf| && 0 <= l.pf[l.freeList] < |l.nf|
    ensures Linked(LinksInserted(l, home[b], b), home, Inserted(s, home, b))
    ensures forall x :: x in Inserted(s, home, b).ring <==> x in s.ring || x == b
  {
    assert s.ring[0] in s.ring;
    RingLinks(l, home, s, s.ring[0]);
    var l', s' := LinksInserted(l, home[b], b), Inserted(s, home, b);
    RingInsert(l.nf, l.pf, s.ring, b);
    forall h | 0 <= h < NR_HASH ensures QueueOk(l', home, s', h) { InsertedQueue(l, home, s, b, h); }
    forall x | x in Elems(s'.ring) && 0 <= x < |home| && home[x] == NIL ensures l'.nx[x] == NIL && l'.pv[x] == NIL {
      if x != b {
        assert x in Elems(s.ring);
        if home[b] != NIL { HeadMember(l, home, s, home[b]); }
      }
    }
  }

  /** Renaming a buffer that is not queued changes nothing about the queues. */
  lemma RenameKeeps(l: Links, home: seq<int>, s: Shape, b: int, h: int)
    requires Linked(l, home, s) && 0 <= b < |home| && b !in s.ring && HomeOk(h)
    ensures Linked(l, home[b := h], s)
  {
    var home' := home[b := h];
    forall k | 0 <= k < NR_HASH ensures QueueOk(l, home', s, k) {
      assert QueueOk(l, home, s, k);
      HomedRenamed(Elems(s.ring), home, b, h, k);
    }
  }

  lemma HomedRenamed(members: set<int>, home: seq<int>, b: int, h: int, k: int)
    requires 0 <= b < |home| && b !in members
    ensures Homed(members, home[b := h], k) == Homed(members, home, k)
  {
  }

  // ------------------------------------------------------------------ buffer_init

  function Upward(n: nat): (r: seq<int>)
    ensures |r| == n && forall i :: 0 <= i < n ==> r[i] == if i == n - 1 then 0 else i + 1
  {
    seq(n, i => if i == n - 1 then 0 else i + 1)
  }

  function Downward(n: nat): (r: seq<int>)
    ensures |r| == n && forall i :: 0 <= i < n ==> r[i] == if i == 0 then n - 1 else i - 1
  {
    seq(n, i => if i == 0 then n - 1 else i - 1)
  }

  function AllNil(n: nat): (r: seq<int>)
    ensures |r| == n && forall i :: 0 <= i < n ==> r[i] == NIL
  {
    seq(n, _ => NIL)
  }

  function Counting(n: nat): (r: seq<int>)
    ensures |r| == n && forall i :: 0 <= i < n ==> r[i] == i
  {
    seq(n, i => i)
  }

  function InitialLinks(n: nat): Links { Links(AllNil(n), AllNil(n), Upward(n), Downward(n), AllNil(NR_HASH), 0) }

  function NoChains(): (r: seq<seq<int>>)
    ensures |r| == NR_HASH && forall h :: 0 <= h < NR_HASH ==> r[h] == []
  {
    seq(NR_HASH, _ => [])
  }

  ghost function InitialShape(n: nat): Shape { Shape(Counting(n), NoChains()) }

  lemma InitialRing(n: nat)
    requires n >= 2
    ensures Ring(Upward(n), Downward(n), Counting(n))
  {
    var ring := Counting(n);
    forall k | 0 <= k < n ensures Upward(n)[ring[k]] == After(ring, k) && Downward(n)[ring[k]] == Before(ring, k) {}
  }

  /** buffer_init links all buffers in one ring and leaves every hash queue empty. */
  lemma InitialLinked(n: nat, home: seq<int>)
    requires n >= 2 && |home| == n && forall b :: 0 <= b < n ==> home[b] == NIL
    ensures Linked(InitialLinks(n), home, InitialShape(n))
    ensures forall b :: 0 <= b < n ==> b in InitialShape(n).ring
    ensures NIL !in InitialShape(n).ring
  {
    var l, s := InitialLinks(n), InitialShape(n);
    InitialRing(n);
    forall b | 0 <= b < n ensures b in s.ring { assert Counting(n)[b] == b; }
    forall h | 0 <= h < NR_HASH ensures QueueOk(l, home, s, h) {
      assert s.chains[h] == [];
      assert Homed(Elems(s.ring), home, h) == {};
    }
  }
}

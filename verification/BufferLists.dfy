/**
  Linked lists over an array of buffer heads (fs/buffer.c:71-104): links are indices, NIL is NULL.
  `Ring` is a circular doubly linked list, `Chain` a NIL-terminated one; the lemmas say what the
  pointer stores of remove_from_queues and insert_into_queues do to the sequence a list stands for.
 */
module BufferLists {
  import opened Common

  const NIL := -1

  ghost predicate InRange(s: seq<int>, n: int) { forall k :: 0 <= k < |s| ==> 0 <= s[k] < n }

  function Without(s: seq<int>, k: int): seq<int>
    requires 0 <= k < |s|
  {
    s[..k] + s[k + 1..]
  }

  lemma WithoutDistinct(s: seq<int>, k: int, n: int)
    requires 0 <= k < |s| && Distinct(s) && InRange(s, n)
    ensures Distinct(Without(s, k)) && InRange(Without(s, k), n) && s[k] !in Without(s, k)
    ensures forall x :: x in Without(s, k) <==> x in s && x != s[k]
  {
    var t := Without(s, k);
    forall x | x in s && x != s[k] ensures x in t {
      var j :| 0 <= j < |s| && s[j] == x;
      assert t[if j < k then j else j - 1] == x;
    }
  }

  // ------------------------------------------------------------------ the circular free list

  function After(ring: seq<int>, k: int): int
    requires 0 <= k < |ring|
  {
    if k + 1 < |ring| then ring[k + 1] else ring[0]
  }

  function Before(ring: seq<int>, k: int): int
    requires 0 <= k < |ring|
  {
    if k > 0 then ring[k - 1] else ring[|ring| - 1]
  }

  /** nf and pf link the elements of ring in a cycle. */
  ghost predicate Ring(nf: seq<int>, pf: seq<int>, ring: seq<int>) {
    && |nf| == |pf| && |ring| >= 1 && Distinct(ring) && InRange(ring, |nf|)
    && forall k :: 0 <= k < |ring| ==> RingAt(nf, pf, ring, k)
  }

  /** Element k of the ring is linked to its neighbours. */
  predicate RingAt(nf: seq<int>, pf: seq<int>, ring: seq<int>, k: int) {
    && 0 <= k < |ring| && 0 <= ring[k] < |nf| == |pf|
    && nf[ring[k]] == After(ring, k) && pf[ring[k]] == Before(ring, k)
  }

  function Index(k: int, i: int): int { if i < k then i else i - 1 }

  /** Neighbours in the shortened ring: only those of the removed element change. */
  lemma NeighboursWithout(ring: seq<int>, k: int, i: int)
    requires |ring| >= 2 && 0 <= k < |ring| && 0 <= i < |ring| && i != k && Distinct(ring)
    ensures Without(ring, k)[Index(k, i)] == ring[i]
    ensures After(Without(ring, k), Index(k, i)) == if After(ring, i) == ring[k] then After(ring, k) else After(ring, i)
    ensures Before(Without(ring, k), Index(k, i)) ==
            if Before(ring, i) == ring[k] then Before(ring, k) else Before(ring, i)
  {
    var t, n := Without(ring, k), |ring|;
    assert forall j :: 0 <= j < k ==> t[j] == ring[j];
    assert forall j :: k <= j < n - 1 ==> t[j] == ring[j + 1];
  }

  lemma RingRemove(nf: seq<int>, pf: seq<int>, ring: seq<int>, k: int)
    requires Ring(nf, pf, ring) && |ring| >= 2 && 0 <= k < |ring|
    ensures 0 <= pf[ring[k]] < |nf| && 0 <= nf[ring[k]] < |nf|
    ensures Ring(nf[pf[ring[k]] := nf[ring[k]]], pf[nf[ring[k]] := pf[ring[k]]], Without(ring, k))
  {
    var b := ring[k];
    assert RingAt(nf, pf, ring, k);
    var nf', pf', t := nf[pf[b] := nf[b]], pf[nf[b] := pf[b]], Without(ring, k);
    WithoutDistinct(ring, k, |nf|);
    forall j | 0 <= j < |t| ensures RingAt(nf', pf', t, j) {
      RemovedAt(nf, pf, ring, k, if j < k then j else j + 1);
    }
  }

  lemma RemovedAt(nf: seq<int>, pf: seq<int>, ring: seq<int>, k: int, i: int)
    requires Distinct(ring) && InRange(ring, |nf|) && i != k && RingAt(nf, pf, ring, k) && RingAt(nf, pf, ring, i)
    ensures var b := ring[k];
            && 0 <= pf[b] < |nf| && 0 <= nf[b] < |pf|
            && RingAt(nf[pf[b] := nf[b]], pf[nf[b] := pf[b]], Without(ring, k), Index(k, i))
  {
    NeighboursWithout(ring, k, i);
    NeighboursAgree(ring, k, i);
  }

  lemma NeighboursAgree(ring: seq<int>, k: int, i: int)
    requires Distinct(ring) && 0 <= k < |ring| && 0 <= i < |ring|
    ensures ring[i] == Before(ring, k) <==> After(ring, i) == ring[k]
    ensures ring[i] == After(ring, k) <==> Before(ring, i) == ring[k]
  {
    var a, b := if k > 0 then k - 1 else |ring| - 1, if k + 1 < |ring| then k + 1 else 0;
    assert ring[a] == Before(ring, k) && After(ring, a) == ring[k];
    assert ring[b] == After(ring, k) && Before(ring, b) == ring[k];
    assert i != a ==> ring[i] != ring[a];
    assert i != b ==> ring[i] != ring[b];
  }

  lemma RingInsert(nf: seq<int>, pf: seq<int>, ring: seq<int>, b: int)
    requires Ring(nf, pf, ring) && 0 <= b < |nf| && b !in ring
    ensures 0 <= pf[ring[0]] < |nf|
    ensures Ring(nf[b := ring[0]][pf[ring[0]] := b], pf[b := pf[ring[0]]][ring[0] := b], ring + [b])
  {
    assert RingAt(nf, pf, ring, 0);
    var head, last := ring[0], pf[ring[0]];
    var nf', pf', t := nf[b := head][last := b], pf[b := last][head := b], ring + [b];
    assert last == ring[|ring| - 1];
    forall j | 0 <= j < |t| ensures RingAt(nf', pf', t, j) {
      if j < |ring| { assert RingAt(nf, pf, ring, j); }
    }
  }

  // ------------------------------------------------------------------ hash chains

  function Next(chain: seq<int>, k: int): int
    requires 0 <= k < |chain|
  {
    if k + 1 < |chain| then chain[k + 1] else NIL
  }

  function Prev(chain: seq<int>, k: int): int
    requires 0 <= k < |chain|
  {
    if k > 0 then chain[k - 1] else NIL
  }

  function Head(chain: seq<int>): int { if chain == [] then NIL else chain[0] }

  /** nx and pv link the elements of chain, NIL at both ends. */
  ghost predicate Chain(nx: seq<int>, pv: seq<int>, chain: seq<int>) {
    && |nx| == |pv| && Distinct(chain) && InRange(chain, |nx|)
    && forall k :: 0 <= k < |chain| ==> LinkAt(nx, pv, chain, k)
  }

  /** Element k of the chain is linked to its neighbours. */
  predicate LinkAt(nx: seq<int>, pv: seq<int>, chain: seq<int>, k: int) {
    && 0 <= k < |chain| && 0 <= chain[k] < |nx| == |pv|
    && nx[chain[k]] == Next(chain, k) && pv[chain[k]] == Prev(chain, k)
  }

  /** `if (b_next) b_next->b_prev = b_prev; if (b_prev) b_prev->b_next = b_next;` */
  function NextAfterRemove(nx: seq<int>, pv: seq<int>, b: int): seq<int>
    requires |nx| == |pv| && 0 <= b < |nx|
  {
    if 0 <= pv[b] < |nx| then nx[pv[b] := nx[b]] else nx
  }

  function PrevAfterRemove(nx: seq<int>, pv: seq<int>, b: int): seq<int>
    requires |nx| == |pv| && 0 <= b < |nx|
  {
    if 0 <= nx[b] < |pv| then pv[nx[b] := pv[b]] else pv
  }

  lemma ChainRemove(nx: seq<int>, pv: seq<int>, chain: seq<int>, k: int)
    requires Chain(nx, pv, chain) && 0 <= k < |chain|
    ensures Chain(NextAfterRemove(nx, pv, chain[k]), PrevAfterRemove(nx, pv, chain[k]), Without(chain, k))
    ensures Head(Without(chain, k)) == if k == 0 then nx[chain[0]] else Head(chain)
  {
    var b := chain[k];
    var nx', pv', t := NextAfterRemove(nx, pv, b), PrevAfterRemove(nx, pv, b), Without(chain, k);
    WithoutDistinct(chain, k, |nx|);
    assert LinkAt(nx, pv, chain, k);
    forall j | 0 <= j < |t| ensures LinkAt(nx', pv', t, j) {
      ChainRemovedAt(nx, pv, chain, k, if j < k then j else j + 1);
    }
  }

  lemma ChainRemovedAt(nx: seq<int>, pv: seq<int>, chain: seq<int>, k: int, i: int)
    requires Distinct(chain) && InRange(chain, |nx|) && i != k && LinkAt(nx, pv, chain, i) && LinkAt(nx, pv, chain, k)
    ensures var t, nx', pv' := Without(chain, k), NextAfterRemove(nx, pv, chain[k]), PrevAfterRemove(nx, pv, chain[k]);
            LinkAt(nx', pv', t, Index(k, i))
  {
    LinksWithout(chain, k, i);
    LinkedPlaces(chain, |nx|, k, i);
  }

  lemma LinksWithout(chain: seq<int>, k: int, i: int)
    requires 0 <= k < |chain| && 0 <= i < |chain| && i != k
    ensures Without(chain, k)[Index(k, i)] == chain[i]
    ensures Next(Without(chain, k), Index(k, i)) == Next(chain, if i + 1 == k then k else i)
    ensures Prev(Without(chain, k), Index(k, i)) == Prev(chain, if i == k + 1 then k else i)
  {
  }

  lemma LinkedPlaces(chain: seq<int>, n: int, k: int, i: int)
    requires Distinct(chain) && InRange(chain, n) && 0 <= k < |chain| && 0 <= i < |chain|
    ensures chain[i] == Prev(chain, k) <==> i + 1 == k
    ensures chain[i] == Next(chain, k) <==> i == k + 1
  {
    if i + 1 != k && k > 0 { assert chain[i] != chain[k - 1]; }
    if i != k + 1 && k + 1 < |chain| { assert chain[i] != chain[k + 1]; }
  }

  /** The guarded head insertion. */
  lemma ChainInsert(nx: seq<int>, pv: seq<int>, chain: seq<int>, b: int)
    requires Chain(nx, pv, chain) && 0 <= b < |nx| && b !in chain
    ensures Chain(nx[b := Head(chain)], if chain == [] then pv[b := NIL] else pv[b := NIL][chain[0] := b], [b] + chain)
  {
    var t := [b] + chain;
    var nx' := nx[b := Head(chain)];
    var pv' := if chain == [] then pv[b := NIL] else pv[b := NIL][chain[0] := b];
    forall j | 0 <= j < |t| ensures LinkAt(nx', pv', t, j) {
      if j > 0 { assert LinkAt(nx, pv, chain, j - 1); }
    }
  }

  /** The links of a chain stay in it. */
  lemma ChainStays(nx: seq<int>, pv: seq<int>, chain: seq<int>, b: int)
    requires Chain(nx, pv, chain) && b in chain
    ensures 0 <= b < |nx| && (nx[b] == NIL || nx[b] in chain) && (pv[b] == NIL || pv[b] in chain)
  {
    var k :| 0 <= k < |chain| && chain[k] == b;
    assert LinkAt(nx, pv, chain, k);
  }

  /** A chain depends only on the links of its own elements. */
  lemma ChainFrame(nx: seq<int>, pv: seq<int>, nx': seq<int>, pv': seq<int>, chain: seq<int>)
    requires Chain(nx, pv, chain) && |nx'| == |nx| && |pv'| == |pv|
    requires forall b :: b in chain ==> nx'[b] == nx[b] && pv'[b] == pv[b]
    ensures Chain(nx', pv', chain)
  {
    forall k | 0 <= k < |chain| ensures LinkAt(nx', pv', chain, k) {
      assert LinkAt(nx, pv, chain, k) && chain[k] in chain;
    }
  }
}

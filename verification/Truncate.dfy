/** Freeing a file's zones (fs/truncate.c): exactly its own, each once. */
module Truncation {
  import opened Zones
  import opened ZoneSteps
  import opened FileSystems

  /** From fs0, the bits of the zones held by the slots in `done` have been cleared, and nothing else. */
  ghost predicate Cleared(g: Geometry, fs0: Fs, fs: Fs, use: seq<Use>, done: set<Slot>) {
    && Inv(g, fs0, use) && Shape(g, fs) && fs.disk == fs0.disk && |fs.zmap| == |fs0.zmap|
    && (forall z :: DataZone(g, z) ==>
          (Marked(g, fs, z) <==> Marked(g, fs0, z) && !(use[z].Holds? && use[z].s in done)))
    && (forall k :: 0 <= k < |fs.zmap| && !(1 <= k <= g.nzones - g.firstData) ==> fs.zmap[k] == fs0.zmap[k])
  }

  /** Clearing the bit of a zone not yet freed: the bit is set, so free_block cannot panic. */
  lemma ClearOne(g: Geometry, fs0: Fs, fs: Fs, use: seq<Use>, done: set<Slot>, s: Slot)
    requires Cleared(g, fs0, fs, use, done) && SlotOk(fs0, s) && Val(fs0, s) != 0 && s !in done
    ensures DataZone(g, Val(fs0, s)) && Marked(g, fs, Val(fs0, s))
    ensures Cleared(g, fs0, SetBit(fs, BitOf(g, Val(fs0, s)), false), use, done + {s})
  {
    assert SlotHeld(g, fs0, use, s);
    assert ZoneOk(g, fs0, use, Val(fs0, s));
    var z := Val(fs0, s);
    var fs' := SetBit(fs, BitOf(g, z), false);
    forall y | DataZone(g, y)
      ensures Marked(g, fs', y) <==> Marked(g, fs0, y) && !(use[y].Holds? && use[y].s in done + {s})
    {
      assert ZoneOk(g, fs0, use, y);
    }
  }

  /** The tree after truncation: inode n empty, its zones unmarked. */
  ghost predicate Emptied(g: Geometry, fs0: Fs, fs: Fs, use: seq<Use>, n: int) {
    && Inv(g, fs0, use) && Shape(g, fs) && 0 <= n < |fs0.inode| && fs.disk == fs0.disk
    && fs.inode == fs0.inode[n := Inode(seq(9, _ => 0), 0)]
    && (forall z :: DataZone(g, z) ==>
          (Marked(g, fs, z) <==> Marked(g, fs0, z) && !(use[z].Holds? && use[z].s.n == n)))
  }

  ghost function UseWithout(g: Geometry, use: seq<Use>, n: int): seq<Use>
  {
    seq(|use|, z requires 0 <= z < |use| => if use[z].Holds? && use[z].s.n == n then Unused else use[z])
  }

  /** Truncation keeps the invariant, makes file n read as zeros and leaves every other file alone. */
  lemma EmptiedKeeps(g: Geometry, fs0: Fs, fs: Fs, use: seq<Use>, n: int)
    requires Emptied(g, fs0, fs, use, n) && Settled(g, use)
    ensures Inv(g, fs, UseWithout(g, use, n)) && Settled(g, UseWithout(g, use, n))
    ensures forall b :: 0 <= b < MAX_BLOCKS ==> Content(g, fs, n, b) == ZeroBlock()
    ensures forall m, b :: FileBlock(fs0, m, b) && m != n ==> Content(g, fs, m, b) == Content(g, fs0, m, b)
  {
    var use' := UseWithout(g, use, n);
    forall s | SlotOk(fs, s) ensures Val(fs, s) == (if s.n == n then 0 else Val(fs0, s)) && SlotHeld(g, fs, use', s) {
      assert SlotOk(fs0, s) && SlotHeld(g, fs0, use, s);
    }
    forall z | DataZone(g, z) ensures ZoneOk(g, fs, use', z) { assert ZoneOk(g, fs0, use, z); }
    forall m, b | FileBlock(fs, m, b) ensures SlotOk(fs, DataSlot(m, b)) && DataSlot(m, b).n == m {
      DataSlotOk(fs, m, b);
    }
  }

  /** free_block on the zone of slot s. */
  method FreeSlot(v: FileSystem, ghost fs0: Fs, ghost done: set<Slot>, ghost s: Slot, z: int)
    returns (ghost done': set<Slot>)
    requires Cleared(v.g, fs0, v.F(), v.use, done) && SlotOk(fs0, s) && Val(fs0, s) == z != 0 && s !in done
    modifies v.zmap
    ensures Cleared(v.g, fs0, v.F(), v.use, done') && done' == done + {s}
    ensures v.F().inode == old(v.F()).inode
  {
    ClearOne(v.g, fs0, v.F(), v.use, done, s);
    var ok := v.FreeBlock(z);
    assert ok;
    done' := done + {s};
  }

  /** Slot c is one of the first k entries of the table s holds. */
  predicate Under(c: Slot, s: Slot, k: int) { !c.Zone? && ParentOf(c) == s && IndexOf(c) < k }

  /** free_ind: every zone the table names, then the table itself (truncate.c:5-21). */
  method FreeInd(v: FileSystem, ghost fs0: Fs, ghost done: set<Slot>, ghost s: Slot, z: int)
    returns (ghost done': set<Slot>)
    requires Cleared(v.g, fs0, v.F(), v.use, done) && SlotOk(fs0, s) && IsTable(s) && s != Zone(s.n, 8) &&
             Val(fs0, s) == z
    requires s !in done && forall c :: Under(c, s, PER_BLOCK) ==> c !in done
    modifies v.zmap
    ensures Cleared(v.g, fs0, v.F(), v.use, done') && v.F().inode == old(v.F()).inode
    ensures forall c :: c in done' <==>
              c in done || (SlotOk(fs0, c) && (c == s || Under(c, s, PER_BLOCK)) && Val(fs0, c) != 0)
  {
    done' := done;
    if z == 0 { return; }
    assert SlotHeld(v.g, fs0, v.use, s);
    for i := 0 to PER_BLOCK
      invariant Cleared(v.g, fs0, v.F(), v.use, done') && v.F().inode == old(v.F()).inode
      invariant forall c :: c in done' <==> c in done || (SlotOk(fs0, c) && Under(c, s, i) && Val(fs0, c) != 0)
    {
      var w := Word16(v.disk[z], i);
      assert w == Val(fs0, Child(s, i));
      if w != 0 {
        done' := FreeSlot(v, fs0, done', Child(s, i), w);
      }
    }
    done' := FreeSlot(v, fs0, done', s, z);
  }

  /** Slots below the double indirect zone of inode n, first index under k. */
  predicate Below(s: Slot, n: int, k: int) { s.n == n && (s.Dind? || s.DindInd?) && s.i < k }

  /** free_dind: every table the double indirect block names, then the block (truncate.c:23-39). */
  method FreeDind(v: FileSystem, ghost fs0: Fs, ghost done: set<Slot>, n: int, z: int) returns (ghost done': set<Slot>)
    requires Cleared(v.g, fs0, v.F(), v.use, done) && SlotOk(fs0, Zone(n, 8)) && Val(fs0, Zone(n, 8)) == z
    requires Zone(n, 8) !in done && forall s :: s in done ==> s.Zone? || s.Ind?
    modifies v.zmap
    ensures Cleared(v.g, fs0, v.F(), v.use, done') && v.F().inode == old(v.F()).inode
    ensures forall s :: s in done' <==>
              s in done || (SlotOk(fs0, s) && (Below(s, n, PER_BLOCK) || s == Zone(n, 8)) && Val(fs0, s) != 0)
  {
    done' := done;
    if z == 0 { return; }
    assert SlotHeld(v.g, fs0, v.use, Zone(n, 8));
    for i := 0 to PER_BLOCK
      invariant Cleared(v.g, fs0, v.F(), v.use, done') && v.F().inode == old(v.F()).inode
      invariant forall s :: s in done' <==> s in done || (SlotOk(fs0, s) && Below(s, n, i) && Val(fs0, s) != 0)
    {
      var w := Word16(v.disk[z], i);
      assert SlotOk(fs0, Dind(n, i)) && w == Val(fs0, Dind(n, i));
      done' := FreeInd(v, fs0, done', Dind(n, i), w);
    }
    done' := FreeSlot(v, fs0, done', Zone(n, 8), z);
  }

  /** The direct zones (truncate.c:47-51). */
  method FreeDirect(v: FileSystem, n: int) returns (ghost done: set<Slot>)
    requires v.Valid() && 0 <= n < v.inode.Length
    modifies v.zmap, v.inode
    ensures Cleared(v.g, old(v.F()), v.F(), v.use, done)
    ensures forall s :: s in done <==>
              SlotOk(old(v.F()), s) && s.Zone? && s.n == n && s.k < DIRECT && Val(old(v.F()), s) != 0
    ensures |v.F().inode| == |old(v.F()).inode| && |v.F().inode[n].zone| == 9
    ensures v.F().inode[n].zone[7..] == old(v.F()).inode[n].zone[7..]
    ensures v.F().inode == old(v.F()).inode[n := v.F().inode[n]]
    ensures forall k :: 0 <= k < DIRECT ==> v.F().inode[n].zone[k] == 0
  {
    ghost var fs0 := v.F();
    done := {};
    for i := 0 to DIRECT
      invariant Cleared(v.g, fs0, v.F(), v.use, done)
      invariant forall s :: s in done <==> SlotOk(fs0, s) && s.Zone? && s.n == n && s.k < i && Val(fs0, s) != 0
      invariant |v.F().inode| == |fs0.inode| && |v.F().inode[n].zone| == 9
      invariant v.F().inode == fs0.inode[n := v.F().inode[n]]
      invariant forall k :: 0 <= k < 9 ==> v.F().inode[n].zone[k] == if k < i then 0 else fs0.inode[n].zone[k]
    {
      var z := v.inode[n].zone[i];
      if z != 0 {
        done := FreeSlot(v, fs0, done, Zone(n, i), z);
        v.inode[n] := v.inode[n].(zone := v.inode[n].zone[i := 0]);
      }
    }
  }

  /** truncate: a file that is neither regular nor a directory is left alone.
      Otherwise exactly the file's own zones are freed, each once (truncate.c:41-58). */
  method Truncate(v: FileSystem, n: int, regularOrDirectory: bool)
    requires v.Valid() && 0 <= n < v.inode.Length
    modifies v`use, v.zmap, v.inode
    ensures v.Valid()
    ensures !regularOrDirectory ==> v.F() == old(v.F())
    ensures regularOrDirectory ==> Emptied(v.g, old(v.F()), v.F(), old(v.use), n)
    ensures regularOrDirectory ==> forall b :: 0 <= b < MAX_BLOCKS ==> Content(v.g, v.F(), n, b) == ZeroBlock()
    ensures forall m, b :: FileBlock(old(v.F()), m, b) && m != n ==>
            Content(v.g, v.F(), m, b) == Content(v.g, old(v.F()), m, b)
    ensures |v.F().inode| == |old(v.F()).inode|
  {
    if !regularOrDirectory { return; }
    ghost var fs0, use0 := v.F(), v.use;
    ghost var done := FreeDirect(v, n);
    done := FreeInd(v, fs0, done, Zone(n, 7), v.inode[n].zone[7]);
    done := FreeDind(v, fs0, done, n, v.inode[n].zone[8]);
    v.inode[n] := Inode(seq(9, _ => 0), 0);
    AllFreed(v.g, fs0, v.F(), use0, done, n);
    EmptiedKeeps(v.g, fs0, v.F(), use0, n);
    v.use := UseWithout(v.g, v.use, n);
  }

  lemma AllFreed(g: Geometry, fs0: Fs, fs: Fs, use: seq<Use>, done: set<Slot>, n: int)
    requires Cleared(g, fs0, fs, use, done) && 0 <= n < |fs0.inode| &&
             fs.inode == fs0.inode[n := Inode(seq(9, _ => 0), 0)]
    requires forall s :: s in done <==> SlotOk(fs0, s) && s.n == n && Val(fs0, s) != 0
    ensures Emptied(g, fs0, fs, use, n)
  {
    forall z | DataZone(g, z)
      ensures Marked(g, fs, z) <==> Marked(g, fs0, z) && !(use[z].Holds? && use[z].s.n == n)
    {
      assert ZoneOk(g, fs0, use, z);
    }
  }
}

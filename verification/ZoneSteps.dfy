/** What each store of the block layer does to the zone tree and to file contents. */
module ZoneSteps {
  import opened Zones

  /** Rewriting a block that is not a table leaves every slot as it was. */
  lemma ValNonTable(g: Geometry, fs: Fs, use: seq<Use>, z: int, b: Block, s: Slot)
    requires Inv(g, fs, use) && 0 <= z < |fs.disk| && |b| == BLOCK_SIZE && SlotOk(fs, s)
    requires !(use[z].Holds? && IsTable(use[z].s))
    ensures Val(SetBlock(fs, z, b), s) == Val(fs, s)
  {
    if !s.Zone? {
      var root := Zone(s.n, if s.Ind? then 7 else 8);
      assert SlotHeld(g, fs, use, root);
      if s.DindInd? { assert SlotHeld(g, fs, use, Dind(s.n, s.i)); }
    }
  }

  /** new_block (bitmap.c:82-95) on the unmarked zone z, before it is recorded anywhere. */
  function Allocated(g: Geometry, fs: Fs, z: int): Fs
    requires 0 <= z < |fs.disk| && 0 <= BitOf(g, z) < |fs.zmap|
  {
    SetBlock(SetBit(fs, BitOf(g, z), true), z, ZeroBlock())
  }

  lemma AllocateKeeps(g: Geometry, fs: Fs, use: seq<Use>, z: int)
    requires Inv(g, fs, use) && DataZone(g, z) && !Marked(g, fs, z)
    ensures Inv(g, Allocated(g, fs, z), use[z := Pending])
    ensures forall s :: SlotOk(fs, s) ==> Val(Allocated(g, fs, z), s) == Val(fs, s)
  {
    var fs' := Allocated(g, fs, z);
    var use' := use[z := Pending];
    assert ZoneOk(g, fs, use, z);
    forall s | SlotOk(fs, s) ensures Val(fs', s) == Val(fs, s) && SlotHeld(g, fs', use', s) {
      ValNonTable(g, fs, use, z, ZeroBlock(), s);
      assert Val(fs', s) == Val(SetBlock(fs, z, ZeroBlock()), s);
      assert SlotHeld(g, fs, use, s);
    }
    forall y | DataZone(g, y) ensures ZoneOk(g, fs', use', y) {
      assert ZoneOk(g, fs, use, y);
    }
  }

  /** The table a slot lives in exists and belongs to it alone. */
  predicate TableReady(fs: Fs, s: Slot)
    requires SlotOk(fs, s) && forall n :: 0 <= n < |fs.inode| ==> |fs.inode[n].zone| == 9
  {
    s.Zone? || TableOf(fs, s) != 0
  }

  function ParentOf(s: Slot): Slot
    requires !s.Zone?
  {
    match s case Ind(n, _) => Zone(n, 7) case Dind(n, _) => Zone(n, 8) case DindInd(n, i, _) => Dind(n, i)
  }

  lemma TableHeld(g: Geometry, fs: Fs, use: seq<Use>, s: Slot)
    requires Inv(g, fs, use) && SlotOk(fs, s) && TableReady(fs, s) && !s.Zone?
    ensures DataZone(g, TableOf(fs, s)) && use[TableOf(fs, s)] == Holds(ParentOf(s))
    ensures Val(fs, s) == Word16(fs.disk[TableOf(fs, s)], IndexOf(s))
  {
    assert SlotOk(fs, ParentOf(s)) && Val(fs, ParentOf(s)) == TableOf(fs, s);
    assert SlotHeld(g, fs, use, ParentOf(s));
  }

  /** Recording a fresh zero block in an empty slot fills that slot and no other. */
  lemma ValAfterRecord(g: Geometry, fs: Fs, use: seq<Use>, s: Slot, z: int, s': Slot)
    requires Inv(g, fs, use) && DataZone(g, z) && use[z].Pending? && fs.disk[z] == ZeroBlock()
    requires SlotOk(fs, s) && Val(fs, s) == 0 && TableReady(fs, s) && SlotOk(fs, s')
    requires s.Zone? || DataZone(g, TableOf(fs, s))
    ensures Shape(g, SetSlot(fs, s, z)) && SlotOk(SetSlot(fs, s, z), s')
    ensures Val(SetSlot(fs, s, z), s') == if s' == s then z else Val(fs, s')
  {
    var fs' := SetSlot(fs, s, z);
    forall i | 0 <= i < PER_BLOCK ensures Entry(fs, z, i) == 0 {}
    if s.Zone? {
      assert fs'.disk == fs.disk;
    } else {
      TableHeld(g, fs, use, s);
      var t := TableOf(fs, s);
      forall i | 0 <= i < PER_BLOCK ensures Entry(fs', t, i) == if i == IndexOf(s) then z else Entry(fs, t, i) {
        WordSet(fs.disk[t], IndexOf(s), z, i);
      }
      forall y, i | y != t ensures Entry(fs', y, i) == Entry(fs, y, i) {}
      if !s'.Zone? { assert SlotHeld(g, fs, use, Zone(s'.n, if s'.Ind? then 7 else 8)); }
      if s'.DindInd? { assert SlotHeld(g, fs, use, Dind(s'.n, s'.i)); }
    }
  }

  lemma RecordKeeps(g: Geometry, fs: Fs, use: seq<Use>, s: Slot, z: int)
    requires Inv(g, fs, use) && DataZone(g, z) && use[z].Pending? && fs.disk[z] == ZeroBlock()
    requires SlotOk(fs, s) && Val(fs, s) == 0 && TableReady(fs, s)
    ensures s.Zone? || DataZone(g, TableOf(fs, s))
    ensures Inv(g, SetSlot(fs, s, z), use[z := Holds(s)])
    ensures forall s' :: SlotOk(fs, s') ==> Val(SetSlot(fs, s, z), s') == if s' == s then z else Val(fs, s')
  {
    if !s.Zone? { TableHeld(g, fs, use, s); }
    var fs' := SetSlot(fs, s, z);
    var use' := use[z := Holds(s)];
    forall s' | SlotOk(fs, s') ensures Val(fs', s') == if s' == s then z else Val(fs, s') {
      ValAfterRecord(g, fs, use, s, z, s');
    }
    assert Shape(g, fs') by { ValAfterRecord(g, fs, use, s, z, s); }
    forall s' | SlotOk(fs', s') ensures SlotHeld(g, fs', use', s') {
      assert SlotHeld(g, fs, use, s');
    }
    forall y | DataZone(g, y) ensures ZoneOk(g, fs', use', y) {
      assert ZoneOk(g, fs, use, y);
    }
  }

  // ------------------------------------------------------------------ contents

  ghost predicate SameContents(g: Geometry, fs: Fs, fs': Fs) {
    && Shape(g, fs) && Shape(g, fs') && |fs'.inode| == |fs.inode|
    && (forall n :: 0 <= n < |fs.inode| ==> fs'.inode[n].size == fs.inode[n].size)
    && forall n, b :: FileBlock(fs, n, b) ==> Content(g, fs', n, b) == Content(g, fs, n, b)
  }

  /** Allocating a zone for a slot changes no file: a hole and a fresh block both read as zeros. */
  lemma RecordContents(g: Geometry, fs: Fs, use: seq<Use>, s: Slot, z: int)
    requires Inv(g, fs, use) && DataZone(g, z) && !Marked(g, fs, z)
    requires SlotOk(fs, s) && Val(fs, s) == 0 && TableReady(fs, s)
    ensures SlotOk(Allocated(g, fs, z), s) && Shape(g, Allocated(g, fs, z)) &&
            (s.Zone? || DataZone(g, TableOf(Allocated(g, fs, z), s)))
    ensures Inv(g, SetSlot(Allocated(g, fs, z), s, z), use[z := Holds(s)])
    ensures SameContents(g, fs, SetSlot(Allocated(g, fs, z), s, z))
    ensures forall s' :: SlotOk(fs, s') ==> Val(SetSlot(Allocated(g, fs, z), s, z), s') == if s' == s then z
            else Val(fs, s')
  {
    var fs1 := Allocated(g, fs, z);
    AllocateKeeps(g, fs, use, z);
    assert ZoneOk(g, fs, use, z);
    assert SlotOk(fs1, s) && Val(fs1, s) == Val(fs, s);
    TableSame(g, fs, use, z, s);
    RecordKeeps(g, fs1, use[z := Pending], s, z);
    var fs2 := SetSlot(fs1, s, z);
    assert use[z := Pending][z := Holds(s)] == use[z := Holds(s)];
    forall n, b | FileBlock(fs, n, b) ensures Content(g, fs2, n, b) == Content(g, fs, n, b) {
      DataSlotOk(fs, n, b);
      RecordedBlock(g, fs, use, s, z, DataSlot(n, b));
    }
  }

  lemma TableSame(g: Geometry, fs: Fs, use: seq<Use>, z: int, s: Slot)
    requires Inv(g, fs, use) && DataZone(g, z) && !Marked(g, fs, z) && SlotOk(fs, s)
    ensures SlotOk(Allocated(g, fs, z), s) && Shape(g, Allocated(g, fs, z))
    ensures !s.Zone? ==> TableOf(Allocated(g, fs, z), s) == TableOf(fs, s)
  {
    AllocateKeeps(g, fs, use, z);
    if !s.Zone? {
      var fs1 := Allocated(g, fs, z);
      assert Val(fs1, ParentOf(s)) == Val(fs, ParentOf(s));
    }
  }

  /** Blocks recorded in data slots other than s keep their contents. */
  lemma RecordedBlock(g: Geometry, fs: Fs, use: seq<Use>, s: Slot, z: int, d: Slot)
    requires Inv(g, fs, use) && DataZone(g, z) && !Marked(g, fs, z)
    requires SlotOk(fs, s) && Val(fs, s) == 0 && TableReady(fs, s) && SlotOk(fs, d) && !IsTable(d)
    requires SlotOk(Allocated(g, fs, z), s) && Shape(g, Allocated(g, fs, z)) &&
             (s.Zone? || DataZone(g, TableOf(Allocated(g, fs, z), s)))
    ensures var fs2 := SetSlot(Allocated(g, fs, z), s, z);
            && |fs2.disk| == |fs.disk| && fs2.disk[z] == ZeroBlock()
            && (d != s && DataZone(g, Val(fs, d)) ==> fs2.disk[Val(fs, d)] == fs.disk[Val(fs, d)])
  {
    TableSame(g, fs, use, z, s);
    assert SlotHeld(g, fs, use, d) && ZoneOk(g, fs, use, z);
    if !s.Zone? { TableHeld(g, fs, use, s); }
  }

  /** Overwriting a data block changes that block of that file and nothing else. */
  lemma WriteKeeps(g: Geometry, fs: Fs, use: seq<Use>, n: int, b: int, p: Block)
    requires Inv(g, fs, use) && FileBlock(fs, n, b) && ZoneOf(g, fs, n, b) != 0 && |p| == BLOCK_SIZE
    ensures DataZone(g, ZoneOf(g, fs, n, b))
    ensures Inv(g, SetBlock(fs, ZoneOf(g, fs, n, b), p), use)
    ensures forall s :: SlotOk(fs, s) ==> Val(SetBlock(fs, ZoneOf(g, fs, n, b), p), s) == Val(fs, s)
    ensures forall n', b' :: FileBlock(fs, n', b') ==>
              Content(g, SetBlock(fs, ZoneOf(g, fs, n, b), p), n', b') == if n' == n && b' == b then p
                else Content(g, fs, n', b')
  {
    var d := DataSlot(n, b);
    DataSlotOk(fs, n, b);
    assert SlotHeld(g, fs, use, d);
    var z := Val(fs, d);
    var fs' := SetBlock(fs, z, p);
    forall s | SlotOk(fs, s) ensures Val(fs', s) == Val(fs, s) && SlotHeld(g, fs', use, s) {
      ValNonTable(g, fs, use, z, p, s);
      assert SlotHeld(g, fs, use, s);
    }
    forall y | DataZone(g, y) ensures ZoneOk(g, fs', use, y) { assert ZoneOk(g, fs, use, y); }
    forall n', b' | FileBlock(fs, n', b')
      ensures Content(g, fs', n', b') == if n' == n && b' == b then p else Content(g, fs, n', b')
    {
      DataSlotOk(fs, n', b');
      assert SlotHeld(g, fs, use, DataSlot(n', b'));
      if ZoneOf(g, fs, n', b') == z { DataSlotInjective(n, b, n', b'); }
    }
  }
}

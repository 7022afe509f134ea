/**
  The Minix zone tree (fs/inode.c, fs/bitmap.c): nine zone numbers per inode, of which the eighth
  names a block of 512 zone numbers and the ninth a block of such blocks.

  A `Slot` is a place that can hold a zone number.  The invariant says that marked bits and
  occupied slots correspond one to one, so no two logical blocks and no two files share a zone.
 */
module Zones {

  const BLOCK_SIZE := 1024
  const PER_BLOCK := 512
  const DIRECT := 7
  const MAX_BLOCKS := 7 + 512 + 512 * 512
  const MAP_BITS := 8192

  type Block = seq<int>

  datatype Inode = Inode(zone: seq<int>, size: int)

  /** Device geometry (struct super_block). */
  datatype Geometry = Geometry(firstData: int, nzones: int)

  /** Zone bitmap, block contents, inodes. */
  datatype Fs = Fs(zmap: seq<bool>, disk: seq<Block>, inode: seq<Inode>)

  datatype Slot =
    | Zone(n: int, k: int)                  // i_zone[k] of inode n
    | Ind(n: int, i: int)                   // entry i of its indirect block
    | Dind(n: int, i: int)                  // entry i of its double indirect block
    | DindInd(n: int, i: int, j: int)       // entry j of the block that names

  /** What a zone is used for; `Pending` while an allocated block is not yet recorded in its slot. */
  datatype Use = Unused | Pending | Holds(s: Slot)

  function ZeroBlock(): (b: Block)
    ensures |b| == BLOCK_SIZE && forall i :: 0 <= i < BLOCK_SIZE ==> b[i] == 0
  {
    seq(BLOCK_SIZE, _ => 0)
  }

  // ------------------------------------------------------------------ 16-bit words in a block

  function Word16(b: Block, i: int): int
    requires |b| == BLOCK_SIZE && 0 <= i < PER_BLOCK
  {
    b[2 * i] + 256 * b[2 * i + 1]
  }

  function SetWord16(b: Block, i: int, v: int): Block
    requires |b| == BLOCK_SIZE && 0 <= i < PER_BLOCK
  {
    b[2 * i := v % 256][2 * i + 1 := v / 256]
  }

  lemma WordSet(b: Block, i: int, v: int, j: int)
    requires |b| == BLOCK_SIZE && 0 <= i < PER_BLOCK && 0 <= j < PER_BLOCK
    ensures |SetWord16(b, i, v)| == BLOCK_SIZE
    ensures Word16(SetWord16(b, i, v), j) == if i == j then v else Word16(b, j)
  {
  }

  // ------------------------------------------------------------------ reading the tree

  ghost predicate GeoOk(g: Geometry) { 1 <= g.firstData <= g.nzones < 0x10000 }

  predicate DataZone(g: Geometry, z: int) { g.firstData <= z < g.nzones }

  function BitOf(g: Geometry, z: int): int { z - g.firstData + 1 }

  ghost predicate Shape(g: Geometry, fs: Fs) {
    && GeoOk(g)
    && |fs.zmap| % MAP_BITS == 0 && |fs.zmap| <= 8 * MAP_BITS
    && g.nzones - g.firstData < |fs.zmap|
    && fs.zmap[0]
    && |fs.disk| == g.nzones
    && (forall z :: 0 <= z < |fs.disk| ==> |fs.disk[z]| == BLOCK_SIZE)
    && (forall n :: 0 <= n < |fs.inode| ==> |fs.inode[n].zone| == 9)
  }

  predicate SlotOk(fs: Fs, s: Slot) {
    match s
    case Zone(n, k) => 0 <= n < |fs.inode| && 0 <= k < 9
    case Ind(n, i) => 0 <= n < |fs.inode| && 0 <= i < PER_BLOCK
    case Dind(n, i) => 0 <= n < |fs.inode| && 0 <= i < PER_BLOCK
    case DindInd(n, i, j) => 0 <= n < |fs.inode| && 0 <= i < PER_BLOCK && 0 <= j < PER_BLOCK
  }

  /** Entry i of the table block z; 0 when there is no such block. */
  function Entry(fs: Fs, z: int, i: int): int {
    if 0 < z < |fs.disk| && |fs.disk[z]| == BLOCK_SIZE && 0 <= i < PER_BLOCK then Word16(fs.disk[z], i) else 0
  }

  /** The zone number a slot holds, 0 for none. */
  function Val(fs: Fs, s: Slot): int
    requires SlotOk(fs, s) && forall n :: 0 <= n < |fs.inode| ==> |fs.inode[n].zone| == 9
  {
    match s
    case Zone(n, k) => fs.inode[n].zone[k]
    case Ind(n, i) => Entry(fs, fs.inode[n].zone[7], i)
    case Dind(n, i) => Entry(fs, fs.inode[n].zone[8], i)
    case DindInd(n, i, j) => Entry(fs, Entry(fs, fs.inode[n].zone[8], i), j)
  }

  /** Slots whose zone is a block of zone numbers. */
  predicate IsTable(s: Slot) { (s.Zone? && s.k >= DIRECT) || s.Dind? }

  /** The slot for entry i of the table that s holds. */
  function Child(s: Slot, i: int): Slot
    requires IsTable(s)
  {
    match s
    case Zone(n, k) => if k == 7 then Ind(n, i) else Dind(n, i)
    case Dind(n, j) => DindInd(n, j, i)
  }

  ghost predicate Marked(g: Geometry, fs: Fs, z: int)
    requires Shape(g, fs) && DataZone(g, z)
  {
    fs.zmap[BitOf(g, z)]
  }

  // ------------------------------------------------------------------ the invariant

  ghost predicate SlotHeld(g: Geometry, fs: Fs, use: seq<Use>, s: Slot)
    requires Shape(g, fs) && |use| == g.nzones && SlotOk(fs, s)
  {
    Val(fs, s) != 0 ==> DataZone(g, Val(fs, s)) && use[Val(fs, s)] == Holds(s)
  }

  ghost predicate ZoneOk(g: Geometry, fs: Fs, use: seq<Use>, z: int)
    requires Shape(g, fs) && |use| == g.nzones && DataZone(g, z)
  {
    && (Marked(g, fs, z) <==> !use[z].Unused?)
    && (use[z].Holds? ==> SlotOk(fs, use[z].s) && Val(fs, use[z].s) == z)
  }

  ghost predicate Inv(g: Geometry, fs: Fs, use: seq<Use>) {
    && Shape(g, fs) && |use| == g.nzones
    && (forall s :: SlotOk(fs, s) ==> SlotHeld(g, fs, use, s))
    && (forall z :: DataZone(g, z) ==> ZoneOk(g, fs, use, z))
  }

  ghost predicate Settled(g: Geometry, use: seq<Use>) {
    GeoOk(g) && |use| == g.nzones && forall z :: DataZone(g, z) ==> !use[z].Pending?
  }

  /** No two slots hold the same zone: logical blocks and files are never cross-linked. */
  lemma NoCrossLink(g: Geometry, fs: Fs, use: seq<Use>, s: Slot, s': Slot)
    requires Inv(g, fs, use) && SlotOk(fs, s) && SlotOk(fs, s') && Val(fs, s) == Val(fs, s') != 0
    ensures s == s'
  {
    assert SlotHeld(g, fs, use, s) && SlotHeld(g, fs, use, s');
  }

  /** Marked zones are exactly the zones reachable from inodes. */
  lemma MarkedIsReachable(g: Geometry, fs: Fs, use: seq<Use>, z: int)
    requires Inv(g, fs, use) && Settled(g, use) && DataZone(g, z)
    ensures Marked(g, fs, z) <==> exists s :: SlotOk(fs, s) && Val(fs, s) == z
  {
    assert ZoneOk(g, fs, use, z);
    if s :| SlotOk(fs, s) && Val(fs, s) == z {
      assert SlotHeld(g, fs, use, s);
    }
  }

  // ------------------------------------------------------------------ files

  /** Where logical block b of inode n is recorded. */
  function DataSlot(n: int, b: int): Slot {
    if b < DIRECT then Zone(n, b)
    else if b < DIRECT + PER_BLOCK then Ind(n, b - DIRECT)
    else DindInd(n, (b - DIRECT - PER_BLOCK) / PER_BLOCK, (b - DIRECT - PER_BLOCK) % PER_BLOCK)
  }

  predicate FileBlock(fs: Fs, n: int, b: int) { 0 <= n < |fs.inode| && 0 <= b < MAX_BLOCKS }

  lemma DataSlotOk(fs: Fs, n: int, b: int)
    requires FileBlock(fs, n, b)
    ensures SlotOk(fs, DataSlot(n, b)) && !IsTable(DataSlot(n, b))
  {
  }

  lemma DataSlotInjective(n: int, b: int, n': int, b': int)
    requires 0 <= b && 0 <= b' && DataSlot(n, b) == DataSlot(n', b')
    ensures n == n' && b == b'
  {
  }

  /** The zone of a logical block, 0 for a hole. */
  ghost function ZoneOf(g: Geometry, fs: Fs, n: int, b: int): int
    requires Shape(g, fs) && FileBlock(fs, n, b)
  {
    DataSlotOk(fs, n, b);
    Val(fs, DataSlot(n, b))
  }

  /** Where blocks are found: the first 7 in the inode, the next 512 through the block in zone 7, and then 512 through
      each of the 512 blocks that the one in zone 8 names (inode.c:58-114). */
  lemma ZonePlaces(g: Geometry, fs: Fs, n: int)
    requires Shape(g, fs) && 0 <= n < |fs.inode|
    ensures forall k :: 0 <= k < 7 ==> ZoneOf(g, fs, n, k) == fs.inode[n].zone[k]
    ensures forall i :: 0 <= i < 512 ==> ZoneOf(g, fs, n, 7 + i) == Entry(fs, fs.inode[n].zone[7], i)
    ensures forall i, j :: 0 <= i < 512 && 0 <= j < 512 ==>
              ZoneOf(g, fs, n, 7 + 512 + 512 * i + j) == Entry(fs, Entry(fs, fs.inode[n].zone[8], i), j)
  {
    forall i, j | 0 <= i < 512 && 0 <= j < 512
      ensures ZoneOf(g, fs, n, 7 + 512 + 512 * i + j) == Entry(fs, Entry(fs, fs.inode[n].zone[8], i), j)
    {
      assert (512 * i + j) / 512 == i && (512 * i + j) % 512 == j;
    }
  }

  /** An entry is two bytes of its block, the lower one first; and zone z has bit z - firstData + 1 of the map. */
  lemma EntryBytes(g: Geometry, fs: Fs, z: int, i: int)
    requires Shape(g, fs) && 0 < z < |fs.disk| && 0 <= i < 512
    ensures Entry(fs, z, i) == fs.disk[z][2 * i] + 256 * fs.disk[z][2 * i + 1]
    ensures DataZone(g, z) ==> (Marked(g, fs, z) <==> fs.zmap[z - g.firstData + 1])
  {
  }

  /** The contents of a logical block: a hole reads as zeros. */
  ghost function Content(g: Geometry, fs: Fs, n: int, b: int): Block
    requires Shape(g, fs) && FileBlock(fs, n, b)
  {
    if DataZone(g, ZoneOf(g, fs, n, b)) then fs.disk[ZoneOf(g, fs, n, b)] else ZeroBlock()
  }

  // ------------------------------------------------------------------ single stores

  function SetBit(fs: Fs, k: int, v: bool): Fs
    requires 0 <= k < |fs.zmap|
  {
    fs.(zmap := fs.zmap[k := v])
  }

  function SetBlock(fs: Fs, z: int, b: Block): Fs
    requires 0 <= z < |fs.disk|
  {
    fs.(disk := fs.disk[z := b])
  }

  function SetZone(fs: Fs, n: int, k: int, z: int): Fs
    requires 0 <= n < |fs.inode| && |fs.inode[n].zone| == 9 && 0 <= k < 9
  {
    fs.(inode := fs.inode[n := fs.inode[n].(zone := fs.inode[n].zone[k := z])])
  }

  /** Records zone z in slot s, whose table is in place. */
  function SetSlot(fs: Fs, s: Slot, z: int): Fs
    requires SlotOk(fs, s) && forall n :: 0 <= n < |fs.inode| ==> |fs.inode[n].zone| == 9
    requires !s.Zone? ==> 0 <= TableOf(fs, s) < |fs.disk| && |fs.disk[TableOf(fs, s)]| == BLOCK_SIZE
  {
    if s.Zone? then SetZone(fs, s.n, s.k, z)
    else SetBlock(fs, TableOf(fs, s), SetWord16(fs.disk[TableOf(fs, s)], IndexOf(s), z))
  }

  /** The table block a slot lives in. */
  function TableOf(fs: Fs, s: Slot): int
    requires SlotOk(fs, s) && !s.Zone? && forall n :: 0 <= n < |fs.inode| ==> |fs.inode[n].zone| == 9
  {
    match s
    case Ind(n, _) => fs.inode[n].zone[7]
    case Dind(n, _) => fs.inode[n].zone[8]
    case DindInd(n, i, _) => Entry(fs, fs.inode[n].zone[8], i)
  }

  function IndexOf(s: Slot): int
    requires !s.Zone?
  {
    match s case Ind(_, i) => i case Dind(_, i) => i case DindInd(_, _, j) => j
  }
}

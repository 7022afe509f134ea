/**
  The block layer in place (fs/bitmap.c, fs/inode.c, fs/truncate.c, fs/file_dev.c): bitmap bits,
  block contents and inodes are updated as the source does, and each method is stated by what it
  does to the zone tree and to the files' contents.
 */
module FileSystems {
  import opened Zones
  import opened ZoneSteps

  /** No data zone is free. */
  ghost predicate NoSpace(g: Geometry, fs: Fs)
    requires Shape(g, fs)
  {
    forall z :: DataZone(g, z) ==> Marked(g, fs, z)
  }

  class FileSystem {
    const g: Geometry
    const zmap: array<bool>
    const disk: array<Block>
    const inode: array<Inode>
    ghost var use: seq<Use>

    ghost function F(): Fs
      reads zmap, disk, inode
    {
      Fs(zmap[..], disk[..], inode[..])
    }

    ghost predicate Valid()
      reads this, zmap, disk, inode
    {
      Inv(g, F(), use) && Settled(g, use)
    }

    /** A mounted empty device: bit 0 set (super.c:60), no zone in use, inodes without zones. */
    constructor (geo: Geometry, mapBlocks: int, inodes: int)
      requires GeoOk(geo) && 1 <= mapBlocks <= 8 && geo.nzones - geo.firstData < MAP_BITS * mapBlocks && 0 <= inodes
      ensures Valid() && g == geo && inode.Length == inodes
      ensures fresh(zmap) && fresh(disk) && fresh(inode)
      ensures forall n, b :: FileBlock(F(), n, b) ==> Content(g, F(), n, b) == ZeroBlock()
      ensures forall n :: 0 <= n < inodes ==> F().inode[n].size == 0
    {
      g := geo;
      zmap := new bool[MAP_BITS * mapBlocks](k => k == 0);
      disk := new Block[geo.nzones](_ => ZeroBlock());
      inode := new Inode[inodes](_ => Inode(seq(9, _ => 0), 0));
      use := seq(geo.nzones, _ => Unused);
      new;
      assert Shape(g, F());
      forall s | SlotOk(F(), s) ensures Val(F(), s) == 0 {}
      forall z | DataZone(g, z) ensures ZoneOk(g, F(), use, z) {}
      forall n, b | FileBlock(F(), n, b) ensures Content(g, F(), n, b) == ZeroBlock() { DataSlotOk(F(), n, b); }
    }

    // ---------------------------------------------------------------- the bitmap

    /** find_first_zero in map block i: 8192 when every bit is set (bitmap.c:23-37). */
    method FindFirstZero(i: int) returns (j: int)
      requires 0 <= i && MAP_BITS * (i + 1) <= zmap.Length
      ensures 0 <= j <= MAP_BITS
      ensures forall k :: MAP_BITS * i <= k < MAP_BITS * i + j ==> zmap[k]
      ensures j < MAP_BITS ==> !zmap[MAP_BITS * i + j]
    {
      j := 0;
      while j < MAP_BITS && zmap[MAP_BITS * i + j]
        invariant 0 <= j <= MAP_BITS
        invariant forall k :: MAP_BITS * i <= k < MAP_BITS * i + j ==> zmap[k]
      {
        j := j + 1;
      }
    }

    /** The lowest clear bit of the whole map, or its length (bitmap.c:75-81). */
    method FirstClearBit() returns (k: int)
      requires zmap.Length % MAP_BITS == 0 && zmap.Length <= 8 * MAP_BITS
      ensures 0 <= k <= zmap.Length
      ensures forall b :: 0 <= b < k ==> zmap[b]
      ensures k < zmap.Length ==> !zmap[k]
    {
      var i := 0;
      while i < 8
        invariant 0 <= i <= 8
        invariant forall b :: 0 <= b < MAP_BITS * i && b < zmap.Length ==> zmap[b]
      {
        if MAP_BITS * (i + 1) <= zmap.Length {
          var j := FindFirstZero(i);
          if j < MAP_BITS { return MAP_BITS * i + j; }
        }
        i := i + 1;
      }
      return zmap.Length;
    }

    /** new_block: the lowest free zone, marked and zeroed; 0 when none is left.  A clear bit past the
        last zone is set and lost, which no file can notice (bitmap.c:67-97). */
    method NewBlock() returns (z: int)
      requires Valid()
      modifies this`use, zmap, disk
      ensures Inv(g, F(), use) && |F().zmap| == |old(F()).zmap|
      ensures z == 0 ==> use == old(use) && F().disk == old(F()).disk && NoSpace(g, F()) && NoSpace(g, old(F()))
      ensures z == 0 ==> forall s :: SlotOk(F(), s) ==> Val(F(), s) == Val(old(F()), s)
      ensures z != 0 ==> DataZone(g, z) && !Marked(g, old(F()), z) && use == old(use)[z := Pending]
      ensures z != 0 ==> F() == Allocated(g, old(F()), z)
      ensures z != 0 ==> forall y :: DataZone(g, y) && y < z ==> Marked(g, old(F()), y)
    {
      var k := FirstClearBit();
      if k == zmap.Length { return 0; }
      zmap[k] := true;
      z := k + g.firstData - 1;
      assert k != 0;
      if z >= g.nzones {
        PastBitKeeps(g, old(F()), use, k);
        assert F() == SetBit(old(F()), k, true);
        return 0;
      }
      AllocateKeeps(g, old(F()), use, z);
      disk[z] := ZeroBlock();
      assert F() == Allocated(g, old(F()), z);
      use := use[z := Pending];
    }

    /** free_block: false stands for the panic on a bit that is already clear (bitmap.c:39-65). */
    method FreeBlock(z: int) returns (ok: bool)
      requires Shape(g, F()) && DataZone(g, z)
      modifies zmap
      ensures ok == Marked(g, old(F()), z)
      ensures F() == SetBit(old(F()), BitOf(g, z), false)
    {
      ok := zmap[BitOf(g, z)];
      zmap[BitOf(g, z)] := false;
    }

    // ---------------------------------------------------------------- bmap

    /** The stores that record zone z in slot s. */
    method StoreSlot(s: Slot, z: int)
      requires Shape(g, F()) && SlotOk(F(), s) && (s.Zone? || DataZone(g, TableOf(F(), s)))
      modifies disk, inode
      ensures F() == SetSlot(old(F()), s, z)
    {
      match s {
        case Zone(n, k) =>
          inode[n] := inode[n].(zone := inode[n].zone[k := z]);
        case Ind(n, i) =>
          var t := inode[n].zone[7];
          disk[t] := SetWord16(disk[t], i, z);
        case Dind(n, i) =>
          var t := inode[n].zone[8];
          disk[t] := SetWord16(disk[t], i, z);
        case DindInd(n, i, j) =>
          var t := Word16(disk[inode[n].zone[8]], i);
          disk[t] := SetWord16(disk[t], j, z);
      }
    }

    /** Reads the zone number in a slot. */
    method ReadSlot(s: Slot) returns (v: int)
      requires Valid() && SlotOk(F(), s) && TableReady(F(), s)
      ensures v == Val(F(), s)
    {
      if !s.Zone? { TableHeld(g, F(), use, s); }
      match s {
        case Zone(n, k) => v := inode[n].zone[k];
        case Ind(n, i) => v := Word16(disk[inode[n].zone[7]], i);
        case Dind(n, i) => v := Word16(disk[inode[n].zone[8]], i);
        case DindInd(n, i, j) =>
          TableHeld(g, F(), use, Dind(n, i));
          v := Word16(disk[Word16(disk[inode[n].zone[8]], i)], j);
      }
    }

    /** "If creating and the slot is empty, put a new block in it": the step every level of _bmap repeats. */
    method Fill(s: Slot, create: bool) returns (v: int)
      requires Valid() && SlotOk(F(), s) && TableReady(F(), s)
      modifies this`use, zmap, disk, inode
      ensures Valid() && SameContents(g, old(F()), F()) && |F().zmap| == |old(F()).zmap|
      ensures SlotOk(F(), s) && v == Val(F(), s)
      ensures !create || Val(old(F()), s) != 0 ==> F() == old(F())
      ensures create && v == 0 ==> NoSpace(g, F())
      ensures forall s' :: SlotOk(old(F()), s') && s' != s ==> Val(F(), s') == Val(old(F()), s')
    {
      v := ReadSlot(s);
      if create && v == 0 {
        ghost var fs, use0 := F(), use;
        v := NewBlock();
        if v != 0 {
          RecordContents(g, fs, use0, s, v);
          TableSame(g, fs, use0, v, s);
          StoreSlot(s, v);
          use := use[v := Holds(s)];
          assert use == use0[v := Holds(s)];
        } else {
          forall n, b | FileBlock(fs, n, b) ensures Content(g, F(), n, b) == Content(g, fs, n, b) {
            DataSlotOk(fs, n, b);
          }
        }
      }
    }

    /** _bmap: the zone of logical block `block` of inode n, allocated on the way when creating.  No
        other logical block of any file moves and no file's contents change (inode.c:49-115). */
    method BMap(n: int, block: int, create: bool) returns (z: int)
      requires Valid() && FileBlock(F(), n, block)
      modifies this`use, zmap, disk, inode
      ensures Valid() && SameContents(g, old(F()), F())
      ensures z == ZoneOf(g, F(), n, block)
      ensures !create || ZoneOf(g, old(F()), n, block) != 0 ==> F() == old(F())
      ensures create && z == 0 ==> NoSpace(g, F())
      ensures forall n', b' :: FileBlock(old(F()), n', b') && !(n' == n && b' == block) ==>
                ZoneOf(g, F(), n', b') == ZoneOf(g, old(F()), n', b')
    {
      ghost var fs := F();
      forall n', b' | FileBlock(fs, n', b') ensures SlotOk(fs, DataSlot(n', b')) && !IsTable(DataSlot(n', b')) {
        DataSlotOk(fs, n', b');
      }
      forall n', b' | FileBlock(fs, n', b') && DataSlot(n', b') == DataSlot(n, block) ensures n' == n && b' == block {
        DataSlotInjective(n, block, n', b');
      }
      if block < DIRECT {
        z := Fill(Zone(n, block), create);
      } else if block < DIRECT + PER_BLOCK {
        var t := Fill(Zone(n, 7), create);
        if t == 0 { return 0; }
        z := Fill(Ind(n, block - DIRECT), create);
      } else {
        var rest := block - DIRECT - PER_BLOCK;
        z := BMapDouble(n, rest / PER_BLOCK, rest % PER_BLOCK, create);
      }
    }

    /** The double indirect case (inode.c:86-114). */
    method BMapDouble(n: int, i: int, j: int, create: bool) returns (z: int)
      requires Valid() && SlotOk(F(), DindInd(n, i, j))
      modifies this`use, zmap, disk, inode
      ensures Valid() && SameContents(g, old(F()), F())
      ensures z == Val(F(), DindInd(n, i, j))
      ensures !create || Val(old(F()), DindInd(n, i, j)) != 0 ==> F() == old(F())
      ensures create && z == 0 ==> NoSpace(g, F())
      ensures forall s' :: SlotOk(old(F()), s') && !IsTable(s') && s' != DindInd(n, i, j) ==>
              Val(F(), s') == Val(old(F()), s')
    {
      var t := FillTables(n, i, create);
      if t == 0 { return 0; }
      z := Fill(DindInd(n, i, j), create);
    }

    /** The double indirect block and its block i. */
    method FillTables(n: int, i: int, create: bool) returns (t: int)
      requires Valid() && SlotOk(F(), Dind(n, i))
      modifies this`use, zmap, disk, inode
      ensures Valid() && SameContents(g, old(F()), F()) && |F().zmap| == |old(F()).zmap|
      ensures SlotOk(F(), Dind(n, i)) && t == Val(F(), Dind(n, i))
      ensures !create || Val(old(F()), Dind(n, i)) != 0 ==> F() == old(F())
      ensures create && t == 0 ==> NoSpace(g, F())
      ensures forall s :: SlotOk(old(F()), s) && !IsTable(s) ==> Val(F(), s) == Val(old(F()), s)
    {
      t := Fill(Zone(n, 8), create);
      if t != 0 { t := Fill(Dind(n, i), create); }
    }

    // ---------------------------------------------------------------- reading and writing

    /** file_read without the cipher: the bytes of the flat file from pos on (file_dev.c:93-120). */
    method FileRead(n: int, pos: int, count: int) returns (out: seq<int>, newPos: int)
      requires Valid() && 0 <= n < inode.Length && 0 <= pos && (count > 0 ==> pos + count <= MAX_BYTES)
      modifies this`use, zmap, disk, inode
      ensures F() == old(F()) && Valid()
      ensures count <= 0 ==> out == [] && newPos == pos
      ensures count > 0 ==> |out| == count && newPos == pos + count
      ensures forall k :: 0 <= k < |out| ==> out[k] == ByteAt(g, F(), n, pos + k)
    {
      out, newPos := [], pos;
      if count <= 0 { return; }
      var left := count;
      while left > 0
        invariant 0 <= left <= count && newPos == pos + count - left && |out| == count - left
        invariant F() == old(F()) && Valid()
        invariant forall k :: 0 <= k < |out| ==> out[k] == ByteAt(g, F(), n, pos + k)
      {
        var b, nr := newPos / BLOCK_SIZE, newPos % BLOCK_SIZE;
        var z := BMap(n, b, false);
        var chars := if BLOCK_SIZE - nr < left then BLOCK_SIZE - nr else left;
        ZoneData(g, F(), use, n, b);
        var data := if z != 0 then disk[z] else ZeroBlock();
        ReadExtends(g, F(), n, pos, out, newPos, b, nr, data[nr..nr + chars]);
        out := out + data[nr..nr + chars];
        newPos := newPos + chars;
        left := left - chars;
      }
    }

    /** One turn of the write loop: the chunk that fits in the block at pos (file_dev.c:159-176).
        Returns 0 when no block could be had. */
    method WriteChunk(n: int, pos: int, data: seq<int>) returns (c: int)
      requires Valid() && 0 <= n < inode.Length && 0 <= pos && |data| > 0 && pos < MAX_BYTES
      modifies this`use, zmap, disk, inode
      ensures Valid() && 0 <= c <= |data|
      ensures c == 0 ==> SameContents(g, old(F()), F()) && NoSpace(g, F())
      ensures Spliced(g, old(F()), F(), n, pos, data[..c])
      ensures |F().inode| == |old(F()).inode|
      ensures c > 0 ==> F().inode[n].size == if pos + c > old(F()).inode[n].size then pos + c
              else old(F()).inode[n].size
      ensures c == 0 ==> F().inode[n].size == old(F()).inode[n].size
      ensures ZonesKept(g, old(F()), F(), n)
    {
      var b, off := pos / BLOCK_SIZE, pos % BLOCK_SIZE;
      ghost var fs := F();
      var z := BMap(n, b, true);
      if z == 0 {
        SpliceNone(g, fs, F(), n, pos);
        return 0;
      }
      c := if BLOCK_SIZE - off > |data| then |data| else BLOCK_SIZE - off;
      PutAndGrow(fs, n, pos, b, off, z, data[..c]);
    }

    method PutAndGrow(ghost fs: Fs, n: int, pos: int, b: int, off: int, z: int, data: seq<int>)
      requires Valid() && SameContents(g, fs, F()) && FileBlock(F(), n, b) && z == ZoneOf(g, F(), n, b) != 0
      requires 0 <= pos && b == pos / BLOCK_SIZE && off == pos % BLOCK_SIZE && off + |data| <= BLOCK_SIZE
      requires ZonesKept(g, fs, F(), n)
      modifies disk, inode
      ensures Valid() && Spliced(g, fs, F(), n, pos, data) && ZonesKept(g, fs, F(), n)
      ensures |F().inode| == |old(F()).inode|
      ensures F().inode[n].size == if pos + |data| > old(F()).inode[n].size then pos + |data|
              else old(F()).inode[n].size
    {
      ghost var fs1 := F();
      PutData(fs, n, pos, b, off, z, data);
      ghost var fs2 := F();
      ZonesChain(g, fs, fs1, fs2, n);
      Grow(fs, n, pos, pos + |data|, data);
      ZonesChain(g, fs, fs2, F(), n);
    }

    /** "if (pos > inode->i_size)" (file_dev.c:169-172). */
    method Grow(ghost fs: Fs, n: int, pos: int, end: int, ghost data: seq<int>)
      requires Valid() && Spliced(g, fs, F(), n, pos, data) && end == pos + |data|
      modifies inode
      ensures Valid() && Spliced(g, fs, F(), n, pos, data) && |F().inode| == |old(F()).inode|
      ensures F().inode[n].size == if end > old(F()).inode[n].size then end else old(F()).inode[n].size
      ensures ZonesKept(g, old(F()), F(), n)
    {
      if end > inode[n].size {
        SizeKeeps(g, F(), use, n, end);
        SlotsKeepZones(g, F(), SetSize(F(), n, end), n);
        SpliceSize(g, fs, F(), n, pos, data, end);
        inode[n] := inode[n].(size := end);
        assert F() == SetSize(old(F()), n, end);
      }
    }

    /** The byte loop of file_write on one block (file_dev.c:163-176). */
    method PutData(ghost fs: Fs, n: int, pos: int, b: int, off: int, z: int, data: seq<int>)
      requires Valid() && SameContents(g, fs, F()) && FileBlock(F(), n, b) && z == ZoneOf(g, F(), n, b) != 0
      requires 0 <= pos && b == pos / BLOCK_SIZE && off == pos % BLOCK_SIZE && off + |data| <= BLOCK_SIZE
      modifies disk
      ensures Valid() && Spliced(g, fs, F(), n, pos, data) && F().inode == old(F()).inode
      ensures ZonesKept(g, old(F()), F(), n)
    {
      ZoneData(g, F(), use, n, b);
      var block := disk[z][..off] + data + disk[z][off + |data|..];
      WriteKeeps(g, F(), use, n, b, block);
      SlotsKeepZones(g, F(), SetBlock(F(), z, block), n);
      disk[z] := block;
      assert F() == SetBlock(old(F()), z, block);
      SpliceBlock(g, fs, old(F()), F(), n, pos, b, off, data, block);
    }

    /** file_write without the cipher: i bytes completed (file_dev.c:154-187).  The flat file has those
        bytes spliced in, its size covers them, and no other file changes. A write that comes to the end of
        the largest file ends in a panic of _bmap. */
    method FileWrite(n: int, append: bool, fpos: int, buf: seq<int>) returns (i: int, newPos: int, panicked: bool)
      requires Valid() && 0 <= n < inode.Length && 0 <= fpos && 0 <= inode[n].size
      modifies this`use, zmap, disk, inode
      ensures Valid() && 0 <= i <= |buf| && |F().inode| == |old(F()).inode|
      ensures i < |buf| && !panicked ==> NoSpace(g, F())
      ensures var start := if append then old(inode[n].size) else fpos;
              panicked <==> i < |buf| && start + i >= MAX_BYTES
      ensures var pos := if append then old(inode[n].size) else fpos;
              && Spliced(g, old(F()), F(), n, pos, buf[..i])
              && F().inode[n].size == (if i > 0 && pos + i > old(inode[n].size) then pos + i else old(inode[n].size))
              && newPos == if append then fpos else pos + i
      ensures ZonesKept(g, old(F()), F(), n)
    {
      var start := if append then inode[n].size else fpos;
      SplicedNothing(g, F(), n, start);
      i, panicked := WriteLoop(F(), n, start, buf);
      newPos := if append then fpos else start + i;
    }

    method WriteLoop(ghost fs0: Fs, n: int, start: int, buf: seq<int>) returns (i: int, panicked: bool)
      requires Valid() && 0 <= n < inode.Length && 0 <= start && Progress(g, fs0, F(), n, start, [])
      modifies this`use, zmap, disk, inode
      ensures Valid() && 0 <= i <= |buf| && Progress(g, fs0, F(), n, start, buf[..i])
      ensures panicked <==> i < |buf| && start + i >= MAX_BYTES
      ensures i < |buf| && !panicked ==> NoSpace(g, F())
    {
      var pos := start;
      i, panicked := 0, false;
      assert buf[..0] == [];
      while i < |buf|
        invariant 0 <= i <= |buf| && pos == start + i && Valid() && Progress(g, fs0, F(), n, start, buf[..i])
        decreases |buf| - i
      {
        // _bmap panics on a block number beyond the double indirect blocks (inode.c:56-57)
        if pos >= MAX_BYTES { panicked := true; return; }
        var c := WriteNext(fs0, n, start, pos, buf, i);
        if c == 0 { return; }
        pos := pos + c;
        i := i + c;
      }
    }

    method WriteNext(ghost fs0: Fs, n: int, ghost start: int, pos: int, buf: seq<int>, i: int) returns (c: int)
      requires Valid() && 0 <= n < inode.Length && 0 <= i < |buf| && 0 <= start && pos == start + i < MAX_BYTES
      requires Progress(g, fs0, F(), n, start, buf[..i])
      modifies this`use, zmap, disk, inode
      ensures Valid() && 0 <= c <= |buf| - i && Progress(g, fs0, F(), n, start, buf[..i + c])
      ensures c == 0 ==> NoSpace(g, F())
    {
      ghost var fs := F();
      c := WriteChunk(n, pos, buf[i..]);
      SplicedChain(g, fs0, fs, F(), n, start, buf[..i], buf[i..][..c]);
      ZonesChain(g, fs0, fs, F(), n);
      assert buf[..i] + buf[i..][..c] == buf[..i + c];
    }
  }

  // ------------------------------------------------------------------ flat files

  const MAX_BYTES := MAX_BLOCKS * BLOCK_SIZE

  ghost function ByteAt(g: Geometry, fs: Fs, n: int, p: int): int
    requires Shape(g, fs) && 0 <= n < |fs.inode| && 0 <= p < MAX_BYTES
  {
    Content(g, fs, n, p / BLOCK_SIZE)[p % BLOCK_SIZE]
  }

  /** Byte r of block b of a file is byte 1024 * b + r of the flat file; in a hole it is zero. */
  lemma BytePlace(g: Geometry, fs: Fs, use: seq<Use>, n: int, b: int, r: int)
    requires Inv(g, fs, use) && FileBlock(fs, n, b) && 0 <= r < 1024
    ensures 1024 * b + r < MAX_BYTES
    ensures var z := ZoneOf(g, fs, n, b);
            if z == 0 then ByteAt(g, fs, n, 1024 * b + r) == 0
            else 0 < z < |fs.disk| && ByteAt(g, fs, n, 1024 * b + r) == fs.disk[z][r]
  {
    assert (1024 * b + r) / 1024 == b && (1024 * b + r) % 1024 == r;
    ZoneData(g, fs, use, n, b);
  }

  /** Setting a bit beyond the last zone changes no zone. */
  lemma PastBitKeeps(g: Geometry, fs: Fs, use: seq<Use>, k: int)
    requires Inv(g, fs, use) && 0 < k < |fs.zmap| && k + g.firstData - 1 >= g.nzones
    ensures Inv(g, SetBit(fs, k, true), use)
    ensures forall s :: SlotOk(fs, s) ==> Val(SetBit(fs, k, true), s) == Val(fs, s)
    ensures forall z :: DataZone(g, z) ==> (Marked(g, SetBit(fs, k, true), z) <==> Marked(g, fs, z))
  {
    var fs' := SetBit(fs, k, true);
    assert Shape(g, fs');
    forall s | SlotOk(fs, s) ensures SlotHeld(g, fs', use, s) { assert SlotHeld(g, fs, use, s); }
    forall y | DataZone(g, y) ensures ZoneOk(g, fs', use, y) { assert ZoneOk(g, fs, use, y); }
  }

  /** File n has `data` at pos and is otherwise as before; every other file is as before. */
  ghost predicate Spliced(g: Geometry, fs: Fs, fs': Fs, n: int, pos: int, data: seq<int>) {
    && Shape(g, fs) && Shape(g, fs') && |fs'.inode| == |fs.inode| && 0 <= n < |fs.inode|
    && (forall p :: 0 <= p < MAX_BYTES ==>
          ByteAt(g, fs', n, p) == if pos <= p < pos + |data| then data[p - pos] else ByteAt(g, fs, n, p))
    && (forall m, b :: FileBlock(fs, m, b) && m != n ==> Content(g, fs', m, b) == Content(g, fs, m, b))
    && (forall m :: 0 <= m < |fs.inode| && m != n ==> fs'.inode[m].size == fs.inode[m].size)
  }

  /** `data` has been written at pos, and the size of the file covers it. */
  ghost predicate Progress(g: Geometry, fs: Fs, fs': Fs, n: int, pos: int, data: seq<int>) {
    && Spliced(g, fs, fs', n, pos, data) && ZonesKept(g, fs, fs', n)
    && fs'.inode[n].size == if |data| > 0 && pos + |data| > fs.inode[n].size then pos + |data| else fs.inode[n].size
  }

  /** Files other than n keep all their zones. */
  ghost predicate ZonesKept(g: Geometry, fs: Fs, fs': Fs, n: int) {
    && Shape(g, fs) && Shape(g, fs') && |fs'.inode| == |fs.inode|
    && forall m, b :: FileBlock(fs, m, b) && m != n ==> ZoneOf(g, fs', m, b) == ZoneOf(g, fs, m, b)
  }

  lemma SlotsKeepZones(g: Geometry, fs: Fs, fs': Fs, n: int)
    requires Shape(g, fs) && Shape(g, fs') && |fs'.inode| == |fs.inode|
    requires forall s :: SlotOk(fs, s) ==> SlotOk(fs', s) && Val(fs', s) == Val(fs, s)
    ensures ZonesKept(g, fs, fs', n)
  {
    forall m, b | FileBlock(fs, m, b) ensures ZoneOf(g, fs', m, b) == ZoneOf(g, fs, m, b) { DataSlotOk(fs, m, b); }
  }

  lemma ZonesChain(g: Geometry, fs: Fs, fs1: Fs, fs2: Fs, n: int)
    requires ZonesKept(g, fs, fs1, n) && ZonesKept(g, fs1, fs2, n)
    ensures ZonesKept(g, fs, fs2, n)
  {
    forall m, b | FileBlock(fs, m, b) && m != n ensures ZoneOf(g, fs2, m, b) == ZoneOf(g, fs, m, b) {
      assert FileBlock(fs1, m, b);
    }
  }

  lemma SplicedNothing(g: Geometry, fs: Fs, n: int, pos: int)
    requires Shape(g, fs) && 0 <= n < |fs.inode|
    ensures Spliced(g, fs, fs, n, pos, [])
  {
  }

  lemma SplicedChain(g: Geometry, fs: Fs, fs1: Fs, fs2: Fs, n: int, pos: int, a: seq<int>, b: seq<int>)
    requires Spliced(g, fs, fs1, n, pos, a) && Spliced(g, fs1, fs2, n, pos + |a|, b)
    ensures Spliced(g, fs, fs2, n, pos, a + b)
  {
  }

  lemma ZoneData(g: Geometry, fs: Fs, use: seq<Use>, n: int, b: int)
    requires Inv(g, fs, use) && FileBlock(fs, n, b)
    ensures ZoneOf(g, fs, n, b) != 0 ==>
              DataZone(g, ZoneOf(g, fs, n, b)) && Content(g, fs, n, b) == fs.disk[ZoneOf(g, fs, n, b)]
    ensures ZoneOf(g, fs, n, b) == 0 ==> Content(g, fs, n, b) == ZeroBlock()
  {
    DataSlotOk(fs, n, b);
    assert SlotHeld(g, fs, use, DataSlot(n, b));
  }

  lemma ReadExtends(g: Geometry, fs: Fs, n: int, pos: int, out: seq<int>, at: int, b: int, nr: int, chunk: seq<int>)
    requires Shape(g, fs) && 0 <= n < |fs.inode| && 0 <= pos && at == pos + |out| && at + |chunk| <= MAX_BYTES
    requires b == at / BLOCK_SIZE && nr == at % BLOCK_SIZE && b < MAX_BLOCKS && nr + |chunk| <= BLOCK_SIZE
    requires chunk == Content(g, fs, n, b)[nr..nr + |chunk|]
    requires forall k :: 0 <= k < |out| ==> out[k] == ByteAt(g, fs, n, pos + k)
    ensures forall k :: 0 <= k < |out + chunk| ==> (out + chunk)[k] == ByteAt(g, fs, n, pos + k)
  {
    forall k | 0 <= k < |out + chunk| ensures (out + chunk)[k] == ByteAt(g, fs, n, pos + k) {
      if k >= |out| { InChunk(at, b, nr, k - |out|); }
    }
  }

  lemma SpliceNone(g: Geometry, fs: Fs, fs': Fs, n: int, pos: int)
    requires SameContents(g, fs, fs') && 0 <= n < |fs.inode|
    ensures Spliced(g, fs, fs', n, pos, [])
  {
  }

  lemma SpliceSize(g: Geometry, fs: Fs, fs1: Fs, n: int, pos: int, data: seq<int>, size: int)
    requires Spliced(g, fs, fs1, n, pos, data) && Shape(g, SetSize(fs1, n, size))
    requires forall m, b :: FileBlock(fs1, m, b) ==> Content(g, SetSize(fs1, n, size), m, b) == Content(g, fs1, m, b)
    ensures Spliced(g, fs, SetSize(fs1, n, size), n, pos, data)
  {
    forall p | 0 <= p < MAX_BYTES ensures ByteAt(g, SetSize(fs1, n, size), n, p) == ByteAt(g, fs1, n, p) {
      assert FileBlock(fs1, n, p / BLOCK_SIZE);
    }
  }

  lemma InChunk(pos: int, b: int, off: int, k: int)
    requires 0 <= pos && b == pos / BLOCK_SIZE && off == pos % BLOCK_SIZE && 0 <= k < BLOCK_SIZE - off
    ensures (pos + k) / BLOCK_SIZE == b && (pos + k) % BLOCK_SIZE == off + k
  {
  }

  lemma InBlock(pos: int, b: int, off: int, len: int, p: int)
    requires 0 <= pos && b == pos / BLOCK_SIZE && off == pos % BLOCK_SIZE && 0 <= len && off + len <= BLOCK_SIZE
    ensures pos <= p < pos + len <==> p / BLOCK_SIZE == b && off <= p % BLOCK_SIZE < off + len
  {
  }

  /** Writing one block at (n, b) is a splice of the flat file. */
  lemma SpliceBlock(g: Geometry, fs: Fs, fs1: Fs, fs2: Fs, n: int, pos: int, b: int, off: int, data: seq<int>,
    block: Block)
    requires SameContents(g, fs, fs1) && Shape(g, fs2) && |fs2.inode| == |fs1.inode| && FileBlock(fs1, n, b)
    requires fs2.inode == fs1.inode && 0 <= pos && b == pos / BLOCK_SIZE && off == pos % BLOCK_SIZE &&
             off + |data| <= BLOCK_SIZE
    requires block == Content(g, fs1, n, b)[..off] + data + Content(g, fs1, n, b)[off + |data|..]
    requires forall n', b' :: FileBlock(fs1, n', b') ==>
               Content(g, fs2, n', b') == if n' == n && b' == b then block else Content(g, fs1, n', b')
    ensures Spliced(g, fs, fs2, n, pos, data)
  {
    forall p | 0 <= p < MAX_BYTES
      ensures ByteAt(g, fs2, n, p) == if pos <= p < pos + |data| then data[p - pos] else ByteAt(g, fs, n, p)
    {
      InBlock(pos, b, off, |data|, p);
      assert FileBlock(fs, n, p / BLOCK_SIZE);
    }
  }

  function SetSize(fs: Fs, n: int, size: int): Fs
    requires 0 <= n < |fs.inode|
  {
    fs.(inode := fs.inode[n := fs.inode[n].(size := size)])
  }

  lemma SizeKeeps(g: Geometry, fs: Fs, use: seq<Use>, n: int, size: int)
    requires Inv(g, fs, use) && 0 <= n < |fs.inode|
    ensures Inv(g, SetSize(fs, n, size), use)
    ensures forall s :: SlotOk(fs, s) ==> Val(SetSize(fs, n, size), s) == Val(fs, s)
    ensures forall m, b :: FileBlock(fs, m, b) ==> Content(g, SetSize(fs, n, size), m, b) == Content(g, fs, m, b)
  {
    var fs' := SetSize(fs, n, size);
    forall s | SlotOk(fs, s) ensures Val(fs', s) == Val(fs, s) && SlotHeld(g, fs', use, s) {
      assert SlotHeld(g, fs, use, s);
    }
    forall z | DataZone(g, z) ensures ZoneOk(g, fs', use, z) { assert ZoneOk(g, fs, use, z); }
    forall m, b | FileBlock(fs, m, b) ensures Content(g, fs', m, b) == Content(g, fs, m, b) { DataSlotOk(fs, m, b); }
  }
}

/**
  Transparent encryption of files (kernel/sys.c:162-185, 441-463; fs/file_dev.c:70-188).

  file_encr and file_decr transform the blocks of a file from the first on, up to the first hole.
  An encrypted file is stored as its plaintext with that prefix transposed block by block.
 */
module EncryptedFiles {
  import opened Zones
  import opened ZoneSteps
  import opened FileSystems
  import opened Transposition

  /** The inode the read and write paths refuse to touch. */
  const DENIED := 133

  /** The first logical block from b on that is not mapped. */
  ghost function FirstHole(g: Geometry, fs: Fs, n: int, b: int): (h: int)
    requires Shape(g, fs) && 0 <= n < |fs.inode| && 0 <= b <= MAX_BLOCKS
    ensures b <= h <= MAX_BLOCKS
    decreases MAX_BLOCKS - b
  {
    if b == MAX_BLOCKS || ZoneOf(g, fs, n, b) == 0 then b else FirstHole(g, fs, n, b + 1)
  }

  lemma {:induction false} FirstHoleAt(g: Geometry, fs: Fs, n: int, b: int, h: int)
    requires Shape(g, fs) && 0 <= n < |fs.inode| && 0 <= b <= h <= MAX_BLOCKS
    requires forall k :: b <= k < h ==> ZoneOf(g, fs, n, k) != 0
    requires h == MAX_BLOCKS || ZoneOf(g, fs, n, h) == 0
    ensures FirstHole(g, fs, n, b) == h
    decreases h - b
  {
    if b < h { FirstHoleAt(g, fs, n, b + 1, h); }
  }

  lemma {:induction false} FirstHoleSame(g: Geometry, fs: Fs, fs': Fs, n: int, b: int)
    requires Shape(g, fs) && Shape(g, fs') && 0 <= n < |fs.inode| == |fs'.inode| && 0 <= b <= MAX_BLOCKS
    requires forall k :: 0 <= k < MAX_BLOCKS ==> ZoneOf(g, fs', n, k) == ZoneOf(g, fs, n, k)
    ensures FirstHole(g, fs', n, b) == FirstHole(g, fs, n, b)
    decreases MAX_BLOCKS - b
  {
    if b < MAX_BLOCKS && ZoneOf(g, fs, n, b) != 0 { FirstHoleSame(g, fs, fs', n, b + 1); }
  }

  // ------------------------------------------------------------------ there always is a hole

  /** The zones of the first k blocks, all mapped, are k different data zones. */
  lemma {:induction false} MappedZones(g: Geometry, fs: Fs, use: seq<Use>, n: int, k: int) returns (zones: set<int>)
    requires Inv(g, fs, use) && 0 <= n < |fs.inode| && 0 <= k <= MAX_BLOCKS
    requires forall b :: 0 <= b < k ==> ZoneOf(g, fs, n, b) != 0
    ensures |zones| == k
    ensures forall z :: z in zones ==> DataZone(g, z) && exists b :: 0 <= b < k && ZoneOf(g, fs, n, b) == z
    decreases k
  {
    if k == 0 {
      zones := {};
    } else {
      var before := MappedZones(g, fs, use, n, k - 1);
      var z := ZoneOf(g, fs, n, k - 1);
      ZoneData(g, fs, use, n, k - 1);
      if z in before {
        var b :| 0 <= b < k - 1 && ZoneOf(g, fs, n, b) == z;
        DataSlotOk(fs, n, b);
        DataSlotOk(fs, n, k - 1);
        NoCrossLink(g, fs, use, DataSlot(n, b), DataSlot(n, k - 1));
        DataSlotInjective(n, b, n, k - 1);
      }
      zones := before + {z};
    }
  }

  lemma {:induction false} RangeBound(s: set<int>, lo: int, hi: int)
    requires lo <= hi && forall x :: x in s ==> lo <= x < hi
    ensures |s| <= hi - lo
    decreases hi - lo
  {
    if lo < hi {
      RangeBound(s - {lo}, lo + 1, hi);
      assert s <= (s - {lo}) + {lo};
    } else {
      assert s == {};
    }
  }

  /** A file's hole-free prefix is shorter than the block number _bmap panics on: a device has fewer zones. */
  lemma HoleFreeBound(g: Geometry, fs: Fs, use: seq<Use>, n: int, k: int)
    requires Inv(g, fs, use) && 0 <= n < |fs.inode| && 0 <= k <= MAX_BLOCKS
    requires forall b :: 0 <= b < k ==> ZoneOf(g, fs, n, b) != 0
    ensures k < MAX_BLOCKS
  {
    var zones := MappedZones(g, fs, use, n, k);
    RangeBound(zones, g.firstData, g.nzones);
  }

  // ------------------------------------------------------------------ the block loops

  function Coded(key: seq<int>, encrypt: bool, b: Block): (r: Block)
    requires |key| >= 1
    ensures |r| == |b|
  {
    if encrypt then Encrypted(key, b) else Decrypted(key, b)
  }

  /** File n has its first h blocks coded; every slot and every other block is as before. */
  ghost predicate CodedPrefix(g: Geometry, fs: Fs, fs': Fs, n: int, h: int, key: seq<int>, encrypt: bool) {
    && |key| >= 1 && Shape(g, fs) && Shape(g, fs') && 0 <= n < |fs.inode| && 0 <= h <= MAX_BLOCKS
    && fs'.inode == fs.inode && fs'.zmap == fs.zmap
    && (forall m, b :: FileBlock(fs, m, b) ==> ZoneOf(g, fs', m, b) == ZoneOf(g, fs, m, b))
    && (forall m, b :: FileBlock(fs, m, b) ==>
          Content(g, fs', m, b) == if m == n && b < h then Coded(key, encrypt, Content(g, fs, m, b))
            else Content(g, fs, m, b))
  }

  /** All of the hole-free prefix is coded. */
  ghost predicate CodedFile(g: Geometry, fs: Fs, fs': Fs, n: int, key: seq<int>, encrypt: bool) {
    Shape(g, fs) && 0 <= n < |fs.inode| && CodedPrefix(g, fs, fs', n, FirstHole(g, fs, n, 0), key, encrypt)
  }

  ghost predicate MappedBelow(g: Geometry, fs: Fs, n: int, k: int) {
    && Shape(g, fs) && 0 <= n < |fs.inode| && 0 <= k <= MAX_BLOCKS
    && forall b :: 0 <= b < k ==> ZoneOf(g, fs, n, b) != 0
  }

  /** file_encr and file_decr: they differ only in the buffer routine they call. */
  method CodeFile(v: FileSystem, n: int, key: seq<int>, encrypt: bool)
    requires v.Valid() && 0 <= n < v.inode.Length && |key| >= 1
    modifies v`use, v.zmap, v.disk, v.inode
    ensures v.Valid()
    ensures CodedFile(v.g, old(v.F()), v.F(), n, key, encrypt)
  {
    ghost var fs := v.F();
    var counter, more := 0, true;
    while more
      invariant 0 <= counter < MAX_BLOCKS && v.Valid() && MappedBelow(v.g, fs, n, counter)
      invariant CodedPrefix(v.g, fs, v.F(), n, counter, key, encrypt)
      invariant !more ==> ZoneOf(v.g, fs, n, counter) == 0
      decreases MAX_BLOCKS - counter, more
    {
      more := CodeNext(v, fs, n, counter, key, encrypt);
      if more { counter := counter + 1; }
    }
    FirstHoleAt(v.g, fs, n, 0, counter);
  }

  /** One turn of the loop: false at the first hole. */
  method CodeNext(v: FileSystem, ghost fs: Fs, n: int, counter: int, key: seq<int>, encrypt: bool) returns (more: bool)
    requires v.Valid() && 0 <= counter < MAX_BLOCKS && MappedBelow(v.g, fs, n, counter)
    requires CodedPrefix(v.g, fs, v.F(), n, counter, key, encrypt)
    modifies v`use, v.zmap, v.disk, v.inode
    ensures v.Valid()
    ensures !more ==> ZoneOf(v.g, fs, n, counter) == 0 && CodedPrefix(v.g, fs, v.F(), n, counter, key, encrypt)
    ensures more ==> counter + 1 < MAX_BLOCKS && MappedBelow(v.g, fs, n, counter + 1)
    ensures more ==> CodedPrefix(v.g, fs, v.F(), n, counter + 1, key, encrypt)
  {
    var nr := v.BMap(n, counter, false);
    if nr == 0 { return false; }
    ghost var before := v.F();
    HoleFreeBound(v.g, before, v.use, n, counter + 1);
    CodeBlock(v, n, counter, nr, key, encrypt);
    CodedNext(v.g, fs, before, v.F(), n, counter, key, encrypt);
    return true;
  }

  /** One block: buffer_encr or buffer_decr on its buffer. */
  method CodeBlock(v: FileSystem, n: int, b: int, z: int, key: seq<int>, encrypt: bool)
    requires v.Valid() && FileBlock(v.F(), n, b) && z == ZoneOf(v.g, v.F(), n, b) != 0 && |key| >= 1
    modifies v.disk
    ensures v.Valid() && v.F().inode == old(v.F()).inode && v.F().zmap == old(v.F()).zmap
    ensures forall m, k :: FileBlock(v.F(), m, k) ==> ZoneOf(v.g, v.F(), m, k) == ZoneOf(v.g, old(v.F()), m, k)
    ensures forall m, k :: FileBlock(v.F(), m, k) ==>
              Content(v.g, v.F(), m, k)
              == if m == n && k == b then Coded(key, encrypt, Content(v.g, old(v.F()), m, k))
                else Content(v.g, old(v.F()), m, k)
  {
    ghost var fs := v.F();
    ZoneData(v.g, fs, v.use, n, b);
    var data := v.disk[z];
    var buffer := new int[BLOCK_SIZE](i requires 0 <= i < |data| => data[i]);
    assert buffer[..] == data;
    if encrypt { BufferEncr(buffer, key); } else { BufferDecr(buffer, key); }
    WriteKeeps(v.g, fs, v.use, n, b, buffer[..]);
    v.disk[z] := buffer[..];
    assert v.F() == SetBlock(fs, z, buffer[..]);
    forall m, k | FileBlock(fs, m, k) ensures SlotOk(fs, DataSlot(m, k)) { DataSlotOk(fs, m, k); }
  }

  lemma CodedNext(g: Geometry, fs: Fs, fs1: Fs, fs2: Fs, n: int, h: int, key: seq<int>, encrypt: bool)
    requires CodedPrefix(g, fs, fs1, n, h, key, encrypt) && h < MAX_BLOCKS && Shape(g, fs2)
    requires fs2.inode == fs1.inode && fs2.zmap == fs1.zmap
    requires forall m, k :: FileBlock(fs1, m, k) ==> ZoneOf(g, fs2, m, k) == ZoneOf(g, fs1, m, k)
    requires forall m, k :: FileBlock(fs1, m, k) ==>
               Content(g, fs2, m, k) == if m == n && k == h then Coded(key, encrypt, Content(g, fs1, m, k))
                 else Content(g, fs1, m, k)
    ensures CodedPrefix(g, fs, fs2, n, h + 1, key, encrypt)
  {
  }

  // ------------------------------------------------------------------ the stored form

  /** The plaintext of a whole file, block by block. */
  ghost predicate PlainShape(plain: seq<Block>) {
    |plain| == MAX_BLOCKS && forall b :: 0 <= b < MAX_BLOCKS ==> |plain[b]| == BLOCK_SIZE
  }

  ghost function PlainByte(plain: seq<Block>, p: int): int
    requires PlainShape(plain) && 0 <= p < MAX_BYTES
  {
    plain[p / BLOCK_SIZE][p % BLOCK_SIZE]
  }

  /** What is stored is the plaintext with its maximal hole-free prefix transposed block by block. */
  ghost predicate StoredAs(g: Geometry, fs: Fs, n: int, key: seq<int>, plain: seq<Block>) {
    && Shape(g, fs) && 0 <= n < |fs.inode| && |key| >= 1 && PlainShape(plain)
    && forall b :: 0 <= b < MAX_BLOCKS ==>
         Content(g, fs, n, b) == if b < FirstHole(g, fs, n, 0) then Encrypted(key, plain[b]) else plain[b]
  }

  /** Contents of file n as a plaintext. */
  ghost function ContentsOf(g: Geometry, fs: Fs, n: int): seq<Block>
    requires Shape(g, fs) && 0 <= n < |fs.inode|
  {
    seq(MAX_BLOCKS, b requires 0 <= b < MAX_BLOCKS => Content(g, fs, n, b))
  }

  /** Decrypting a stored file exposes its plaintext. */
  lemma DecodedIsPlain(g: Geometry, fs: Fs, fs': Fs, n: int, key: seq<int>, plain: seq<Block>)
    requires StoredAs(g, fs, n, key, plain) && CodedFile(g, fs, fs', n, key, false)
    ensures ContentsOf(g, fs', n) == plain
  {
    forall b | 0 <= b < MAX_BLOCKS ensures Content(g, fs', n, b) == plain[b] {
      assert FileBlock(fs, n, b);
      DecryptsEncrypted(key, plain[b]);
    }
  }

  /** Encrypting a plain file puts it in stored form. */
  lemma EncodedIsStored(g: Geometry, fs: Fs, fs': Fs, n: int, key: seq<int>)
    requires CodedFile(g, fs, fs', n, key, true)
    ensures StoredAs(g, fs', n, key, ContentsOf(g, fs, n))
  {
    FirstHoleSame(g, fs, fs', n, 0);
    assert forall b :: 0 <= b < MAX_BLOCKS ==> FileBlock(fs, n, b);
  }

  /** Decrypting and encrypting again leaves every block of every file as it was. */
  lemma RecodedIsSame(g: Geometry, fs: Fs, fs1: Fs, fs2: Fs, n: int, key: seq<int>)
    requires CodedFile(g, fs, fs1, n, key, false)
    requires CodedFile(g, fs1, fs2, n, key, true)
    ensures SameContents(g, fs, fs2)
  {
    FirstHoleSame(g, fs, fs1, n, 0);
    forall m, b | FileBlock(fs, m, b) ensures Content(g, fs2, m, b) == Content(g, fs, m, b) {
      if m == n { EncryptsDecrypted(key, Content(g, fs, m, b)); }
    }
  }

  // ------------------------------------------------------------------ file_read and file_write

  /** With contents and zones as before, every file is stored as before. */
  lemma StoredKept(g: Geometry, fs: Fs, fs': Fs, n: int, key: seq<int>, plain: seq<Block>)
    requires SameContents(g, fs, fs') && ZonesKept(g, fs, fs', -1) && StoredAs(g, fs, n, key, plain)
    ensures StoredAs(g, fs', n, key, plain)
  {
    assert forall b :: 0 <= b < MAX_BLOCKS ==> FileBlock(fs, n, b);
    FirstHoleSame(g, fs, fs', n, 0);
  }

  lemma RecodedZones(g: Geometry, fs: Fs, fs1: Fs, fs2: Fs, n: int, key: seq<int>)
    requires CodedFile(g, fs, fs1, n, key, false) && CodedFile(g, fs1, fs2, n, key, true)
    ensures ZonesKept(g, fs, fs2, -1)
  {
    forall m, b | FileBlock(fs, m, b) ensures ZoneOf(g, fs2, m, b) == ZoneOf(g, fs, m, b) {
      assert FileBlock(fs1, m, b);
    }
  }

  /** Every block of the hole-free prefix is its own transposition. */
  ghost predicate PrefixFixed(g: Geometry, fs: Fs, n: int, key: seq<int>)
    requires Shape(g, fs) && 0 <= n < |fs.inode| && |key| >= 1
  {
    forall b :: 0 <= b < FirstHole(g, fs, n, 0) ==> Encrypted(key, Content(g, fs, n, b)) == Content(g, fs, n, b)
  }

  /** file_read with its decrypt/encrypt bracket (file_dev.c:70-121).  `marked` is the answer of
      check_for_encr.  A marked file is shown decrypted and stored as before; but with count <= 0 the early
      return comes after file_decr and leaves the file decrypted.  So the call leaves all contents as they
      were if and only if the file is refused, or count > 0, or it is not marked or no key is set, or
      decrypting changes nothing in it. */
  method ReadFile(v: FileSystem, n: int, num: int, keySet: bool, marked: bool, key: seq<int>, pos: int, count: int)
    returns (out: seq<int>, newPos: int)
    requires v.Valid() && 0 <= n < v.inode.Length && |key| >= 1 && 0 <= pos && (count > 0 ==> pos + count <= MAX_BYTES)
    modifies v`use, v.zmap, v.disk, v.inode
    ensures v.Valid() && |out| == (if num == DENIED || count <= 0 then 0 else count) && newPos == pos + |out|
    ensures SameContents(v.g, old(v.F()), v.F()) <==>
              num == DENIED || count > 0 || !keySet || !marked || PrefixFixed(v.g, old(v.F()), n, key)
    ensures num == DENIED || count > 0 || !keySet || !marked ==>
              forall m, k, plain :: StoredAs(v.g, old(v.F()), m, k, plain) ==> StoredAs(v.g, v.F(), m, k, plain)
    ensures num != DENIED && count > 0 && keySet && marked ==>
              forall plain :: StoredAs(v.g, old(v.F()), n, key, plain) ==> Shown(plain, pos, out)
    ensures num != DENIED && count > 0 && !(keySet && marked) ==>
              forall k :: 0 <= k < count ==> out[k] == ByteAt(v.g, old(v.F()), n, pos + k)
    ensures num != DENIED && count <= 0 && keySet && marked ==> CodedFile(v.g, old(v.F()), v.F(), n, key, false)
    ensures num == DENIED || !(keySet && marked) ==> v.F() == old(v.F())
  {
    if num == DENIED { return [], pos; }
    if keySet && marked {
      out, newPos := ReadMarked(v, n, key, pos, count);
    } else {
      if count <= 0 { return [], pos; }
      out, newPos := v.FileRead(n, pos, count);
    }
  }

  /** The bytes read are those of the plaintext. */
  ghost predicate Shown(plain: seq<Block>, pos: int, out: seq<int>) {
    && PlainShape(plain) && 0 <= pos && pos + |out| <= MAX_BYTES
    && forall k :: 0 <= k < |out| ==> out[k] == PlainByte(plain, pos + k)
  }

  method ReadMarked(v: FileSystem, n: int, key: seq<int>, pos: int, count: int) returns (out: seq<int>, newPos: int)
    requires v.Valid() && 0 <= n < v.inode.Length && |key| >= 1 && 0 <= pos && (count > 0 ==> pos + count <= MAX_BYTES)
    modifies v`use, v.zmap, v.disk, v.inode
    ensures v.Valid() && |out| == (if count <= 0 then 0 else count) && newPos == pos + |out|
    ensures SameContents(v.g, old(v.F()), v.F()) <==> count > 0 || PrefixFixed(v.g, old(v.F()), n, key)
    ensures count > 0 ==>
              forall m, k, plain :: StoredAs(v.g, old(v.F()), m, k, plain) ==> StoredAs(v.g, v.F(), m, k, plain)
    ensures count > 0 ==> forall plain :: StoredAs(v.g, old(v.F()), n, key, plain) ==> Shown(plain, pos, out)
    ensures count <= 0 ==> CodedFile(v.g, old(v.F()), v.F(), n, key, false)
  {
    ghost var fs := v.F();
    CodeFile(v, n, key, false);
    ghost var fs1 := v.F();
    if count <= 0 {
      EarlyReturnHarmless(v.g, fs, fs1, n, key);
      return [], pos;
    }
    out, newPos := v.FileRead(n, pos, count);
    forall plain | StoredAs(v.g, fs, n, key, plain) ensures Shown(plain, pos, out) {
      DecodedIsPlain(v.g, fs, fs1, n, key, plain);
      PlainBytes(v.g, fs1, n, plain, pos, out);
    }
    CodeFile(v, n, key, true);
    RecodedIsSame(v.g, fs, fs1, v.F(), n, key);
    RecodedZones(v.g, fs, fs1, v.F(), n, key);
    forall m, k, plain | StoredAs(v.g, fs, m, k, plain) ensures StoredAs(v.g, v.F(), m, k, plain) {
      StoredKept(v.g, fs, v.F(), m, k, plain);
    }
  }

  lemma PlainBytes(g: Geometry, fs: Fs, n: int, plain: seq<Block>, pos: int, out: seq<int>)
    requires Shape(g, fs) && 0 <= n < |fs.inode| && PlainShape(plain) && ContentsOf(g, fs, n) == plain
    requires 0 <= pos && pos + |out| <= MAX_BYTES && forall k :: 0 <= k < |out| ==> out[k] == ByteAt(g, fs, n, pos + k)
    ensures forall k :: 0 <= k < |out| ==> out[k] == PlainByte(plain, pos + k)
  {
  }

  /** The plaintext of a file with `data` spliced in at pos. */
  ghost predicate PlainSpliced(plain: seq<Block>, plain': seq<Block>, pos: int, data: seq<int>)
    requires PlainShape(plain) && PlainShape(plain')
  {
    forall p :: 0 <= p < MAX_BYTES ==>
      PlainByte(plain', p) == if pos <= p < pos + |data| then data[p - pos] else PlainByte(plain, p)
  }

  /** No other file has changed. */
  ghost predicate OthersSame(g: Geometry, fs: Fs, fs': Fs, n: int)
    requires Shape(g, fs) && Shape(g, fs')
  {
    && |fs'.inode| == |fs.inode|
    && forall m, b :: FileBlock(fs, m, b) && m != n ==> Content(g, fs', m, b) == Content(g, fs, m, b)
  }

  /** file_write with its decrypt/encrypt bracket on a marked file (file_dev.c:123-188): the plaintext
      gets the completed bytes spliced in, and the stored form is re-established, also when the write
      appended blocks or filled the first hole. */
  method WriteMarkedFile(v: FileSystem, n: int, key: seq<int>, append: bool, fpos: int, buf: seq<int>,
    ghost plain: seq<Block>)
    returns (i: int, newPos: int, ghost plain': seq<Block>)
    requires v.Valid() && 0 <= n < v.inode.Length && |key| >= 1 && 0 <= fpos && 0 <= v.inode[n].size
    requires (if append then v.inode[n].size else fpos) + |buf| <= MAX_BYTES
    requires StoredAs(v.g, v.F(), n, key, plain)
    modifies v`use, v.zmap, v.disk, v.inode
    ensures v.Valid() && 0 <= i <= |buf| && (i < |buf| ==> NoSpace(v.g, v.F()))
    ensures StoredAs(v.g, v.F(), n, key, plain')
    ensures var pos := if append then old(v.inode[n].size) else fpos;
            && PlainSpliced(plain, plain', pos, buf[..i])
            && v.F().inode[n].size == (if i > 0 && pos + i > old(v.inode[n].size) then pos + i
               else old(v.inode[n].size))
    ensures OthersSame(v.g, old(v.F()), v.F(), n) && ZonesKept(v.g, old(v.F()), v.F(), n)
    ensures newPos == if append then fpos else fpos + i
  {
    ghost var fs := v.F();
    CodeFile(v, n, key, false);
    ghost var fs1 := v.F();
    var panicked;
    i, newPos, panicked := v.FileWrite(n, append, fpos, buf);
    ghost var fs2 := v.F();
    plain' := ContentsOf(v.g, fs2, n);
    CodeFile(v, n, key, true);
    ghost var pos := if append then old(v.inode[n].size) else fpos;
    Rewritten(v.g, fs, fs1, fs2, v.F(), n, key, pos, buf[..i], plain);
    RewrittenZones(v.g, fs, fs1, fs2, v.F(), n, key);
  }

  lemma RewrittenZones(g: Geometry, fs: Fs, fs1: Fs, fs2: Fs, fs3: Fs, n: int, key: seq<int>)
    requires CodedFile(g, fs, fs1, n, key, false) && ZonesKept(g, fs1, fs2, n) && CodedFile(g, fs2, fs3, n, key, true)
    ensures ZonesKept(g, fs, fs3, n)
  {
    forall m, b | FileBlock(fs, m, b) && m != n ensures ZoneOf(g, fs3, m, b) == ZoneOf(g, fs, m, b) {
      assert FileBlock(fs1, m, b) && FileBlock(fs2, m, b);
    }
  }

  /** Decrypt, splice, encrypt: the stored form again, of the spliced plaintext. */
  lemma Rewritten(g: Geometry, fs: Fs, fs1: Fs, fs2: Fs, fs3: Fs, n: int, key: seq<int>, pos: int, data: seq<int>,
    plain: seq<Block>)
    requires StoredAs(g, fs, n, key, plain) && CodedFile(g, fs, fs1, n, key, false)
    requires Spliced(g, fs1, fs2, n, pos, data) && CodedFile(g, fs2, fs3, n, key, true)
    ensures StoredAs(g, fs3, n, key, ContentsOf(g, fs2, n))
    ensures PlainSpliced(plain, ContentsOf(g, fs2, n), pos, data) && OthersSame(g, fs, fs3, n)
    ensures NoSpace(g, fs2) ==> NoSpace(g, fs3)
    ensures fs3.inode[n].size == fs2.inode[n].size
  {
    DecodedIsPlain(g, fs, fs1, n, key, plain);
    EncodedIsStored(g, fs2, fs3, n, key);
    SplicedPlain(g, fs1, fs2, n, pos, data, plain, ContentsOf(g, fs2, n));
    forall m, b | FileBlock(fs, m, b) && m != n ensures Content(g, fs3, m, b) == Content(g, fs, m, b) {
      assert FileBlock(fs1, m, b) && FileBlock(fs2, m, b);
    }
  }

  lemma SplicedPlain(g: Geometry, fs1: Fs, fs2: Fs, n: int, pos: int, data: seq<int>, plain: seq<Block>,
    plain': seq<Block>)
    requires Spliced(g, fs1, fs2, n, pos, data) && PlainShape(plain)
    requires plain == ContentsOf(g, fs1, n) && plain' == ContentsOf(g, fs2, n)
    ensures PlainShape(plain')
    ensures forall p :: 0 <= p < MAX_BYTES ==>
              PlainByte(plain', p) == if pos <= p < pos + |data| then data[p - pos] else PlainByte(plain, p)
  {
    forall p | 0 <= p < MAX_BYTES
      ensures PlainByte(plain', p) == if pos <= p < pos + |data| then data[p - pos] else PlainByte(plain, p)
    {
      assert ByteAt(g, fs2, n, p) == if pos <= p < pos + |data| then data[p - pos] else ByteAt(g, fs1, n, p);
    }
  }

  // ------------------------------------------------------------------ the early return

  /** Under key "ba" the first two columns change places. */
  lemma SwappingKey(buf: seq<int>)
    requires |buf| >= 2
    ensures Encrypted([98, 97], buf)[0] == buf[1]
  {
    var key := [98, 97];
    var a := Cipher.Keyed(Cipher.Lower(key), Cipher.Identity(2));
    assert Cipher.Lower(key) == [98, 97] && Cipher.Identity(2) == [0, 1];
    assert Cipher.Scan(a, 97, -1, 0, 1) == (a, -1);
    assert Cipher.Swapped(a, 0, 1) == Cipher.Keyed([97, 98], [1, 0]);
    assert Cipher.Partitioned(a, 0, 1) == (Cipher.Keyed([97, 98], [1, 0]), 0);
    assert Cipher.ColumnOrder(key) == [1, 0];
    var order := [1, 0];
    WalkIsPermutation(key, |buf|);
    assert Walk(order, 1, |buf|) == Walk(order, 0, |buf|) + Column(1, 2, |buf|);
    assert Column(1, 2, |buf|)[0] == 1;
    WalkGrows(order, 1, 2, |buf|);
    assert FullWalk(key, |buf|)[0] == 1;
  }

  /** A device with one zone, held by a file of one block that begins with 1, 2. */
  function SmallBlock(): (b: Block)
    ensures |b| == BLOCK_SIZE && b[0] == 1 && b[1] == 2
  {
    seq(BLOCK_SIZE, i => i + 1)
  }

  function SmallDevice(): Fs {
    Fs(seq(MAP_BITS, k => k <= 1), [ZeroBlock(), SmallBlock()], [Inode([1, 0, 0, 0, 0, 0, 0, 0, 0], BLOCK_SIZE)])
  }

  lemma SmallDeviceOk(fs: Fs, use: seq<Use>)
    requires fs == SmallDevice() && use == [Unused, Holds(Zone(0, 0))]
    ensures Inv(Geometry(1, 2), fs, use) && Settled(Geometry(1, 2), use)
    ensures ZoneOf(Geometry(1, 2), fs, 0, 0) == 1 && Content(Geometry(1, 2), fs, 0, 0) == SmallBlock()
  {
    var g := Geometry(1, 2);
    assert Shape(g, fs);
    forall s | SlotOk(fs, s) ensures SlotHeld(g, fs, use, s) { }
    forall z | DataZone(g, z) ensures ZoneOk(g, fs, use, z) { }
  }

  /** So a read of count <= 0 can change what is stored: on this device, under the key "ba", it does. */
  lemma EarlyReturnChangesFile(fs: Fs, use: seq<Use>)
    requires fs == SmallDevice() && use == [Unused, Holds(Zone(0, 0))]
    ensures Inv(Geometry(1, 2), fs, use) && Settled(Geometry(1, 2), use)
    ensures !PrefixFixed(Geometry(1, 2), fs, 0, [98, 97])
  {
    var g := Geometry(1, 2);
    SmallDeviceOk(fs, use);
    SwappingKey(SmallBlock());
    var h := FirstHole(g, fs, 0, 1);
    assert FirstHole(g, fs, 0, 0) == h >= 1;
  }

  /** A read of count <= 0 on a marked file leaves what is stored unchanged exactly when every block of
      the hole-free prefix is its own transposition. */
  lemma EarlyReturnHarmless(g: Geometry, fs: Fs, fs': Fs, n: int, key: seq<int>)
    requires CodedFile(g, fs, fs', n, key, false)
    ensures SameContents(g, fs, fs') <==> PrefixFixed(g, fs, n, key)
  {
    forall b | 0 <= b < FirstHole(g, fs, n, 0)
      ensures Content(g, fs', n, b) == Content(g, fs, n, b) <==>
              Encrypted(key, Content(g, fs, n, b)) == Content(g, fs, n, b)
    {
      assert FileBlock(fs, n, b);
      DecryptsEncrypted(key, Content(g, fs, n, b));
      EncryptsDecrypted(key, Content(g, fs, n, b));
    }
  }
}

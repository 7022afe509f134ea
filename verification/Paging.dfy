/**
  Page tables at word level (mm/memory.c).

  Physical memory is 2048 frames of 1024 words; the page directory is a separate 1024-word
  array.  A table word packs a frame number, a present bit and a write bit.  The invariant
  `Inv` says what every reachable state keeps; the lemmas below show that each single store
  the memory manager makes keeps it, and which task views the store changes.
 */
module Paging {
  import opened Common

  const LOW_MEM := 0x200000
  const HIGH_MEMORY := 0x800000
  const LOW_FRAMES := 512
  const FRAMES := 2048
  const ENTRIES := 1024
  /** Directory entries 0..15 belong to the kernel and task 0. */
  const FIRST_USER_DIR := 16
  /** Entries copied when task 0 forks. */
  const KERNEL_COPY := 0xA0

  type Page = seq<int>

  function ZeroPage(): (p: Page)
    ensures |p| == ENTRIES && forall i :: 0 <= i < ENTRIES ==> p[i] == 0
  {
    seq(ENTRIES, _ => 0)
  }

  /** Machine memory: reference counts of the frames above LOW_MEM, directory, frame contents. */
  datatype Mem = Mem(count: seq<int>, dir: seq<int>, phys: seq<Page>)

  /** A place in a user page table: directory index and table index. */
  datatype Slot = Slot(d: int, i: int)

  // ------------------------------------------------------------------ words

  predicate Present(w: int) { w % 2 == 1 }

  predicate Writable(w: int) { (w / 2) % 2 == 1 }

  function Frame(w: int): int { w / 4096 }

  function Word(frame: int, flags: int): int { 4096 * frame + flags }

  /** `w & ~2` */
  function ClearWrite(w: int): int { if Writable(w) then w - 2 else w }

  /** `w | 2` */
  function SetWrite(w: int): int { if Writable(w) then w else w + 2 }

  predicate UserDir(d: int) { FIRST_USER_DIR <= d < ENTRIES }

  predicate UserSlot(d: int, i: int) { UserDir(d) && 0 <= i < ENTRIES }

  predicate High(f: int) { LOW_FRAMES <= f < FRAMES }

  // ------------------------------------------------------------------ reading memory

  predicate Shape(m: Mem) {
    && |m.count| == FRAMES - LOW_FRAMES
    && |m.dir| == ENTRIES
    && |m.phys| == FRAMES
    && (forall f :: 0 <= f < FRAMES ==> |m.phys[f]| == ENTRIES)
  }

  function Count(m: Mem, f: int): int
    requires Shape(m) && High(f)
  {
    m.count[f - LOW_FRAMES]
  }

  ghost predicate DirRange(m: Mem) {
    && |m.dir| == ENTRIES
    && forall d :: UserDir(d) ==> m.dir[d] == 0 || (Present(m.dir[d]) && High(Frame(m.dir[d])))
  }

  predicate Boot(m: Mem) {
    && |m.dir| == ENTRIES && |m.phys| == FRAMES && |m.phys[1]| == ENTRIES
    && m.dir[0] == Word(1, 7)
    && forall i :: 0 <= i < KERNEL_COPY ==> m.phys[1][i] == Word(i, 7)
  }

  /** The table word for (d, i): 0 when the directory entry has no table. */
  ghost function Pte(m: Mem, d: int, i: int): int
    requires Shape(m) && DirRange(m) && UserSlot(d, i)
  {
    if Present(m.dir[d]) then m.phys[Frame(m.dir[d])][i] else 0
  }

  predicate PteOk(w: int) {
    w == 0 || (Present(w) && 0 <= Frame(w) < FRAMES && (Writable(w) ==> High(Frame(w))))
  }

  predicate Names(w: int, f: int) { Present(w) && Frame(w) == f }

  ghost function Mappers(m: Mem, f: int): set<Slot>
    requires Shape(m) && DirRange(m)
  {
    set d, i | FIRST_USER_DIR <= d < ENTRIES && 0 <= i < ENTRIES && Names(Pte(m, d, i), f) :: Slot(d, i)
  }

  ghost function TableUsers(m: Mem, f: int): set<int>
    requires |m.dir| == ENTRIES
  {
    set d | FIRST_USER_DIR <= d < ENTRIES && Names(m.dir[d], f)
  }

  /** What a task sees in page (d, i): its frame, or zeros when nothing is mapped. */
  ghost function View(m: Mem, d: int, i: int): Page
    requires Shape(m) && DirRange(m) && UserSlot(d, i)
  {
    if Present(Pte(m, d, i)) && 0 <= Frame(Pte(m, d, i)) < FRAMES then m.phys[Frame(Pte(m, d, i))] else ZeroPage()
  }

  // ------------------------------------------------------------------ the invariant

  /** What a counted frame is used for. */
  datatype Role =
    | Free                        // on the free list: count 0
    | Held                        // held directly by the kernel
    | Table(dir: int)             // the page table of one directory entry
    | Data(offset: int, i: int)   // a user page, at one offset of the tasks that map it

  ghost predicate DirRoles(m: Mem, role: seq<Role>)
    requires Shape(m) && DirRange(m) && |role| == FRAMES
  {
    forall d :: UserDir(d) && Present(m.dir[d]) ==> role[Frame(m.dir[d])] == Table(d)
  }

  /** Each table word is well formed, agrees with the role of its frame, and is writable only alone. */
  ghost predicate SlotOk(m: Mem, role: seq<Role>, d: int, i: int)
    requires Shape(m) && DirRange(m) && |role| == FRAMES && UserSlot(d, i)
  {
    var w := Pte(m, d, i);
    && PteOk(w)
    && (Present(w) && High(Frame(w)) ==>
          role[Frame(w)] == Data(d % 16, i) && (Writable(w) ==> Count(m, Frame(w)) == 1))
  }

  ghost predicate SlotsOk(m: Mem, role: seq<Role>)
    requires Shape(m) && DirRange(m) && |role| == FRAMES
  {
    forall d, i :: UserSlot(d, i) ==> SlotOk(m, role, d, i)
  }

  /** The count of a frame is what its role says. */
  ghost predicate FrameOk(m: Mem, role: seq<Role>, f: int)
    requires Shape(m) && DirRange(m) && |role| == FRAMES && High(f)
  {
    match role[f]
    case Free => Count(m, f) == 0
    case Held => Count(m, f) == 1
    case Table(d) => Count(m, f) == 1 && UserDir(d) && Names(m.dir[d], f)
    case Data(_, _) => Count(m, f) == |Mappers(m, f)| && Count(m, f) >= 1
  }

  ghost predicate FramesOk(m: Mem, role: seq<Role>)
    requires Shape(m) && DirRange(m) && |role| == FRAMES
  {
    forall f :: High(f) ==> FrameOk(m, role, f)
  }

  ghost predicate Inv(m: Mem, role: seq<Role>) {
    && Shape(m) && DirRange(m) && Boot(m) && |role| == FRAMES
    && DirRoles(m, role) && SlotsOk(m, role) && FramesOk(m, role)
  }

  // ------------------------------------------------------------------ comparing states

  /** All views except that of (d0, i0). */
  ghost predicate SameViewsBut(m: Mem, m': Mem, d0: int, i0: int) {
    && Shape(m) && DirRange(m) && Shape(m') && DirRange(m')
    && forall d, i :: UserSlot(d, i) && !(d == d0 && i == i0) ==> View(m', d, i) == View(m, d, i)
  }

  ghost predicate SameViews(m: Mem, m': Mem) {
    && Shape(m) && DirRange(m) && Shape(m') && DirRange(m')
    && forall d, i :: UserSlot(d, i) ==> View(m', d, i) == View(m, d, i)
  }

  predicate SameLow(m: Mem, m': Mem) {
    && |m.phys| == FRAMES && |m'.phys| == FRAMES
    && forall f :: 0 <= f < LOW_FRAMES ==> m'.phys[f] == m.phys[f]
  }

  // ------------------------------------------------------------------ single stores

  function SetCount(m: Mem, f: int, c: int): Mem
    requires Shape(m) && High(f)
  {
    m.(count := m.count[f - LOW_FRAMES := c])
  }

  function SetDir(m: Mem, d: int, w: int): Mem
    requires Shape(m) && 0 <= d < ENTRIES
  {
    m.(dir := m.dir[d := w])
  }

  function SetPage(m: Mem, f: int, p: Page): Mem
    requires Shape(m) && 0 <= f < FRAMES
  {
    m.(phys := m.phys[f := p])
  }

  ghost function SetPte(m: Mem, d: int, i: int, w: int): Mem
    requires Shape(m) && DirRange(m) && UserSlot(d, i) && Present(m.dir[d])
  {
    SetPage(m, Frame(m.dir[d]), m.phys[Frame(m.dir[d])][i := w])
  }

  // ------------------------------------------------------------------ word lemmas

  lemma FrameOf(x: int, q: int, r: int)
    requires x == 4096 * q + r && 0 <= r < 4096
    ensures Frame(x) == q
  {
  }

  lemma LowBits(x: int, q: int, r: int)
    requires x == 4 * q + r && 0 <= r < 4
    ensures Present(x) <==> r == 1 || r == 3
    ensures Writable(x) <==> r >= 2
  {
    assert x / 2 == 2 * q + r / 2;
  }

  /** Every word the kernel stores is `page | 7`. */
  lemma WordDecodes(f: int)
    requires 0 <= f
    ensures Present(Word(f, 7)) && Writable(Word(f, 7)) && Frame(Word(f, 7)) == f
  {
    assert Word(f, 7) / 2 == 2048 * f + 3;
  }

  /** A word as frame number, middle bits and the two lowest bits. */
  lemma Parts(w: int) returns (f: int, q: int, b: int)
    requires 0 <= w
    ensures w == 4096 * f + 4 * q + b && 0 <= q < 1024 && 0 <= b < 4
    ensures Frame(w) == f && (Present(w) <==> b == 1 || b == 3) && (Writable(w) <==> b >= 2)
  {
    f, q, b := w / 4096, w % 4096 / 4, w % 4096 % 4;
    FrameOf(w, f, 4 * q + b);
    LowBits(w, 1024 * f + q, b);
  }

  lemma ClearWriteDecodes(w: int)
    requires 0 <= w && Present(w)
    ensures Present(ClearWrite(w)) && Frame(ClearWrite(w)) == Frame(w) && !Writable(ClearWrite(w))
  {
    var f, q, b := Parts(w);
    if Writable(w) {
      LowBits(w - 2, 1024 * f + q, 1);
      FrameOf(w - 2, f, 4 * q + 1);
    }
  }

  lemma SetWriteDecodes(w: int)
    requires 0 <= w && Present(w)
    ensures Present(SetWrite(w)) && Frame(SetWrite(w)) == Frame(w) && Writable(SetWrite(w))
  {
    var f, q, b := Parts(w);
    if !Writable(w) {
      LowBits(w + 2, 1024 * f + q, 3);
      FrameOf(w + 2, f, 4 * q + 3);
    }
  }

  /** `this_page > LOW_MEM` (memory.c:167) is the same test as "the frame is counted". */
  lemma AboveLowMem(w: int)
    requires 0 <= w && Present(w)
    ensures w > LOW_MEM <==> Frame(w) >= LOW_FRAMES
  {
  }

  // ------------------------------------------------------------------ what counts mean

  /** Changing one table word moves the mapper count of each frame by what the two words name. */
  lemma MappersChange(m: Mem, m': Mem, d: int, i: int, f: int)
    requires Shape(m) && DirRange(m) && Shape(m') && DirRange(m') && UserSlot(d, i)
    requires forall d', i' :: UserSlot(d', i') && !(d' == d && i' == i) ==> Pte(m', d', i') == Pte(m, d', i')
    ensures |Mappers(m', f)| == |Mappers(m, f)| - One(Names(Pte(m, d, i), f)) + One(Names(Pte(m', d, i), f))
  {
    var x := Slot(d, i);
    forall y: Slot | y != x ensures y in Mappers(m', f) <==> y in Mappers(m, f) {
      if UserSlot(y.d, y.i) { assert Pte(m', y.d, y.i) == Pte(m, y.d, y.i); }
    }
    assert Mappers(m', f) - {x} == Mappers(m, f) - {x};
    WithWithout(Mappers(m, f), x);
    WithWithout(Mappers(m', f), x);
  }

  lemma WithWithout<T>(s: set<T>, x: T)
    ensures |s| == |s - {x}| + One(x in s)
  {
    if x in s { assert s == (s - {x}) + {x}; } else { assert s == s - {x}; }
  }

  lemma MappersSame(m: Mem, m': Mem, f: int)
    requires Shape(m) && DirRange(m) && Shape(m') && DirRange(m')
    requires forall d, i :: UserSlot(d, i) ==> Pte(m', d, i) == Pte(m, d, i)
    ensures Mappers(m', f) == Mappers(m, f)
  {
  }

  /** Only a frame with role Data is named by page-table entries. */
  lemma RoleOfNamed(m: Mem, role: seq<Role>, f: int)
    requires Inv(m, role) && High(f)
    ensures !role[f].Data? ==> Mappers(m, f) == {}
    ensures role[f].Table? ==> TableUsers(m, f) == {role[f].dir}
    ensures !role[f].Table? ==> TableUsers(m, f) == {}
  {
    forall x | x in Mappers(m, f) ensures role[f].Data? {
      assert SlotOk(m, role, x.d, x.i);
    }
    assert FrameOk(m, role, f);
  }

  /** The count of every frame is the number of page-table entries and directory entries naming it,
      plus one when the kernel holds the page itself. */
  lemma CountIsReferences(m: Mem, role: seq<Role>, f: int)
    requires Inv(m, role) && High(f)
    ensures Count(m, f) == |Mappers(m, f)| + |TableUsers(m, f)| + One(role[f].Held?)
  {
    assert FrameOk(m, role, f);
    RoleOfNamed(m, role, f);
  }

  /** A frame named by two or more entries is read-only in all of them. */
  lemma SharedIsReadOnly(m: Mem, role: seq<Role>, x: Slot, y: Slot, f: int)
    requires Inv(m, role) && x in Mappers(m, f) && y in Mappers(m, f) && x != y
    ensures !Writable(Pte(m, x.d, x.i)) && !Writable(Pte(m, y.d, y.i))
  {
    assert SlotOk(m, role, x.d, x.i) && SlotOk(m, role, y.d, y.i);
    if Writable(Pte(m, x.d, x.i)) {
      SoleMapper(m, role, x.d, x.i, y.d, y.i);
    } else if Writable(Pte(m, y.d, y.i)) {
      SoleMapper(m, role, y.d, y.i, x.d, x.i);
    }
  }

  /** A mapped counted frame has a positive count, and count 1 means a sole mapper. */
  lemma SoleMapper(m: Mem, role: seq<Role>, d: int, i: int, d': int, i': int)
    requires Inv(m, role) && UserSlot(d, i) && UserSlot(d', i')
    requires Present(Pte(m, d, i)) && High(Frame(Pte(m, d, i))) && Count(m, Frame(Pte(m, d, i))) == 1
    requires Names(Pte(m, d', i'), Frame(Pte(m, d, i)))
    ensures d' == d && i' == i
  {
    var f := Frame(Pte(m, d, i));
    assert SlotOk(m, role, d, i) && FrameOk(m, role, f);
    assert Slot(d, i) in Mappers(m, f) && Slot(d', i') in Mappers(m, f);
    WithWithout(Mappers(m, f), Slot(d, i));
    assert Slot(d', i') !in Mappers(m, f) - {Slot(d, i)};
  }

  /** A frame has at most one mapper per task, so the unsigned short count never wraps. */
  lemma CountFits(m: Mem, role: seq<Role>, f: int)
    requires Inv(m, role) && High(f)
    ensures 0 <= Count(m, f) <= 64
  {
    assert FrameOk(m, role, f);
    if role[f].Data? {
      forall x | x in Mappers(m, f) ensures x.d % 16 == role[f].offset && x.i == role[f].i {
        assert SlotOk(m, role, x.d, x.i);
      }
      OffsetBound(Mappers(m, f), role[f].offset, role[f].i, 64);
    }
  }

  /** Slots at one offset, in tasks below n. */
  lemma {:induction false} OffsetBound(part: set<Slot>, k: int, i: int, n: nat)
    requires forall x :: x in part ==> x.d % 16 == k && x.i == i && 0 <= x.d < 16 * n
    ensures |part| <= n
    decreases n
  {
    if n == 0 {
      assert part == {};
    } else {
      var t := Slot(16 * (n - 1) + k, i);
      OffsetBound(part - {t}, k, i, n - 1);
      WithWithout(part, t);
    }
  }
}

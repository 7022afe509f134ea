/**
  The memory manager of mm/memory.c, updating mem_map, pg_dir and physical memory in place.
  Every method is stated by its effect on the value `S()` of the machine memory and keeps
  the invariant `Inv`. A panic of free_page is a result; the panics on a misaligned or occupied range are
  preconditions, which the calls in fork.c, exit.c and exec.c meet.
 */
module PageManagers {
  import opened Paging
  import opened PagingSteps

  const DIR_SPAN := 0x400000

  function PagesToDirs(size: int): int { (size + 0x3fffff) / DIR_SPAN }

  /** What fork copies from page i under directory entry d: task 0 lends its first 160 low pages. */
  ghost function Source(m: Mem, d: int, i: int): Page
    requires Shape(m) && DirRange(m) && 0 <= i < ENTRIES && (d == 0 || UserDir(d))
  {
    if d == 0 then (if i < KERNEL_COPY then m.phys[i] else ZeroPage()) else View(m, d, i)
  }

  /** Outside directory entries lo..hi nothing changed but write permissions. */
  ghost predicate OnlyRange(m: Mem, m': Mem, lo: int, hi: int) {
    && Shape(m) && DirRange(m) && Shape(m') && DirRange(m')
    && (forall d :: UserDir(d) && !(lo <= d < hi) ==> m'.dir[d] == m.dir[d])
    && (forall d, i :: UserSlot(d, i) && !(lo <= d < hi) ==>
          View(m', d, i) == View(m, d, i) && ClearWrite(Pte(m', d, i)) == ClearWrite(Pte(m, d, i)))
  }

  /** Directory entries b..b+n show what a..a+n showed before. */
  ghost predicate Copied(m: Mem, m': Mem, a: int, b: int, n: int) {
    && Shape(m) && DirRange(m) && Shape(m') && DirRange(m') && FIRST_USER_DIR <= b && b + n <= ENTRIES
    && ((a == 0 && n <= 1) || (FIRST_USER_DIR <= a && a + n <= ENTRIES))
    && forall d, i :: b <= d < b + n && 0 <= i < ENTRIES ==> View(m', d, i) == Source(m, d - b + a, i)
  }

  ghost predicate SameHeld(role: seq<Role>, role': seq<Role>) {
    && |role| == |role'| == FRAMES
    && forall f :: High(f) ==> (role'[f] == Held <==> role[f] == Held)
  }

  /** No page the kernel held was given away, page `but` excepted. */
  ghost predicate StillHeld(role: seq<Role>, role': seq<Role>, but: int) {
    && |role| == |role'| == FRAMES
    && forall f :: High(f) && f != but && role[f] == Held ==> role'[f] == Held
  }

  ghost predicate SamePtes(m: Mem, m': Mem) {
    && Shape(m) && DirRange(m) && Shape(m') && DirRange(m')
    && forall d, i :: UserSlot(d, i) ==> Pte(m', d, i) == Pte(m, d, i)
  }

  ghost predicate NoneFree(m: Mem)
    requires Shape(m)
  {
    forall f :: High(f) ==> Count(m, f) != 0
  }

  /** At least two frames are free: enough for any single fault (a page and a table). */
  ghost predicate TwoFree(m: Mem)
    requires Shape(m)
  {
    exists f, g :: High(f) && High(g) && f != g && Count(m, f) == 0 && Count(m, g) == 0
  }

  lemma AboveClear(word: int)
    requires 0 <= word && Present(word)
    ensures ClearWrite(word) > LOW_MEM <==> Frame(word) >= LOW_FRAMES
  {
    ClearWriteDecodes(word);
    AboveLowMem(ClearWrite(word));
  }

  /** How many of the first k entries of mem_map are 0. */
  ghost function Zeros(count: seq<int>, k: nat): nat
    requires k <= |count|
  {
    if k == 0 then 0 else Zeros(count, k - 1) + (if count[k - 1] == 0 then 1 else 0)
  }

  ghost function FreeFrames(m: Mem): nat { Zeros(m.count, |m.count|) }

  /** Frame k + LOW_FRAMES of m' is in use, the other frames are as free as in m. */
  lemma {:induction false} ZerosLess(a: seq<int>, b: seq<int>, j: int, k: nat)
    requires |a| == |b| && 0 <= j < |a| && k <= |a| && a[j] == 0 && b[j] != 0
    requires forall i :: 0 <= i < |a| && i != j ==> (b[i] == 0 <==> a[i] == 0)
    ensures Zeros(b, k) == Zeros(a, k) - (if j < k then 1 else 0)
  {
    if k > 0 { ZerosLess(a, b, j, k - 1); }
  }

  lemma {:induction false} ZerosSame(a: seq<int>, b: seq<int>, k: nat)
    requires |a| == |b| && k <= |a| && forall i :: 0 <= i < |a| ==> (b[i] == 0 <==> a[i] == 0)
    ensures Zeros(b, k) == Zeros(a, k)
  {
    if k > 0 { ZerosSame(a, b, k - 1); }
  }

  lemma {:induction false} ZerosNone(a: seq<int>, k: nat)
    requires k <= |a| && forall i :: 0 <= i < |a| ==> a[i] != 0
    ensures Zeros(a, k) == 0
  {
    if k > 0 { ZerosNone(a, k - 1); }
  }

  /** Free frames are those with role Free, so roles tell how many there are. */
  lemma FreeByRole(m: Mem, role: seq<Role>, f: int)
    requires Inv(m, role) && High(f)
    ensures Count(m, f) == 0 <==> role[f] == Free
  {
    assert FrameOk(m, role, f);
  }

  /** One frame has left the free ones. */
  lemma OneTaken(m: Mem, role: seq<Role>, m': Mem, role': seq<Role>, f: int)
    requires Inv(m, role) && Inv(m', role') && High(f) && role[f] == Free && role'[f] != Free
    requires forall g :: High(g) && g != f ==> (role'[g] == Free <==> role[g] == Free)
    ensures FreeFrames(m') == FreeFrames(m) - 1
  {
    forall i | 0 <= i < |m.count| ensures (m.count[i] == 0 <==> role[i + LOW_FRAMES] == Free)
      && (m'.count[i] == 0 <==> role'[i + LOW_FRAMES] == Free)
    {
      FreeByRole(m, role, i + LOW_FRAMES);
      FreeByRole(m', role', i + LOW_FRAMES);
      assert Count(m, i + LOW_FRAMES) == m.count[i] && Count(m', i + LOW_FRAMES) == m'.count[i];
    }
    ZerosLess(m.count, m'.count, f - LOW_FRAMES, |m.count|);
  }

  lemma NoneFreeIsZero(m: Mem)
    requires Shape(m) && NoneFree(m)
    ensures FreeFrames(m) == 0
  {
    forall i | 0 <= i < |m.count| ensures m.count[i] != 0 { assert Count(m, i + LOW_FRAMES) != 0; }
    ZerosNone(m.count, |m.count|);
  }

  /** How many of the n directory entries from a on have a table. */
  function Tables(dir: seq<int>, a: int, n: nat): nat
    requires 0 <= a && a + n <= |dir|
  {
    if n == 0 then 0 else Tables(dir, a, n - 1) + (if Present(dir[a + n - 1]) then 1 else 0)
  }

  lemma {:induction false} TablesGrow(dir: seq<int>, a: int, k: nat, n: nat)
    requires 0 <= a && k <= n && a + n <= |dir|
    ensures Tables(dir, a, k) <= Tables(dir, a, n) <= Tables(dir, a, k) + (n - k)
  {
    if k < n { TablesGrow(dir, a, k, n - 1); }
  }

  /** Two ranges of n directory entries at the same offset in their tasks, or the kernel's own entry. */
  predicate DirsApart(a: int, b: int, n: int) {
    && 0 <= n && FIRST_USER_DIR <= b && b + n <= ENTRIES && (a == 0 ==> n <= 1)
    && (a != 0 ==> FIRST_USER_DIR <= a && a + n <= ENTRIES && (a + n <= b || b + n <= a) && a % 16 == b % 16)
  }

  ghost predicate Inv0(m: Mem) { Shape(m) && DirRange(m) && Boot(m) }

  /** The first k of n directory entries have been copied, one frame used for each that has a table. */
  ghost predicate CopiedSoFar(m0: Mem, m: Mem, a: int, b: int, n: int, k: int) {
    && DirsApart(a, b, n) && 0 <= k <= n && OnlyRange(m0, m, b, b + n)
    && (forall d :: b + k <= d < b + n ==> m.dir[d] == 0)
    && Copied(m0, m, a, b, k) && FreeFrames(m) == FreeFrames(m0) - Tables(m0.dir, a, k)
  }

  /** What free_page does: return, panic, or go on to an entry past mem_map. */
  datatype Freed = Done | Panic | PastTable

  class PageManager {
    const memMap: array<int>
    const pgDir: array<int>
    const phys: array<Page>
    ghost var role: seq<Role>

    ghost function S(): Mem
      reads memMap, pgDir, phys
    {
      Mem(memMap[..], pgDir[..], phys[..])
    }

    ghost predicate Valid()
      reads this, memMap, pgDir, phys
    {
      memMap != pgDir && Inv(S(), role)
    }

    /** Boot: the kernel's identity table in frame 1, no user tables, every counted frame free. */
    constructor (low: seq<Page>)
      requires |low| == LOW_FRAMES && forall f :: 0 <= f < LOW_FRAMES ==> |low[f]| == ENTRIES
      requires forall i :: 0 <= i < KERNEL_COPY ==> low[1][i] == Word(i, 7)
      ensures Valid() && fresh(memMap) && fresh(pgDir) && fresh(phys)
      ensures forall f :: 0 <= f < LOW_FRAMES ==> S().phys[f] == low[f]
      ensures forall d :: UserDir(d) ==> S().dir[d] == 0
      ensures forall f :: High(f) ==> Count(S(), f) == 0
    {
      memMap := new int[FRAMES - LOW_FRAMES](_ => 0);
      pgDir := new int[ENTRIES](d => if d == 0 then Word(1, 7) else 0);
      phys := new Page[FRAMES](f requires 0 <= f => if f < LOW_FRAMES then low[f] else ZeroPage());
      role := seq(FRAMES, _ => Free);
      new;
      assert forall f :: 0 <= f < FRAMES ==> phys[f] == if f < LOW_FRAMES then low[f] else ZeroPage();
      assert Shape(S());
      assert forall f :: High(f) ==> Count(S(), f) == 0;
    }

    // ---------------------------------------------------------------- single stores

    method PutCount(f: int, c: int)
      requires Shape(S()) && High(f) && memMap != pgDir
      modifies memMap
      ensures S() == SetCount(old(S()), f, c)
    {
      memMap[f - LOW_FRAMES] := c;
    }

    method PutDir(d: int, w: int)
      requires Shape(S()) && 0 <= d < ENTRIES && memMap != pgDir
      modifies pgDir
      ensures S() == SetDir(old(S()), d, w)
    {
      pgDir[d] := w;
    }

    method PutFrame(f: int, p: Page)
      requires Shape(S()) && 0 <= f < FRAMES
      modifies phys
      ensures S() == SetPage(old(S()), f, p)
    {
      phys[f] := p;
    }

    method PutPte(d: int, i: int, w: int)
      requires Shape(S()) && DirRange(S()) && UserSlot(d, i) && Present(S().dir[d])
      modifies phys
      ensures S() == SetPte(old(S()), d, i, w)
    {
      var t := Frame(pgDir[d]);
      PutFrame(t, phys[t][i := w]);
    }

    // ---------------------------------------------------------------- frames

    /** The highest frame with count 0, zeroed and counted once; 0 when there is none. */
    method GetFreePage() returns (addr: int)
      requires Valid()
      modifies this`role, memMap, phys
      ensures Valid()
      ensures addr == 0 <==> NoneFree(old(S()))
      ensures addr == 0 ==> S() == old(S()) && role == old(role)
      ensures addr != 0 ==>
                var f := addr / 4096;
                && addr == 4096 * f && High(f) && Count(old(S()), f) == 0
                && (forall g :: f < g < FRAMES ==> Count(old(S()), g) != 0)
                && S() == SetPage(SetCount(old(S()), f, 1), f, ZeroPage())
                && old(role)[f] == Free && role == old(role)[f := Held]
                && SameViews(old(S()), S()) && SameLow(old(S()), S()) && SamePtes(old(S()), S())
    {
      var k := FRAMES - LOW_FRAMES;
      while k > 0 && memMap[k - 1] != 0
        invariant 0 <= k <= FRAMES - LOW_FRAMES
        invariant forall g :: LOW_FRAMES + k <= g < FRAMES ==> Count(S(), g) != 0
      {
        k := k - 1;
      }
      if k == 0 { return 0; }
      var f := LOW_FRAMES + k - 1;
      ghost var m := S();
      assert Count(m, f) == 0;
      AllocKeeps(m, role, f);
      PutCount(f, 1);
      PutFrame(f, ZeroPage());
      role := role[f := Held];
      addr := 4096 * f;
      assert addr / 4096 == f;
    }

    /** free_page (memory.c:78-88).  The test `addr > HIGH_MEMORY` lets the one address HIGH_MEMORY through to
        an entry past the table. */
    method FreePage(addr: int) returns (r: Freed)
      requires Shape(S()) && memMap != pgDir && 0 <= addr
      modifies memMap
      ensures addr < LOW_MEM ==> r == Done && S() == old(S())
      ensures addr > HIGH_MEMORY ==> r == Panic && S() == old(S())
      ensures r == PastTable <==> addr == HIGH_MEMORY
      ensures LOW_MEM <= addr < HIGH_MEMORY ==>
                var f := addr / 4096;
                var c := Count(old(S()), f);
                && High(f) && r == (if c == 0 then Panic else Done)
                && S() == SetCount(old(S()), f, if c == 0 then 0 else c - 1)
    {
      if addr < LOW_MEM { return Done; }
      if addr > HIGH_MEMORY { return Panic; }
      if addr == HIGH_MEMORY { return PastTable; }
      var f := addr / 4096;
      var c := memMap[f - LOW_FRAMES];
      PutCount(f, c - 1);
      if c != 0 { return Done; }
      PutCount(f, 0);
      assert S() == SetCount(old(S()), f, 0);
      return Panic;
    }

    /** free_page on a page the kernel itself holds: its count is 1 and becomes 0. */
    method FreeHeldPage(page: int)
      requires Valid() && page % 4096 == 0 && High(page / 4096) && role[page / 4096] == Held
      modifies this`role, memMap
      ensures Valid() && S() == SetCount(old(S()), page / 4096, 0) && role == old(role)[page / 4096 := Free]
      ensures SameViews(old(S()), S()) && SameLow(old(S()), S())
    {
      var f := page / 4096;
      assert FrameOk(S(), role, f);
      UnnamedCountKeeps(S(), role, f, 0, Free);
      var freed := FreePage(page);
      assert freed == Done;
      role := role[f := Free];
    }

    // ---------------------------------------------------------------- page tables

    /** One iteration of the freeing loop (memory.c:109-111).  The count never underflows. */
    method DropSlot(d: int, i: int)
      requires Valid() && UserSlot(d, i) && Present(S().dir[d])
      modifies this`role, memMap, phys
      ensures Valid() && SameLow(old(S()), S()) && SameHeld(old(role), role)
      ensures S().dir == old(S()).dir && SameViewsBut(old(S()), S(), d, i)
      ensures forall d', i' :: UserSlot(d', i') ==>
                Pte(S(), d', i') == if d' == d && i' == i then 0 else Pte(old(S()), d', i')
    {
      ghost var m := S();
      ghost var w := Pte(m, d, i);
      assert SlotOk(m, role, d, i);
      DropPageKeeps(m, role, d, i);
      var word := phys[Frame(pgDir[d])][i];
      if Present(word) {
        if High(Frame(word)) { assert FrameOk(m, role, Frame(word)); }
        var freed := FreePage(4096 * Frame(word));
        assert freed == Done;
      }
      assert S() == Released(m, w);
      PutPte(d, i, 0);
      role := RoleAfterRelease(m, role, w);
    }

    /** Empties one table: drops every page it maps. */
    method FreeTablePages(d: int)
      requires Valid() && UserDir(d) && Present(S().dir[d])
      modifies this`role, memMap, phys
      ensures Valid() && SameLow(old(S()), S()) && SameHeld(old(role), role)
      ensures S().dir == old(S()).dir
      ensures forall i :: 0 <= i < ENTRIES ==> Pte(S(), d, i) == 0
      ensures OnlyRange(old(S()), S(), d, d + 1)
    {
      for nr := 0 to ENTRIES
        invariant Valid() && SameLow(old(S()), S()) && SameHeld(old(role), role)
        invariant S().dir == old(S()).dir
        invariant forall i :: 0 <= i < nr ==> Pte(S(), d, i) == 0
        invariant OnlyRange(old(S()), S(), d, d + 1)
      {
        DropSlot(d, nr);
      }
    }

    /** Empties and frees one table (memory.c:107-115). */
    method FreeTable(d: int)
      requires Valid() && UserDir(d) && Present(S().dir[d])
      modifies this`role, memMap, pgDir, phys
      ensures Valid() && SameLow(old(S()), S()) && SameHeld(old(role), role)
      ensures S().dir[d] == 0 && OnlyRange(old(S()), S(), d, d + 1)
    {
      FreeTablePages(d);
      ghost var m := S();
      FreeEmptied(d);
      OnlyRangeChain(old(S()), m, S(), d, d + 1, d, d + 1);
    }

    /** free_page on an emptied table, and its directory entry cleared (memory.c:113-115). */
    method FreeEmptied(d: int)
      requires Valid() && UserDir(d) && Present(S().dir[d]) && forall i :: 0 <= i < ENTRIES ==> Pte(S(), d, i) == 0
      modifies this`role, memMap, pgDir
      ensures Valid() && SameLow(old(S()), S()) && SameHeld(old(role), role)
      ensures S().dir[d] == 0 && OnlyRange(old(S()), S(), d, d + 1)
    {
      ghost var m := S();
      TableGone(m, role, d);
      var t := Frame(pgDir[d]);
      var freed := FreePage(4096 * t);
      assert freed == Done;
      PutDir(d, 0);
      role := role[t := Free];
      assert S() == SetDir(SetCount(m, t, 0), d, 0);
    }

    /** Frees every page and table under n directory entries from d0 on (memory.c:94-119). */
    method FreePageTables(from: int, size: int)
      requires Valid() && from % DIR_SPAN == 0 && from != 0 && 0 <= size
      requires FIRST_USER_DIR <= from / DIR_SPAN && from / DIR_SPAN + PagesToDirs(size) <= ENTRIES
      modifies this`role, memMap, pgDir, phys
      ensures Valid() && SameLow(old(S()), S()) && SameHeld(old(role), role)
      ensures forall d :: from / DIR_SPAN <= d < from / DIR_SPAN + PagesToDirs(size) ==> S().dir[d] == 0
      ensures OnlyRange(old(S()), S(), from / DIR_SPAN, from / DIR_SPAN + PagesToDirs(size))
    {
      var d0 := from / DIR_SPAN;
      var n := PagesToDirs(size);
      for k := 0 to n
        invariant Valid() && SameLow(old(S()), S()) && SameHeld(old(role), role)
        invariant forall d :: d0 <= d < d0 + k ==> S().dir[d] == 0
        invariant OnlyRange(old(S()), S(), d0, d0 + n)
      {
        FreeDir(old(S()), d0, d0 + n, d0 + k);
      }
    }

    /** One directory entry of the range from d0 to d1. */
    method FreeDir(ghost m0: Mem, ghost d0: int, ghost d1: int, d: int)
      requires Valid() && FIRST_USER_DIR <= d0 <= d < d1 <= ENTRIES && OnlyRange(m0, S(), d0, d1) && SameLow(m0, S())
      modifies this`role, memMap, pgDir, phys
      ensures Valid() && SameLow(m0, S()) && SameHeld(old(role), role) && OnlyRange(m0, S(), d0, d1)
      ensures S().dir[d] == 0 && forall c :: d0 <= c < d ==> S().dir[c] == old(S()).dir[c]
    {
      ghost var m := S();
      if Present(pgDir[d]) {
        FreeTable(d);
        OnlyRangeChain(m0, m, S(), d0, d1, d, d + 1);
      }
    }

    /** The three stores that share a counted page (memory.c:166-171). */
    method StoreShared(from: int, to: int, i: int, word: int)
      requires Valid() && UserSlot(from, i) && UserSlot(to, i) && Present(S().dir[from]) && Present(S().dir[to])
      requires Frame(S().dir[from]) != Frame(S().dir[to])
      requires word == Pte(S(), from, i) && Present(word) && High(Frame(word))
      modifies memMap, phys
      ensures S() == Shared(old(S()), from, to, i)
    {
      PutPte(to, i, ClearWrite(word));
      PutPte(from, i, ClearWrite(word));
      PutCount(Frame(word), memMap[Frame(word) - LOW_FRAMES] + 1);
    }

    /** One iteration of the copy loop (memory.c:162-172). */
    method ShareSlot(from: int, to: int, i: int)
      requires Valid() && UserSlot(to, i) && Present(S().dir[to]) && Pte(S(), to, i) == 0
      requires (from == 0 && i < KERNEL_COPY) || (UserDir(from) && from != to && from % 16 == to % 16 &&
               Present(S().dir[from]))
      modifies memMap, phys
      ensures Valid() && SameLow(old(S()), S())
      ensures S().dir == old(S()).dir && SameViewsBut(old(S()), S(), to, i)
      ensures View(S(), to, i) == Source(old(S()), from, i)
      ensures forall d', i' :: UserSlot(d', i') && !(d' == to && i' == i) ==>
                Pte(S(), d', i') == if d' == from && i' == i then ClearWrite(Pte(old(S()), d', i'))
                  else Pte(old(S()), d', i')
    {
      ghost var m := S();
      var word := phys[Frame(pgDir[from])][i];
      if from != 0 { assert word == Pte(m, from, i) && SlotOk(m, role, from, i); }
      if Present(word) {
        AboveClear(word);
        if ClearWrite(word) > LOW_MEM {
          ShareKeeps(m, role, from, to, i);
          StoreShared(from, to, i, word);
        } else {
          ShareLow(to, i, word);
        }
      }
    }

    /** A page of low memory is mapped read-only and not counted. */
    method ShareLow(to: int, i: int, word: int)
      requires Valid() && UserSlot(to, i) && Present(S().dir[to]) && Pte(S(), to, i) == 0
      requires 0 <= word && Present(word) && Frame(word) < LOW_FRAMES
      modifies phys
      ensures Valid() && SameLow(old(S()), S()) && S().dir == old(S()).dir && SameViewsBut(old(S()), S(), to, i)
      ensures View(S(), to, i) == old(S()).phys[Frame(word)]
      ensures forall d', i' :: UserSlot(d', i') && !(d' == to && i' == i) ==> Pte(S(), d', i') == Pte(old(S()), d', i')
    {
      ShareLowKeeps(S(), role, to, i, word);
      PutPte(to, i, ClearWrite(word));
    }

    /** Shares one table: after it, directory entry `to` shows what `from` showed. */
    method ShareTable(from: int, to: int)
      requires Valid() && UserDir(to) && Present(S().dir[to])
      requires forall i :: 0 <= i < ENTRIES ==> Pte(S(), to, i) == 0
      requires from == 0 || (UserDir(from) && from != to && from % 16 == to % 16 && Present(S().dir[from]))
      modifies memMap, phys
      ensures Valid() && SameLow(old(S()), S())
      ensures S().dir == old(S()).dir
      ensures forall i :: 0 <= i < ENTRIES ==> View(S(), to, i) == Source(old(S()), from, i)
      ensures OnlyRange(old(S()), S(), to, to + 1)
    {
      var nr := if from == 0 then KERNEL_COPY else ENTRIES;
      for i := 0 to nr
        invariant Valid() && SameLow(old(S()), S())
        invariant S().dir == old(S()).dir
        invariant forall j :: 0 <= j < i ==> View(S(), to, j) == Source(old(S()), from, j)
        invariant forall j :: i <= j < ENTRIES ==> Pte(S(), to, j) == 0
        invariant OnlyRange(old(S()), S(), to, to + 1)
      {
        ghost var m := S();
        ShareSlot(from, to, i);
        StripChain(old(S()), m, S(), from, to, i);
        assert Source(m, from, i) == Source(old(S()), from, i);
      }
    }

    /** Allocates a table for `to` and shares `from` through it; false when no frame is free. */
    method CopyTable(from: int, to: int) returns (ok: bool)
      requires Valid() && UserDir(to) && S().dir[to] == 0
      requires from == 0 || (UserDir(from) && from != to && from % 16 == to % 16 && Present(S().dir[from]))
      modifies this`role, memMap, pgDir, phys
      ensures Valid() && SameLow(old(S()), S()) && SameHeld(old(role), role)
      ensures !ok ==> S() == old(S()) && NoneFree(S())
      ensures ok ==> forall i :: 0 <= i < ENTRIES ==> View(S(), to, i) == Source(old(S()), from, i)
      ensures OnlyRange(old(S()), S(), to, to + 1)
      ensures ok ==> FreeFrames(S()) == FreeFrames(old(S())) - 1
    {
      ghost var m0 := S();
      var table := GetFreePage();
      if table == 0 { return false; }
      ghost var m1 := S();
      var f := table / 4096;
      WordDecodes(f);
      InstallTableKeeps(m1, role, to, f);
      PutDir(to, Word(f, 7));
      role := role[f := Table(to)];
      ghost var m2 := S();
      assert forall i :: 0 <= i < ENTRIES ==> Pte(m2, to, i) == 0;
      assert OnlyRange(m0, m2, to, to + 1);
      ShareTable(from, to);
      assert forall i :: 0 <= i < ENTRIES ==> Source(m2, from, i) == Source(m0, from, i);
      OneTaken(m0, old(role), S(), role, f);
      return true;
    }

    /** copy_page_tables: 0 on success, -1 when out of memory part way (memory.c:138-177). */
    method CopyPageTables(from: int, to: int, size: int) returns (r: int)
      requires Valid() && from % DIR_SPAN == 0 && to % DIR_SPAN == 0 && 0 <= from && 0 <= size
      requires FIRST_USER_DIR <= to / DIR_SPAN && to / DIR_SPAN + PagesToDirs(size) <= ENTRIES
      requires from == 0 ==> PagesToDirs(size) <= 1
      requires from != 0 ==> FIRST_USER_DIR <= from / DIR_SPAN && from / DIR_SPAN + PagesToDirs(size) <= ENTRIES
      requires from != 0 ==>
                 (from / DIR_SPAN) % 16 == (to / DIR_SPAN) % 16 == 0 && from != to && PagesToDirs(size) <= 16
      requires forall d :: to / DIR_SPAN <= d < to / DIR_SPAN + PagesToDirs(size) ==> S().dir[d] == 0
      modifies this`role, memMap, pgDir, phys
      ensures Valid() && SameLow(old(S()), S()) && SameHeld(old(role), role)
      ensures OnlyRange(old(S()), S(), to / DIR_SPAN, to / DIR_SPAN + PagesToDirs(size))
      ensures r == 0 || (r == -1 && NoneFree(S()))
      ensures r == 0 ==> Copied(old(S()), S(), from / DIR_SPAN, to / DIR_SPAN, PagesToDirs(size))
      ensures r == 0 <==> FreeFrames(old(S())) >= Tables(old(S()).dir, from / DIR_SPAN, PagesToDirs(size))
    {
      var a, b, n := from / DIR_SPAN, to / DIR_SPAN, PagesToDirs(size);
      if from != 0 { Blocks16(a, b); }
      r := CopyDirs(a, b, n);
    }

    /** One directory entry of the outer loop; an absent table is skipped. */
    method CopyDir(from: int, to: int) returns (ok: bool)
      requires Valid() && UserDir(to) && S().dir[to] == 0
      requires from == 0 || (UserDir(from) && from != to && from % 16 == to % 16)
      modifies this`role, memMap, pgDir, phys
      ensures Valid() && SameLow(old(S()), S()) && SameHeld(old(role), role)
      ensures !ok ==> S() == old(S()) && NoneFree(S())
      ensures ok ==> forall i :: 0 <= i < ENTRIES ==> View(S(), to, i) == Source(old(S()), from, i)
      ensures OnlyRange(old(S()), S(), to, to + 1)
      ensures !ok ==> Present(old(S()).dir[from])
      ensures ok ==> FreeFrames(S()) == FreeFrames(old(S())) - (if Present(old(S()).dir[from]) then 1 else 0)
    {
      ok := true;
      if Present(pgDir[from]) {
        ok := CopyTable(from, to);
      }
    }

    method CopyDirs(a: int, b: int, n: int) returns (r: int)
      requires Valid() && DirsApart(a, b, n) && forall d :: b <= d < b + n ==> S().dir[d] == 0
      modifies this`role, memMap, pgDir, phys
      ensures Valid() && SameLow(old(S()), S()) && SameHeld(old(role), role)
      ensures OnlyRange(old(S()), S(), b, b + n)
      ensures r == 0 || (r == -1 && NoneFree(S()))
      ensures r == 0 ==> Copied(old(S()), S(), a, b, n)
      ensures r == 0 <==> FreeFrames(old(S())) >= Tables(old(S()).dir, a, n)
      ensures r == 0 ==> FreeFrames(S()) == FreeFrames(old(S())) - Tables(old(S()).dir, a, n)
    {
      for k := 0 to n
        invariant Valid() && SameLow(old(S()), S()) && SameHeld(old(role), role)
        invariant CopiedSoFar(old(S()), S(), a, b, n, k)
      {
        var ok := CopyNext(old(S()), a, b, n, k);
        if !ok { return -1; }
      }
      return 0;
    }

    method CopyNext(ghost m0: Mem, a: int, b: int, n: int, k: int) returns (ok: bool)
      requires Valid() && DirsApart(a, b, n) && 0 <= k < n && SameLow(m0, S()) && Inv0(m0) &&
               CopiedSoFar(m0, S(), a, b, n, k)
      modifies this`role, memMap, pgDir, phys
      ensures Valid() && SameLow(m0, S()) && SameHeld(old(role), role)
      ensures ok ==> CopiedSoFar(m0, S(), a, b, n, k + 1)
      ensures !ok ==> OnlyRange(m0, S(), b, b + n) && NoneFree(S()) && FreeFrames(m0) < Tables(m0.dir, a, n)
    {
      ghost var m := S();
      var d, d' := a + k, b + k;
      SourceSame(m0, m, d, b, b + n);
      if a != 0 { Shift16(a, b, k); }
      ok := CopyDir(d, d');
      if !ok {
        CopyFails(m0, m, a, b, n, k);
        return;
      }
      CopiedNext(m0, m, S(), a, b, n, k, d, d');
    }

    // ---------------------------------------------------------------- faults

    /** put_page: maps the held page at `page`; 0 when no table could be had (memory.c:185-206). */
    method PutPage(page: int, d: int, i: int) returns (r: int)
      requires Valid() && UserSlot(d, i) && Pte(S(), d, i) == 0
      requires page % 4096 == 0 && High(page / 4096) && role[page / 4096] == Held
      modifies this`role, memMap, pgDir, phys
      ensures Valid() && SameLow(old(S()), S()) && (r == 0 || r == page)
      ensures StillHeld(old(role), role, page / 4096)
      ensures r == 0 ==> S() == old(S()) && role == old(role) && NoneFree(S())
      ensures r != 0 ==> SameViewsBut(old(S()), S(), d, i) && View(S(), d, i) == old(S()).phys[page / 4096]
      ensures r != 0 ==> Pte(S(), d, i) == Word(page / 4096, 7)
      ensures r != 0 ==> forall d' :: UserDir(d') && d' != d ==> S().dir[d'] == old(S()).dir[d']
    {
      var f := page / 4096;
      var ok := NeedTable(d, f);
      if !ok { return 0; }
      InstallPageKeeps(S(), role, d, i, f);
      PteAfterSetPte(S(), role, d, i, Word(f, 7));
      PutPte(d, i, Word(f, 7));
      role := role[f := Data(d % 16, i)];
      return page;
    }

    /** The table for directory entry d, taken when there is none (memory.c:195-203). */
    method NeedTable(d: int, ghost f: int) returns (ok: bool)
      requires Valid() && UserDir(d) && High(f) && role[f] == Held
      modifies this`role, memMap, pgDir, phys
      ensures Valid() && SameLow(old(S()), S()) && SameViews(old(S()), S()) && SamePtes(old(S()), S())
      ensures !ok ==> S() == old(S()) && role == old(role) && NoneFree(S())
      ensures ok ==> Present(S().dir[d]) && role[f] == Held && S().phys[f] == old(S()).phys[f]
      ensures StillHeld(old(role), role, f)
      ensures forall d' :: UserDir(d') && d' != d ==> S().dir[d'] == old(S()).dir[d']
    {
      if Present(pgDir[d]) { return true; }
      var tmp := GetFreePage();
      if tmp == 0 { return false; }
      var t := tmp / 4096;
      WordDecodes(t);
      ghost var m := S();
      InstallTableKeeps(m, role, d, t);
      PutDir(d, Word(t, 7));
      role := role[t := Table(d)];
      assert forall d', i' :: UserSlot(d', i') ==> Pte(S(), d', i') == Pte(m, d', i');
      return true;
    }

    /** do_no_page: maps a fresh zero page; false stands for do_exit.  When the last free frame is
        taken and no table can be had, that frame stays counted (memory.c:255-258). */
    method DoNoPage(d: int, i: int) returns (ok: bool)
      requires Valid() && UserSlot(d, i) && Pte(S(), d, i) == 0
      modifies this`role, memMap, pgDir, phys
      ensures TwoFree(old(S())) ==> ok
      ensures StillHeld(old(role), role, 0)
      ensures Valid() && SameLow(old(S()), S()) && SameViews(old(S()), S())
      ensures ok ==> Present(Pte(S(), d, i)) && Writable(Pte(S(), d, i))
      ensures !ok ==> NoneFree(S())
      ensures !ok && NoneFree(old(S())) ==> S() == old(S())
      ensures !ok && !NoneFree(old(S())) ==> exists f :: High(f) && old(role)[f] == Free && role == old(role)[f := Held]
      ensures forall d' :: UserDir(d') && d' != d ==> S().dir[d'] == old(S()).dir[d']
    {
      ghost var m0 := S();
      var tmp := GetFreePage();
      if tmp == 0 { return false; }
      ghost var m1 := S();
      WordDecodes(tmp / 4096);
      var r := PutPage(tmp, d, i);
      if r == 0 { return false; }
      assert SameViewsBut(m1, S(), d, i) && View(S(), d, i) == ZeroPage() == View(m0, d, i);
      return true;
    }

    /** un_wp_page: makes the page private and writable; false stands for do_exit (memory.c:208-223). */
    method UnWpPage(d: int, i: int) returns (ok: bool)
      requires Valid() && UserSlot(d, i) && Present(Pte(S(), d, i))
      modifies this`role, memMap, phys
      ensures TwoFree(old(S())) ==> ok
      ensures StillHeld(old(role), role, 0)
      ensures Valid() && SameLow(old(S()), S()) && SameViews(old(S()), S()) && S().dir == old(S()).dir
      ensures ok ==> Present(Pte(S(), d, i)) && Writable(Pte(S(), d, i))
      ensures !ok ==> S() == old(S()) && NoneFree(S())
    {
      ghost var m := S();
      assert SlotOk(m, role, d, i);
      var word := phys[Frame(pgDir[d])][i];
      var page := Frame(word);
      SetWriteDecodes(word);
      if page >= LOW_FRAMES && memMap[page - LOW_FRAMES] == 1 {
        MakeWritableKeeps(m, role, d, i);
        PutPte(d, i, SetWrite(word));
        return true;
      }
      var newPage := GetFreePage();
      if newPage == 0 { return false; }
      Unshare(d, i, newPage / 4096);
      return true;
    }

    /** The page of the slot is copied to frame f, which takes its place (memory.c:218-222). */
    method Unshare(d: int, i: int, f: int)
      requires Valid() && UserSlot(d, i) && Present(Pte(S(), d, i)) && High(f) && role[f] == Held
      modifies this`role, memMap, phys
      ensures StillHeld(old(role), role, f)
      ensures Valid() && SameLow(old(S()), S()) && SameViews(old(S()), S()) && S().dir == old(S()).dir
      ensures Present(Pte(S(), d, i)) && Writable(Pte(S(), d, i))
    {
      ghost var m := S();
      assert SlotOk(m, role, d, i);
      var word := phys[Frame(pgDir[d])][i];
      WordDecodes(f);
      UnshareKeeps(m, role, d, i, f);
      StoreUnshared(d, i, f, word);
      role := RoleAfterRelease(m, role, word)[f := Data(d % 16, i)];
    }

    /** The stores of un_wp_page once it has a page: count, table word, copy (memory.c:219-222). */
    method StoreUnshared(d: int, i: int, f: int, word: int)
      requires Valid() && UserSlot(d, i) && High(f) && role[f] == Held
      requires word == Pte(S(), d, i) && Present(word) && PteOk(word)
      modifies memMap, phys
      ensures S() == Unshared(old(S()), d, i, f)
    {
      assert role[Frame(S().dir[d])] == Table(d);
      assert SlotOk(S(), role, d, i);
      var page := Frame(word);
      if page >= LOW_FRAMES {
        PutCount(page, memMap[page - LOW_FRAMES] - 1);
      }
      PutPte(d, i, Word(f, 7));
      assert S().phys[page] == old(S()).phys[page];
      PutFrame(f, phys[page]);
    }

    /** write_verify: before the kernel stores to user memory, past the write bit (memory.c:238-249). */
    method WriteVerify(d: int, i: int) returns (ok: bool)
      requires Valid() && UserSlot(d, i)
      modifies this`role, memMap, phys
      ensures TwoFree(old(S())) ==> ok
      ensures StillHeld(old(role), role, 0)
      ensures Valid() && SameLow(old(S()), S()) && SameViews(old(S()), S()) && S().dir == old(S()).dir
      ensures ok && Present(Pte(old(S()), d, i)) ==> Present(Pte(S(), d, i)) && Writable(Pte(S(), d, i))
      ensures !Present(Pte(old(S()), d, i)) ==> S() == old(S())
      ensures !ok ==> S() == old(S()) && NoneFree(S())
    {
      if !Present(pgDir[d]) { return true; }
      var word := phys[Frame(pgDir[d])][i];
      ok := true;
      if Present(word) && !Writable(word) {
        ok := UnWpPage(d, i);
      }
    }

    // ---------------------------------------------------------------- accesses

    /** A load by user code: a missing page faults to do_no_page, then the access is retried. */
    method Load(d: int, i: int, w: int) returns (ok: bool, v: int)
      requires Valid() && UserSlot(d, i) && 0 <= w < ENTRIES
      modifies this`role, memMap, pgDir, phys
      ensures TwoFree(old(S())) ==> ok
      ensures StillHeld(old(role), role, 0)
      ensures Valid() && SameLow(old(S()), S()) && SameViews(old(S()), S())
      ensures ok ==> v == View(old(S()), d, i)[w]
      ensures !ok ==> NoneFree(S())
      ensures forall d' :: UserDir(d') && d' != d ==> S().dir[d'] == old(S()).dir[d']
    {
      ok, v := true, 0;
      ghost var m := S();
      assert SlotOk(m, role, d, i);
      var dirWord := pgDir[d];
      if !Present(dirWord) || !Present(phys[Frame(dirWord)][i]) {
        ok := DoNoPage(d, i);
        if !ok { return; }
      }
      assert SlotOk(S(), role, d, i);
      v := phys[Frame(phys[Frame(pgDir[d])][i])][w];
      assert View(S(), d, i)[w] == v;
    }

    /** A store by user code: a missing page faults to do_no_page, a read-only one to do_wp_page. */
    method Store(d: int, i: int, w: int, v: int) returns (ok: bool)
      requires Valid() && UserSlot(d, i) && 0 <= w < ENTRIES
      modifies this`role, memMap, pgDir, phys
      ensures TwoFree(old(S())) ==> ok
      ensures StillHeld(old(role), role, 0)
      ensures Valid() && SameLow(old(S()), S()) && SameViewsBut(old(S()), S(), d, i)
      ensures ok ==> View(S(), d, i) == View(old(S()), d, i)[w := v]
      ensures !ok ==> SameViews(old(S()), S()) && NoneFree(S())
      ensures forall d' :: UserDir(d') && d' != d ==> S().dir[d'] == old(S()).dir[d']
    {
      ok := true;
      ghost var m := S();
      assert SlotOk(m, role, d, i);
      var dirWord := pgDir[d];
      if !Present(dirWord) || !Present(phys[Frame(dirWord)][i]) {
        ok := DoNoPage(d, i);
      } else if !Writable(phys[Frame(dirWord)][i]) {
        ok := UnWpPage(d, i);
      }
      if ok {
        StoreThrough(d, i, w, v);
      }
    }

    /** The memory cycle itself. */
    method StoreThrough(d: int, i: int, w: int, v: int)
      requires Valid() && UserSlot(d, i) && 0 <= w < ENTRIES && Present(Pte(S(), d, i)) && Writable(Pte(S(), d, i))
      modifies phys
      ensures Valid() && SameLow(old(S()), S()) && SameViewsBut(old(S()), S(), d, i) && S().dir == old(S()).dir
      ensures View(S(), d, i) == View(old(S()), d, i)[w := v]
    {
      assert SlotOk(S(), role, d, i);
      var f := Frame(phys[Frame(pgDir[d])][i]);
      var p := phys[f][w := v];
      StoreKeeps(S(), role, d, i, p);
      PutFrame(f, p);
    }

    /** A store by the kernel on a task's behalf (verify_area, then put_fs_byte): the write bit is not
        checked by the processor, so only write_verify keeps shared pages apart. */
    method KernelStore(d: int, i: int, w: int, v: int) returns (ok: bool)
      requires Valid() && UserSlot(d, i) && 0 <= w < ENTRIES
      modifies this`role, memMap, pgDir, phys
      ensures TwoFree(old(S())) ==> ok
      ensures StillHeld(old(role), role, 0)
      ensures Valid() && SameLow(old(S()), S()) && SameViewsBut(old(S()), S(), d, i)
      ensures ok ==> View(S(), d, i) == View(old(S()), d, i)[w := v]
      ensures !ok ==> SameViews(old(S()), S()) && NoneFree(S())
      ensures forall d' :: UserDir(d') && d' != d ==> S().dir[d'] == old(S()).dir[d']
    {
      ok := WriteVerify(d, i);
      if !ok { return; }
      assert SlotOk(S(), role, d, i);
      var dirWord := pgDir[d];
      if !Present(dirWord) || !Present(phys[Frame(dirWord)][i]) {
        ok := DoNoPage(d, i);
        if !ok { return; }
      }
      StoreThrough(d, i, w, v);
    }

    /** put_fs_long without verify_area, as in sys_pipe (fs/pipe.c:89-90): a missing page faults, and a page that is
        there is written in place, whoever else uses it (`UnverifiedKeepsIff`). */
    method UnverifiedStore(d: int, i: int, w: int, v: int) returns (ok: bool)
      requires Valid() && UserSlot(d, i) && 0 <= w < ENTRIES
      modifies this`role, memMap, pgDir, phys
      ensures Shape(S()) && DirRange(S())
      ensures Present(Pte(old(S()), d, i)) ==>
                var m, f := old(S()), Frame(Pte(old(S()), d, i));
                ok && role == old(role) && 0 <= f < FRAMES && S() == SetPage(m, f, m.phys[f][w := v])
      ensures !Present(Pte(old(S()), d, i)) ==>
                && Valid() && SameLow(old(S()), S()) && SameViewsBut(old(S()), S(), d, i)
                && (ok ==> View(S(), d, i) == View(old(S()), d, i)[w := v])
                && (!ok ==> SameViews(old(S()), S()) && NoneFree(S()))
    {
      ok := true;
      assert SlotOk(S(), role, d, i);
      var dirWord := pgDir[d];
      if !Present(dirWord) || !Present(phys[Frame(dirWord)][i]) {
        ok := DoNoPage(d, i);
        if ok { StoreThrough(d, i, w, v); }
      } else {
        var f := Frame(phys[Frame(dirWord)][i]);
        PutFrame(f, phys[f][w := v]);
      }
    }
  }

  /** A kernel store that nothing verifies, to a page that is there: it stays in the task's own view if and only if
      the frame is counted and this slot is its only user. */
  lemma UnverifiedKeepsIff(m: Mem, role: seq<Role>, d: int, i: int, w: int, v: int)
    requires Inv(m, role) && UserSlot(d, i) && Present(Pte(m, d, i)) && 0 <= w < ENTRIES && v != View(m, d, i)[w]
    ensures var f := Frame(Pte(m, d, i));
            0 <= f < FRAMES &&
            var m' := SetPage(m, f, m.phys[f][w := v]);
            && Shape(m') && DirRange(m') && View(m', d, i) == View(m, d, i)[w := v]
            && (SameViewsBut(m, m', d, i) && SameLow(m, m') <==> High(f) && Count(m, f) == 1)
  {
    assert SlotOk(m, role, d, i);
    var f := Frame(Pte(m, d, i));
    var m' := SetPage(m, f, m.phys[f][w := v]);
    assert m.phys[f][w] != m'.phys[f][w];
    if High(f) {
      assert forall d', i' :: UserSlot(d', i') ==> Pte(m', d', i') == Pte(m, d', i');
      assert FrameOk(m, role, f) && Slot(d, i) in Mappers(m, f);
      WithWithout(Mappers(m, f), Slot(d, i));
      if Count(m, f) == 1 {
        forall d', i' | UserSlot(d', i') && !(d' == d && i' == i) ensures View(m', d', i') == View(m, d', i') {
          if Names(Pte(m, d', i'), f) { SoleMapper(m, role, d, i, d', i'); }
        }
      } else {
        AnotherMapper(m, m', f, d, i);
      }
    } else {
      LowTable(m, m', f, d, i);
    }
  }

  lemma AnotherMapper(m: Mem, m': Mem, f: int, d: int, i: int)
    requires Shape(m) && DirRange(m) && Shape(m') && DirRange(m') && UserSlot(d, i) && 0 <= f < FRAMES
    requires |Mappers(m, f) - {Slot(d, i)}| > 0 && m'.phys[f] != m.phys[f]
    requires forall d', i' :: UserSlot(d', i') ==> Pte(m', d', i') == Pte(m, d', i')
    ensures !SameViewsBut(m, m', d, i)
  {
    var s := Mappers(m, f) - {Slot(d, i)};
    assert s != {};
    var x :| x in s;
    assert View(m', x.d, x.i) != View(m, x.d, x.i);
  }

  /** A store below LOW_MEM leaves all table words alone, for tables are above it. */
  lemma LowTable(m: Mem, m': Mem, f: int, d: int, i: int)
    requires Shape(m) && DirRange(m) && UserSlot(d, i) && Present(Pte(m, d, i)) && f == Frame(Pte(m, d, i))
    requires 0 <= f < LOW_FRAMES && exists p :: |p| == ENTRIES && m' == SetPage(m, f, p)
    ensures Shape(m') && DirRange(m') && Pte(m', d, i) == Pte(m, d, i)
  {
  }

  lemma TableGone(m: Mem, role: seq<Role>, d: int)
    requires Inv(m, role) && UserDir(d) && Present(m.dir[d]) && forall i :: 0 <= i < ENTRIES ==> Pte(m, d, i) == 0
    ensures var t := Frame(m.dir[d]);
            var m', role' := SetDir(SetCount(m, t, 0), d, 0), role[t := Free];
            && High(t) && Count(m, t) == 1 && Inv(m', role') && SameLow(m, m') && SameHeld(role, role')
            && m'.dir[d] == 0 && OnlyRange(m, m', d, d + 1)
  {
    DropTableKeeps(m, role, d);
    assert FrameOk(m, role, Frame(m.dir[d]));
  }

  /** A table that cannot be had: all frames are in use, and some table of the range is still to be copied. */
  lemma CopyFails(m0: Mem, m: Mem, a: int, b: int, n: int, k: int)
    requires 0 <= k < n && CopiedSoFar(m0, m, a, b, n, k) && SameLow(m0, m) && NoneFree(m)
    requires 0 <= a && a + n <= |m0.dir| && Present(m0.dir[a + k])
    ensures FreeFrames(m0) < Tables(m0.dir, a, n)
  {
    NoneFreeIsZero(m);
    TablesGrow(m0.dir, a, k + 1, n);
  }

  lemma SourceSame(m0: Mem, m: Mem, d: int, lo: int, hi: int)
    requires OnlyRange(m0, m, lo, hi) && SameLow(m0, m) && (d == 0 || (UserDir(d) && !(lo <= d < hi)))
    ensures forall i :: 0 <= i < ENTRIES ==> Source(m, d, i) == Source(m0, d, i)
    ensures d != 0 ==> m.dir[d] == m0.dir[d]
  {
  }

  lemma CopiedNext(m0: Mem, m: Mem, m': Mem, a: int, b: int, n: int, k: int, d: int, d': int)
    requires 0 <= k < n && CopiedSoFar(m0, m, a, b, n, k) && Inv0(m0) && Inv0(m) && SameLow(m0, m)
    requires d == a + k && d' == b + k && OnlyRange(m, m', d', d' + 1)
    requires forall i :: 0 <= i < ENTRIES ==> View(m', d', i) == Source(m, d, i)
    requires FreeFrames(m') == FreeFrames(m) - (if Present(m.dir[d]) then 1 else 0)
    ensures CopiedSoFar(m0, m', a, b, n, k + 1)
  {
    SourceSame(m0, m, d, b, b + n);
    OnlyRangeChain(m0, m, m', b, b + n, d', d' + 1);
    CopiedStep(m0, m, m', a, b, k, d, d');
  }

  lemma OnlyRangeChain(m0: Mem, m: Mem, m': Mem, lo: int, hi: int, lo': int, hi': int)
    requires OnlyRange(m0, m, lo, hi) && OnlyRange(m, m', lo', hi') && lo <= lo' && hi' <= hi
    ensures OnlyRange(m0, m', lo, hi)
  {
  }

  lemma CopiedStep(m0: Mem, m: Mem, m': Mem, a: int, b: int, k: int, d: int, d': int)
    requires 0 <= k && d == a + k && d' == b + k && Copied(m0, m, a, b, k) && OnlyRange(m, m', d', d' + 1) &&
             d' < ENTRIES
    requires a == 0 ==> k == 0
    requires a != 0 ==> FIRST_USER_DIR <= a && d < ENTRIES
    requires forall i :: 0 <= i < ENTRIES ==> View(m', d', i) == Source(m0, d, i)
    ensures Copied(m0, m', a, b, k + 1)
  {
    forall e, i | b <= e < b + k + 1 && 0 <= i < ENTRIES ensures View(m', e, i) == Source(m0, e - b + a, i) {
      if e < d' { assert View(m', e, i) == View(m, e, i); }
    }
  }

  lemma StripChain(m0: Mem, m: Mem, m': Mem, from: int, to: int, i: int)
    requires OnlyRange(m0, m, to, to + 1) && UserSlot(to, i)
    requires Shape(m') && DirRange(m') && m'.dir == m.dir && SameViewsBut(m, m', to, i)
    requires forall d', i' :: UserSlot(d', i') && !(d' == to && i' == i) ==>
               Pte(m', d', i') == if d' == from && i' == i then ClearWrite(Pte(m, d', i')) else Pte(m, d', i')
    ensures OnlyRange(m0, m', to, to + 1)
  {
    forall w: int ensures ClearWrite(ClearWrite(w)) == ClearWrite(w) {}
  }

  lemma Shift16(a: int, b: int, k: int)
    requires a % 16 == b % 16
    ensures (a + k) % 16 == (b + k) % 16
  {
    var q := a / 16 - b / 16;
    assert a + k == 16 * q + (b + k);
  }

  lemma Blocks16(a: int, b: int)
    requires a % 16 == b % 16 == 0 && a != b
    ensures a + 16 <= b || b + 16 <= a
  {
  }
}

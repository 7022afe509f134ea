/**
  The stack that do_execve leaves to the new program (fs/exec.c): change_ldt puts the argument pages at the
  top of the 64 MB of user memory, create_tables writes argc and the two pointer tables below them.
 */
module ExecStacks {
  import opened ExecArgs

  const TOP := 0x4000000
  const WORD := 0x1_0000_0000

  /** A 32-bit word, lowest byte first. */
  function LongAt(m: seq<int>, a: int): int
    requires 0 <= a && a + 4 <= |m|
  {
    m[a] + 0x100 * m[a + 1] + 0x1_0000 * m[a + 2] + 0x100_0000 * m[a + 3]
  }

  /** Nothing outside lo..hi has changed. */
  ghost predicate Only(m: seq<int>, n: seq<int>, lo: int, hi: int) {
    |m| == |n| && forall x :: 0 <= x < |m| && !(lo <= x < hi) ==> n[x] == m[x]
  }

  lemma LongKept(m: seq<int>, n: seq<int>, lo: int, hi: int, a: int)
    requires Only(m, n, lo, hi) && 0 <= a && a + 4 <= |m| && (a + 4 <= lo || hi <= a)
    ensures LongAt(n, a) == LongAt(m, a)
  {
  }

  lemma FourBytes(v: int)
    requires 0 <= v < WORD
    ensures v % 0x100 + 0x100 * (v / 0x100 % 0x100) + 0x1_0000 * (v / 0x1_0000 % 0x100) +
            0x100_0000 * (v / 0x100_0000 % 0x100) == v
  {
  }

  /** Entry i of the table at t points to string i of those laid out at a. */
  ghost predicate Pointers(m: seq<int>, t: int, a: int, ss: seq<Str>, n: nat) {
    && n <= |ss| && 0 <= t && t + 4 * n <= |m|
    && forall i {:trigger Pointer(m, t, a, ss, i)} :: 0 <= i < n ==> Pointer(m, t, a, ss, i)
  }

  ghost predicate Pointer(m: seq<int>, t: int, a: int, ss: seq<Str>, i: nat) {
    i < |ss| && 0 <= t && t + 4 * i + 4 <= |m| && LongAt(m, t + 4 * i) == a + Offset(ss, i)
  }

  lemma PointersKept(m: seq<int>, n: seq<int>, lo: int, hi: int, t: int, a: int, ss: seq<Str>, k: nat)
    requires Only(m, n, lo, hi) && Pointers(m, t, a, ss, k) && (t + 4 * k <= lo || hi <= t)
    ensures Pointers(n, t, a, ss, k)
  {
    forall i | 0 <= i < k ensures Pointer(n, t, a, ss, i) {
      assert Pointer(m, t, a, ss, i);
      LongKept(m, n, lo, hi, t + 4 * i);
    }
  }

  lemma PointersNext(m: seq<int>, n: seq<int>, t: int, a: int, ss: seq<Str>, i: nat)
    requires Only(m, n, t + 4 * i, t + 4 * i + 4) && Pointers(m, t, a, ss, i)
    requires i < |ss| && t + 4 * i + 4 <= |m| && LongAt(n, t + 4 * i) == a + Offset(ss, i)
    ensures Pointers(n, t, a, ss, i + 1)
  {
    PointersKept(m, n, t + 4 * i, t + 4 * i + 4, t, a, ss, i);
    assert Pointer(n, t, a, ss, i);
  }

  lemma OnlyChain(m: seq<int>, n: seq<int>, k: seq<int>, lo: int, mid: int, hi: int)
    requires Only(m, n, lo, mid) && Only(n, k, mid, hi) && lo <= mid <= hi
    ensures Only(m, k, lo, hi)
  {
    forall x | 0 <= x < |m| && !(lo <= x < hi) ensures k[x] == m[x] { assert n[x] == m[x]; }
  }

  lemma LaidAbove(m: seq<int>, n: seq<int>, lo: int, hi: int, a: int, ss: seq<Str>)
    requires Only(m, n, lo, hi) && hi <= a && Laid(m, a, ss, 0)
    ensures Laid(n, a, ss, 0)
  {
    LaidKept(m, n, hi, a, ss, 0);
  }

  /** A table at t filled with pointers to the strings laid out at a, and a null after them. */
  ghost predicate Filled(m: seq<int>, t: int, a: int, ss: seq<Str>) {
    && t + 4 * |ss| + 4 <= |m| && Pointers(m, t, a, ss, |ss|) && LongAt(m, t + 4 * |ss|) == 0
    && Laid(m, a, ss, 0)
  }

  lemma FilledKept(m: seq<int>, n: seq<int>, lo: int, hi: int, t: int, a: int, ss: seq<Str>)
    requires Only(m, n, lo, hi) && Filled(m, t, a, ss) && t + 4 * |ss| + 4 <= lo && hi <= a
    ensures Filled(n, t, a, ss)
  {
    PointersKept(m, n, lo, hi, t, a, ss, |ss|);
    LongKept(m, n, lo, hi, t + 4 * |ss|);
    LaidAbove(m, n, lo, hi, a, ss);
  }

  /** The i-th entry of the table at t points to a byte-exact copy of s. */
  ghost predicate Names(m: seq<int>, t: int, i: nat, s: Str) {
    0 <= t && t + 4 * i + 4 <= |m| && StringAt(m, LongAt(m, t + 4 * i), s)
  }

  ghost predicate Table(m: seq<int>, t: int, ss: seq<Str>) {
    && 0 <= t && t + 4 * |ss| + 4 <= |m|
    && (forall i {:trigger Names(m, t, i, ss[i])} :: 0 <= i < |ss| ==> Names(m, t, i, ss[i]))
    && LongAt(m, t + 4 * |ss|) == 0
  }

  lemma FilledIsTable(m: seq<int>, t: int, a: int, ss: seq<Str>)
    requires Filled(m, t, a, ss)
    ensures Table(m, t, ss)
  {
    forall i | 0 <= i < |ss| ensures Names(m, t, i, ss[i]) {
      assert Pointer(m, t, a, ss, i) && Placed(m, a, ss, i);
    }
  }

  /** The stack of a new process: argc, the argument pointers and a null, the environment pointers and a
      null. */
  ghost predicate Stack(m: seq<int>, sp: int, argv: seq<Str>, envp: seq<Str>) {
    && 0 <= sp && sp + 4 <= |m| && LongAt(m, sp) == |argv|
    && Table(m, sp + 4, argv) && Table(m, sp + 8 + 4 * |argv|, envp)
  }

  lemma StackBuilt(m: seq<int>, n: seq<int>, sp: int, p: int, argv: seq<Str>, envp: seq<Str>)
    requires |m| == |n| && 0 <= sp && sp + 8 + 4 * |argv| <= |m| && LongAt(m, sp) == |argv|
    requires var envTable := sp + 8 + 4 * |argv|;
             && Only(m, n, envTable, envTable + 4 * |envp| + 4) && envTable + 4 * |envp| + 4 <= p
             && Filled(m, sp + 4, p, argv) && Filled(n, envTable, p + Total(argv), envp)
    ensures Stack(n, sp, argv, envp)
  {
    var envTable := sp + 8 + 4 * |argv|;
    LongKept(m, n, envTable, envTable + 4 * |envp| + 4, sp);
    FilledKept(m, n, envTable, envTable + 4 * |envp| + 4, sp + 4, p, argv);
    FilledIsTable(n, sp + 4, p, argv);
    FilledIsTable(n, envTable, p + Total(argv), envp);
  }

  /** Memory n, from address d + lo on, holds what m holds from lo on. */
  ghost predicate Shifted(m: seq<int>, n: seq<int>, d: int, lo: int) {
    0 <= d && d + |m| <= |n| && forall k {:trigger m[k]} :: 0 <= k < |m| && lo <= k ==> n[d + k] == m[k]
  }

  lemma LaidShifted(m: seq<int>, n: seq<int>, d: int, lo: int, a: int, ss: seq<Str>)
    requires Shifted(m, n, d, lo) && Laid(m, a, ss, 0) && lo <= a
    ensures Laid(n, d + a, ss, 0)
  {
    var b := d + a;
    forall i | 0 <= i < |ss| ensures Placed(n, b, ss, i) {
      assert Placed(m, a, ss, i);
      StringShifted(m, n, d, lo, a + Offset(ss, i), ss[i]);
    }
  }

  lemma StringShifted(m: seq<int>, n: seq<int>, d: int, lo: int, a: int, s: Str)
    requires Shifted(m, n, d, lo) && StringAt(m, a, s) && lo <= a
    ensures StringAt(n, d + a, s)
  {
    forall k | 0 <= k < |s| ensures n[d + a + k] == s[k] { assert m[a + k] == s[k] && n[d + (a + k)] == m[a + k]; }
    assert n[d + (a + |s|)] == m[a + |s|];
  }

  class UserMemory {
    const mem: array<int>

    constructor ()
      ensures fresh(mem) && mem.Length == TOP
    {
      mem := new int[TOP](_ => 0);
    }

    /** put_fs_long */
    method PutLong(v: int, a: int)
      requires 0 <= a && a + 4 <= mem.Length && 0 <= v < WORD
      modifies mem
      ensures LongAt(mem[..], a) == v && Only(old(mem[..]), mem[..], a, a + 4)
    {
      FourBytes(v);
      mem[a] := v % 0x100;
      mem[a + 1] := v / 0x100 % 0x100;
      mem[a + 2] := v / 0x1_0000 % 0x100;
      mem[a + 3] := v / 0x100_0000 % 0x100;
    }

    /** while (get_fs_byte(p++)) ; */
    method Skip(p: int, ghost s: Str) returns (q: int)
      requires CString(s) && StringAt(mem[..], p, s)
      ensures q == p + |s| + 1
    {
      q := p;
      while mem[q] != 0
        invariant p <= q <= p + |s| && (q < p + |s| ==> mem[q] == s[q - p])
        decreases p + |s| - q
      {
        q := q + 1;
      }
      q := q + 1;
    }

    /** One of the two table loops of create_tables and the null after it (exec.c:73-77 and 78-82). */
    method FillTable(t: int, p: int, n: nat, ghost ss: seq<Str>) returns (q: int)
      requires mem.Length == TOP && n == |ss| && CStrings(ss) && Laid(mem[..], p, ss, 0)
      requires 0 <= t && t + 4 * n + 4 <= p && p + Total(ss) <= TOP
      modifies mem
      ensures q == p + Total(ss) && Only(old(mem[..]), mem[..], t, t + 4 * n + 4)
      ensures Filled(mem[..], t, p, ss)
    {
      var i := 0;
      q := p;
      while i < n
        invariant 0 <= i <= n && q == p + Offset(ss, i)
        invariant Only(old(mem[..]), mem[..], t, t + 4 * i) && Pointers(mem[..], t, p, ss, i)
      {
        q := FillEntry(t, p, q, i, old(mem[..]), ss);
        i := i + 1;
      }
      ghost var m := mem[..];
      PutLong(0, t + 4 * n);
      PointersKept(m, mem[..], t + 4 * n, t + 4 * n + 4, t, p, ss, n);
      LaidAbove(old(mem[..]), mem[..], t, t + 4 * n + 4, p, ss);
    }

    method FillEntry(t: int, p: int, q0: int, i: nat, ghost m: seq<int>, ghost ss: seq<Str>) returns (q: int)
      requires mem.Length == TOP && i < |ss| && CStrings(ss) && Laid(m, p, ss, 0) && q0 == p + Offset(ss, i)
      requires 0 <= t && t + 4 * |ss| + 4 <= p && p + Total(ss) <= TOP
      requires Only(m, mem[..], t, t + 4 * i) && Pointers(mem[..], t, p, ss, i)
      modifies mem
      ensures q == p + Offset(ss, i + 1)
      ensures Only(m, mem[..], t, t + 4 * (i + 1)) && Pointers(mem[..], t, p, ss, i + 1)
    {
      ghost var n := mem[..];
      OffsetMonotone(ss, i, |ss|);
      PutLong(q0, t + 4 * i);
      OnlyChain(m, n, mem[..], t, t + 4 * i, t + 4 * i + 4);
      PointersNext(n, mem[..], t, p, ss, i);
      LaidAbove(m, mem[..], t, t + 4 * (i + 1), p, ss);
      assert Placed(mem[..], p, ss, i) && CString(ss[i]);
      q := Skip(q0, ss[i]);
    }

    /** create_tables (exec.c:60-84). */
    method CreateTables(p: int, argc: nat, envc: nat, ghost argv: seq<Str>, ghost envp: seq<Str>) returns (sp: int)
      requires mem.Length == TOP && argc == |argv| && envc == |envp| && CStrings(argv) && CStrings(envp)
      requires Laid(mem[..], p, argv, 0) && Laid(mem[..], p + Total(argv), envp, 0)
      requires p + Total(argv) + Total(envp) <= TOP && 4 * (argc + envc + 3) + 3 <= p
      modifies mem
      ensures Stack(mem[..], sp, argv, envp) && sp % 4 == 0
      ensures sp + 4 * (argc + envc + 3) <= p < sp + 4 * (argc + envc + 3) + 4
      ensures Only(old(mem[..]), mem[..], sp, sp + 4 * (argc + envc + 3))
    {
      sp := p - p % 4;
      sp := sp - 4 * (envc + 1);
      var envTable := sp;
      sp := sp - 4 * (argc + 1);
      var argTable := sp;
      sp := sp - 4;
      WriteTables(sp, argTable, envTable, p, argc, envc, argv, envp);
    }

    method WriteTables(sp: int, argTable: int, envTable: int, p: int, argc: nat, envc: nat,
                       ghost argv: seq<Str>, ghost envp: seq<Str>)
      requires mem.Length == TOP && argc == |argv| && envc == |envp| && CStrings(argv) && CStrings(envp)
      requires Laid(mem[..], p, argv, 0) && Laid(mem[..], p + Total(argv), envp, 0)
      requires p + Total(argv) + Total(envp) <= TOP && 0 <= sp && argTable == sp + 4
      requires envTable == argTable + 4 * argc + 4 && envTable + 4 * envc + 4 <= p
      modifies mem
      ensures Stack(mem[..], sp, argv, envp) && Only(old(mem[..]), mem[..], sp, envTable + 4 * envc + 4)
    {
      ghost var m0 := mem[..];
      PutLong(argc, sp);
      ghost var m1 := mem[..];
      LaidAbove(m0, m1, sp, sp + 4, p, argv);
      var q := FillTable(argTable, p, argc, argv);
      ghost var m2 := mem[..];
      OnlyChain(m0, m1, m2, sp, sp + 4, envTable);
      LaidAbove(m0, m2, sp, envTable, p + Total(argv), envp);
      LongKept(m1, m2, argTable, envTable, sp);
      q := FillTable(envTable, q, envc, envp);
      ghost var m3 := mem[..];
      OnlyChain(m0, m2, m3, sp, envTable, envTable + 4 * envc + 4);
      StackBuilt(m2, m3, sp, p, argv, envp);
    }

    /** The pages of change_ldt (exec.c:154-159): page i appears 32 - i pages below the top. */
    method PlacePages(page: Pages)
      requires mem.Length == TOP
      modifies mem
      ensures forall k :: 0 <= k < ARG_BYTES && page[k / PAGE_SIZE] != [] ==> mem[TOP - ARG_BYTES + k] == Flat(page)[k]
    {
      var base := TOP;
      var i := MAX_ARG_PAGES;
      while i > 0
        invariant 0 <= i <= MAX_ARG_PAGES && base == TOP - (MAX_ARG_PAGES - i) * PAGE_SIZE
        invariant forall k :: i * PAGE_SIZE <= k < ARG_BYTES && page[k / PAGE_SIZE] != [] ==>
                    mem[TOP - ARG_BYTES + k] == Flat(page)[k]
      {
        i := i - 1;
        base := base - PAGE_SIZE;
        if page[i] != [] {
          forall k | 0 <= k < PAGE_SIZE { mem[base + k] := page[i][k]; }
        }
      }
    }
  }
  /** The part of do_execve that builds the stack (exec.c:419-428, 450-451). With the strings within the 32
      pages and enough pages to hold them, and only then, the new program finds its arguments. */
  method BuildStack(args: ArgPages, user: UserMemory, argv: seq<Str>, envp: seq<Str>) returns (r: Outcome)
    requires CStrings(argv) && CStrings(envp) && TakenFrom(args.page, MAX_ARG_PAGES) && user.mem.Length == TOP
    modifies args, user.mem
    ensures r.Ready? <==>
              && Total(argv) + Total(envp) < ARG_BYTES
              && old(args.free) >= MAX_ARG_PAGES - (ARG_BYTES - Total(envp) - Total(argv)) / PAGE_SIZE
    ensures r.Ready? ==> Stack(user.mem[..], r.p, argv, envp) && r.p % 4 == 0
    ensures r.Failed? ==>
              user.mem[..] == old(user.mem[..]) && args.free == old(args.free + Taken(args.page, |args.page|))
  {
    r := args.CopyArgs(argv, envp);
    if !r.Ready? { return; }
    var p := r.p;
    user.PlacePages(args.page);
    ghost var m, d := Flat(args.page), TOP - ARG_BYTES;
    PlacedShifted(args.page, user.mem[..], p);
    LaidShifted(m, user.mem[..], d, p, p, argv);
    LaidShifted(m, user.mem[..], d, p, p + Total(argv), envp);
    p := p + (TOP - MAX_ARG_PAGES * PAGE_SIZE);
    OffsetMonotone(argv, 0, |argv|);
    OffsetMonotone(envp, 0, |envp|);
    p := user.CreateTables(p, |argv|, |envp|, argv, envp);
    r := Ready(p);
  }

  lemma PlacedShifted(page: Pages, n: seq<int>, p: int)
    requires 0 <= p <= ARG_BYTES && TakenFrom(page, p / PAGE_SIZE) && |n| == TOP
    requires forall k :: 0 <= k < ARG_BYTES && page[k / PAGE_SIZE] != [] ==> n[TOP - ARG_BYTES + k] == Flat(page)[k]
    ensures Shifted(Flat(page), n, TOP - ARG_BYTES, p)
  {
    forall k | 0 <= k < ARG_BYTES && p <= k ensures n[TOP - ARG_BYTES + k] == Flat(page)[k] {
      LowerPages(p, k);
      assert k / PAGE_SIZE < MAX_ARG_PAGES;
    }
  }
}

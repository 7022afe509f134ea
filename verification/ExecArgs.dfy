/**
  The argument pages of do_execve (fs/exec.c): copy_strings copies the strings downwards, byte by byte, into
  pages taken as they are needed.
 */
module ExecArgs {

  const PAGE_SIZE := 4096
  const MAX_ARG_PAGES := 32
  const ARG_BYTES := 131072

  type Str = seq<int>

  ghost predicate CString(s: Str) { forall i {:trigger s[i]} :: 0 <= i < |s| ==> s[i] != 0 }

  ghost predicate CStrings(ss: seq<Str>) { forall i {:trigger CString(ss[i])} :: 0 <= i < |ss| ==> CString(ss[i]) }

  /** Where string i starts when the strings are laid out one after the other, each with its NUL. */
  function Offset(ss: seq<Str>, i: nat): (n: nat)
    requires i <= |ss|
    ensures n >= i
  {
    if i == 0 then 0 else Offset(ss, i - 1) + |ss[i - 1]| + 1
  }

  function Total(ss: seq<Str>): nat { Offset(ss, |ss|) }

  lemma {:induction false} OffsetMonotone(ss: seq<Str>, i: nat, j: nat)
    requires i <= j <= |ss|
    ensures Offset(ss, i) <= Offset(ss, j)
    ensures i < j ==> Offset(ss, i) + |ss[i]| + 1 <= Offset(ss, j)
    decreases j
  {
    if i < j { OffsetMonotone(ss, i, j - 1); }
  }

  /** The bytes of s and a NUL stand at address a. */
  ghost predicate StringAt(m: seq<int>, a: int, s: Str) {
    0 <= a && a + |s| < |m| && (forall k {:trigger s[k]} :: 0 <= k < |s| ==> m[a + k] == s[k]) && m[a + |s|] == 0
  }

  /** The strings stand one after the other from address a on. */
  ghost predicate Laid(m: seq<int>, a: int, ss: seq<Str>, from: nat) {
    from <= |ss| && forall i {:trigger Placed(m, a, ss, i)} :: from <= i < |ss| ==> Placed(m, a, ss, i)
  }

  ghost predicate Placed(m: seq<int>, a: int, ss: seq<Str>, i: nat) {
    i < |ss| && StringAt(m, a + Offset(ss, i), ss[i])
  }

  ghost predicate SameFrom(m: seq<int>, n: seq<int>, lo: int) {
    |m| == |n| && forall x :: 0 <= x < |m| && lo <= x ==> n[x] == m[x]
  }

  lemma StringKept(m: seq<int>, n: seq<int>, lo: int, a: int, s: Str)
    requires SameFrom(m, n, lo) && lo <= a && StringAt(m, a, s)
    ensures StringAt(n, a, s)
  {
    forall k | 0 <= k < |s| ensures n[a + k] == s[k] { assert m[a + k] == s[k]; }
  }

  lemma LaidKept(m: seq<int>, n: seq<int>, lo: int, a: int, ss: seq<Str>, from: nat)
    requires SameFrom(m, n, lo) && Laid(m, a, ss, from) && lo <= a + Offset(ss, from)
    ensures Laid(n, a, ss, from)
  {
    forall i | from <= i < |ss| ensures Placed(n, a, ss, i) {
      assert Placed(m, a, ss, i);
      OffsetMonotone(ss, from, i);
      StringKept(m, n, lo, a + Offset(ss, i), ss[i]);
    }
  }

  // ------------------------------------------------------------------ pages

  type Pages = p: seq<seq<int>> | |p| == MAX_ARG_PAGES &&
    forall i :: 0 <= i < |p| ==> |p[i]| == 0 || |p[i]| == PAGE_SIZE
    witness seq(MAX_ARG_PAGES, _ => [])

  function ByteOf(page: Pages, k: int): int
    requires 0 <= k < ARG_BYTES
  {
    if page[k / PAGE_SIZE] == [] then 0 else page[k / PAGE_SIZE][k % PAGE_SIZE]
  }

  /** The pages as one stretch of memory; pages not taken yet count as zero, as they will be. */
  function Flat(page: Pages): (m: seq<int>)
    ensures |m| == ARG_BYTES
  {
    seq(ARG_BYTES, k requires 0 <= k < ARG_BYTES => ByteOf(page, k))
  }

  lemma FlatStore(page: Pages, k: int, v: int)
    requires 0 <= k < ARG_BYTES && page[k / PAGE_SIZE] != []
    ensures var page' := page[k / PAGE_SIZE := page[k / PAGE_SIZE][k % PAGE_SIZE := v]];
            |page'| == MAX_ARG_PAGES && (forall i :: 0 <= i < |page'| ==> |page'[i]| == 0 || |page'[i]| == PAGE_SIZE) &&
            Flat(page') == Flat(page)[k := v]
  {
    var page': Pages := page[k / PAGE_SIZE := page[k / PAGE_SIZE][k % PAGE_SIZE := v]];
    forall j | 0 <= j < ARG_BYTES ensures Flat(page')[j] == Flat(page)[k := v][j] {
      StoreByte(page, page', k, v, j);
    }
  }

  lemma StoreByte(page: Pages, page': Pages, k: int, v: int, j: int)
    requires 0 <= k < ARG_BYTES && page[k / PAGE_SIZE] != [] && 0 <= j < ARG_BYTES
    requires page' == page[k / PAGE_SIZE := page[k / PAGE_SIZE][k % PAGE_SIZE := v]]
    ensures ByteOf(page', j) == if j == k then v else ByteOf(page, j)
  {
    if j / PAGE_SIZE == k / PAGE_SIZE && j % PAGE_SIZE == k % PAGE_SIZE { assert j == k; }
  }

  function Zeros(): (z: seq<int>)
    ensures |z| == PAGE_SIZE && forall i :: 0 <= i < PAGE_SIZE ==> z[i] == 0
  {
    seq(PAGE_SIZE, _ => 0)
  }

  lemma FlatTake(page: Pages, i: int)
    requires 0 <= i < MAX_ARG_PAGES && page[i] == []
    ensures Flat(page[i := Zeros()]) == Flat(page)
  {
    var page': Pages := page[i := Zeros()];
    forall j | 0 <= j < ARG_BYTES ensures Flat(page')[j] == Flat(page)[j] {
      assert ByteOf(page', j) == ByteOf(page, j);
    }
  }

  /** The first string from which on, going down from the last one, all fit below p. */
  function FitFrom(ss: seq<Str>, p: int, j: nat): (k: nat)
    requires j <= |ss| && Total(ss) - Offset(ss, j) <= p
    ensures k <= j && Total(ss) - Offset(ss, k) <= p && (k > 0 ==> Total(ss) - Offset(ss, k - 1) > p)
    decreases j
  {
    if j == 0 then 0 else if Total(ss) - Offset(ss, j - 1) <= p then FitFrom(ss, p, j - 1) else j
  }

  /** How much copy_strings has to place below p until all is copied or the next string does not fit. */
  function FitTotal(ss: seq<Str>, p: int): nat
    requires 0 <= p
  {
    OffsetMonotone(ss, FitFrom(ss, p, |ss|), |ss|);
    Total(ss) - Offset(ss, FitFrom(ss, p, |ss|))
  }

  /** The pages for that are not to be had. */
  predicate Short(ss: seq<Str>, p: int, free: int)
    requires 0 <= p
  {
    free < p / PAGE_SIZE - (p - FitTotal(ss, p)) / PAGE_SIZE
  }

  /** The strings from number i on fit, as far as the one that does not. */
  ghost predicate FitSoFar(ss: seq<Str>, p: int, i: nat) {
    0 <= p && i <= |ss| && Total(ss) - Offset(ss, i) <= p && FitFrom(ss, p, i) == FitFrom(ss, p, |ss|)
  }

  lemma FitsWhole(ss: seq<Str>, p: int, free: int)
    requires 0 <= p
    ensures FitSoFar(ss, p, |ss|)
    ensures Total(ss) <= p ==> FitTotal(ss, p) == Total(ss)
    ensures Total(ss) > p ==> !FitSoFar(ss, p, 0)
  {
  }

  /** What copy_strings meets at string i, having come down to q with `now` pages left of `free`. */
  lemma FitNext(ss: seq<Str>, p: int, i: nat, q: int, now: nat, free: nat)
    requires i < |ss| && FitSoFar(ss, p, i + 1) && q == p - (Total(ss) - Offset(ss, i + 1))
    requires now == free - (p / PAGE_SIZE - q / PAGE_SIZE)
    ensures var low := q - |ss[i]| - 1;
            && (low < 0 ==> Total(ss) > p && !Short(ss, p, free))
            && (low >= 0 ==> FitSoFar(ss, p, i))
            && (low >= 0 && now < q / PAGE_SIZE - low / PAGE_SIZE ==> Short(ss, p, free))
  {
    var low := q - |ss[i]| - 1;
    if low >= 0 {
      OffsetMonotone(ss, FitFrom(ss, p, |ss|), i);
      LowerPages(p - FitTotal(ss, p), low);
    }
  }

  /** When do_execve leaves the page array: the environment ran out of pages and an argument is copied below
      address 0; or the strings do not fit, and pages last until that shows. */
  predicate Overruns(argv: seq<Str>, envp: seq<Str>, free: int) {
    if Short(envp, ARG_BYTES, free) then argv != []
    else
      Total(envp) > ARG_BYTES ||
      (var q := ARG_BYTES - Total(envp);
       Total(argv) > q && !Short(argv, q, free - (MAX_ARG_PAGES - q / PAGE_SIZE)))
  }

  // ------------------------------------------------------------------ copying

  /** Exactly the pages from `first` on have been taken. */
  ghost predicate TakenFrom(page: Pages, first: int) {
    forall i :: 0 <= i < MAX_ARG_PAGES ==> (page[i] != [] <==> i >= first)
  }

  /** How many of the first k pages have been taken. */
  ghost function Taken(page: Pages, k: nat): nat
    requires k <= MAX_ARG_PAGES
  {
    if k == 0 then 0 else Taken(page, k - 1) + (if page[k - 1] != [] then 1 else 0)
  }

  lemma {:induction false} TakenUpdate(page: Pages, i: nat, v: seq<int>, k: nat)
    requires i < MAX_ARG_PAGES && k <= MAX_ARG_PAGES && (v == [] || |v| == PAGE_SIZE)
    ensures var d := (if v != [] then 1 else 0) - (if page[i] != [] then 1 else 0);
            Taken(page[i := v], k) == Taken(page, k) + if i < k then d else 0
    decreases k
  {
    if k > 0 { TakenUpdate(page, i, v, k - 1); }
  }

  /** The result of copying: the new lowest address; no page left; or p has run below 0, which the unsigned
      comparison in the code does not notice: the copy leaves the page array, or panics first at a page that
      was not taken. */
  datatype Copy = At(p: int) | NoPage | Wild

  datatype Outcome = Ready(p: int) | Failed | Lost

  class ArgPages {
    var page: Pages
    var free: nat

    constructor (pages: nat)
      ensures free == pages && page == seq(MAX_ARG_PAGES, _ => []) && TakenFrom(page, MAX_ARG_PAGES)
      ensures Taken(page, |page|) == 0
    {
      page := seq(MAX_ARG_PAGES, _ => []);
      free := pages;
      new;
      NoneTaken(page, MAX_ARG_PAGES);
    }

    /** The loop that takes missing pages (exec.c:121-126). */
    method TakePages(i0: nat, ghost first: nat) returns (ok: bool)
      requires i0 <= first <= MAX_ARG_PAGES && TakenFrom(page, first)
      modifies this
      ensures Flat(page) == old(Flat(page)) && free + Taken(page, |page|) == old(free + Taken(page, |page|))
      ensures ok <==> old(free) >= first - i0
      ensures ok ==> TakenFrom(page, i0) && free == old(free) - (first - i0)
    {
      var i := i0;
      while i < MAX_ARG_PAGES && page[i] == []
        invariant i0 <= i <= first && free == old(free) - (i - i0)
        invariant forall k :: 0 <= k < MAX_ARG_PAGES ==> (page[k] != [] <==> i0 <= k < i || first <= k)
        invariant Flat(page) == old(Flat(page)) && free + Taken(page, |page|) == old(free + Taken(page, |page|))
      {
        if free == 0 { return false; }
        FlatTake(page, i);
        TakenUpdate(page, i, Zeros(), |page|);
        page := page[i := Zeros()];
        free := free - 1;
        i := i + 1;
      }
      ok := true;
    }

    /** One byte into its page (exec.c:128-132). */
    method PutByte(p: int, v: int)
      requires 0 <= p < ARG_BYTES && page[p / PAGE_SIZE] != []
      modifies this`page
      ensures Flat(page) == old(Flat(page))[p := v] && SameTaken(old(page), page)
    {
      FlatStore(page, p, v);
      TakenUpdate(page, p / PAGE_SIZE, page[p / PAGE_SIZE][p % PAGE_SIZE := v], |page|);
      page := page[p / PAGE_SIZE := page[p / PAGE_SIZE][p % PAGE_SIZE := v]];
    }

    /** The do loop that copies a string from its NUL down to its first byte (exec.c:127-133). */
    method CopyDown(t: seq<int>, p: int)
      requires 0 < |t| <= p <= ARG_BYTES && TakenFrom(page, (p - |t|) / PAGE_SIZE)
      modifies this`page
      ensures SameTaken(old(page), page)
      ensures forall x :: 0 <= x < ARG_BYTES ==>
                Flat(page)[x] == if p - |t| <= x < p then t[x - (p - |t|)] else old(Flat(page))[x]
    {
      var q, len := p, |t|;
      while len > 0
        invariant 0 <= len <= |t| && q == p - |t| + len && SameTaken(old(page), page)
        invariant forall x :: 0 <= x < ARG_BYTES ==>
                    Flat(page)[x] == if q <= x < p then t[x - (p - |t|)] else old(Flat(page))[x]
      {
        q := q - 1;
        assert (p - |t|) / PAGE_SIZE <= q / PAGE_SIZE < MAX_ARG_PAGES;
        PutByte(q, t[len - 1]);
        len := len - 1;
      }
    }

    /** One string (exec.c:115-133), to below p. */
    method CopyString(s: Str, p: int) returns (r: Copy)
      requires CString(s) && 0 <= p <= ARG_BYTES && TakenFrom(page, p / PAGE_SIZE)
      modifies this
      ensures free + Taken(page, |page|) == old(free + Taken(page, |page|))
      ensures r.Wild? <==> p < |s| + 1
      ensures r.At? <==> p >= |s| + 1 && old(free) >= p / PAGE_SIZE - (p - |s| - 1) / PAGE_SIZE
      ensures r.At? ==>
                && r.p == p - |s| - 1 && TakenFrom(page, r.p / PAGE_SIZE)
                && free == old(free) - (p / PAGE_SIZE - r.p / PAGE_SIZE)
                && StringAt(Flat(page), r.p, s) && SameFrom(old(Flat(page)), Flat(page), p)
    {
      var t := s + [0];
      var len := 0;
      while t[len] != 0
        invariant 0 <= len <= |s|
        decreases |s| - len
      {
        len := len + 1;
      }
      len := len + 1;
      assert len == |t|;
      if p < len { return Wild; }
      var ok := TakePages((p - len) / PAGE_SIZE, p / PAGE_SIZE);
      if !ok { return NoPage; }
      CopyDown(t, p);
      r := At(p - len);
      CopiedString(old(Flat(page)), Flat(page), p - len, s);
    }

    /** copy_strings (exec.c:106-136): the last string first. It succeeds exactly when the strings fit below p
        and the pages they need can be had. */
    method CopyStrings(ss: seq<Str>, p: int) returns (r: Copy)
      requires CStrings(ss) && 0 <= p <= ARG_BYTES && TakenFrom(page, p / PAGE_SIZE)
      modifies this
      ensures free + Taken(page, |page|) == old(free + Taken(page, |page|))
      ensures r.Wild? <==> Total(ss) > p && !Short(ss, p, old(free))
      ensures r.NoPage? <==> Short(ss, p, old(free))
      ensures r.At? <==> Total(ss) <= p && old(free) >= p / PAGE_SIZE - (p - Total(ss)) / PAGE_SIZE
      ensures r.At? ==>
                && r.p == p - Total(ss) && TakenFrom(page, r.p / PAGE_SIZE)
                && free == old(free) - (p / PAGE_SIZE - r.p / PAGE_SIZE)
                && Laid(Flat(page), r.p, ss, 0) && SameFrom(old(Flat(page)), Flat(page), p)
    {
      var argc: nat := |ss|;
      var q := p;
      FitsWhole(ss, p, free);
      ghost var base := p - Total(ss);
      while argc > 0
        invariant Going(ss, p, argc, q, old(free), free, page)
        invariant free + Taken(page, |page|) == old(free + Taken(page, |page|))
        invariant Down(Flat(page), base, ss, argc, q) && SameFrom(old(Flat(page)), Flat(page), p)
      {
        argc := argc - 1;
        r := CopyNext(ss, p, argc, q, base, old(free), old(Flat(page)));
        if !r.At? { return; }
        q := r.p;
      }
      r := At(q);
    }

    /** One turn of the loop: string argc, to below q. */
    method CopyNext(ss: seq<Str>, ghost p: int, argc: nat, q: int, ghost base: int, ghost free0: nat, ghost m: seq<int>)
      returns (r: Copy)
      requires CStrings(ss) && argc < |ss| && Going(ss, p, argc + 1, q, free0, free, page)
      requires Down(Flat(page), base, ss, argc + 1, q) && SameFrom(m, Flat(page), p)
      modifies this
      ensures free + Taken(page, |page|) == old(free + Taken(page, |page|))
      ensures r.Wild? ==> Total(ss) > p && !Short(ss, p, free0)
      ensures r.NoPage? ==> Short(ss, p, free0)
      ensures r.At? ==>
                && Going(ss, p, argc, r.p, free0, free, page)
                && Down(Flat(page), base, ss, argc, r.p) && SameFrom(m, Flat(page), p)
    {
      ghost var before := Flat(page);
      FitNext(ss, p, argc, q, free, free0);
      r := CopyString(ss[argc], q);
      DownNext(before, Flat(page), base, ss, argc, q);
    }

    /** do_execve gives every page back when the strings could not be copied (exec.c:423-428). */
    method FreeAll()
      modifies this
      ensures free == old(free + Taken(page, |page|)) && Taken(page, |page|) == 0 && TakenFrom(page, MAX_ARG_PAGES)
    {
      var i := 0;
      while i < MAX_ARG_PAGES
        invariant 0 <= i <= MAX_ARG_PAGES && free + Taken(page, |page|) == old(free + Taken(page, |page|))
        invariant forall k :: 0 <= k < i ==> page[k] == []
      {
        if page[i] != [] {
          TakenUpdate(page, i, [], |page|);
          page := page[i := []];
          free := free + 1;
        }
        i := i + 1;
      }
      NoneTaken(page, |page|);
    }

    /** The two calls of copy_strings in do_execve (exec.c:419-428): environment first, arguments below it.
        A result of 0 means failure, also when the strings fill the pages to the last byte; a first call
        that fails does not keep the second from running. */
    method CopyArgs(argv: seq<Str>, envp: seq<Str>) returns (r: Outcome)
      requires CStrings(argv) && CStrings(envp) && TakenFrom(page, MAX_ARG_PAGES)
      modifies this
      ensures r.Ready? <==>
                && Total(argv) + Total(envp) < ARG_BYTES
                && old(free) >= MAX_ARG_PAGES - (ARG_BYTES - Total(envp) - Total(argv)) / PAGE_SIZE
      ensures r.Ready? ==>
                && r.p == ARG_BYTES - Total(envp) - Total(argv) && TakenFrom(page, r.p / PAGE_SIZE)
                && Laid(Flat(page), r.p, argv, 0) && Laid(Flat(page), r.p + Total(argv), envp, 0)
      ensures r.Failed? ==> free == old(free + Taken(page, |page|)) && TakenFrom(page, MAX_ARG_PAGES)
      ensures r.Lost? <==> Overruns(argv, envp, old(free))
      ensures old(free) >= MAX_ARG_PAGES ==>
                && (r.Failed? <==> Total(argv) + Total(envp) == ARG_BYTES)
                && (r.Lost? <==> Total(argv) + Total(envp) > ARG_BYTES)
    {
      var e := CopyStrings(envp, ARG_BYTES);
      if e.Wild? { return Lost; }
      if e.NoPage? {
        // p is 0: the first argument, if there is one, runs below it
        if argv != [] { return Lost; }
        FreeAll();
        return Failed;
      }
      ghost var before := Flat(page);
      var a := CopyStrings(argv, e.p);
      if a.Wild? { return Lost; }
      if a.NoPage? || a.p == 0 {
        FreeAll();
        return Failed;
      }
      LaidKept(before, Flat(page), e.p, e.p, envp, 0);
      r := Ready(a.p);
    }
  }

  lemma CopiedString(m: seq<int>, n: seq<int>, a: int, s: Str)
    requires |m| == |n| && 0 <= a && a + |s| < |m|
    requires forall x :: 0 <= x < |m| ==> n[x] == if a <= x < a + |s| + 1 then (s + [0])[x - a] else m[x]
    ensures StringAt(n, a, s) && SameFrom(m, n, a + |s| + 1)
  {
  }

  /** The strings from number i on have been copied, down to address q. */
  ghost predicate Down(m: seq<int>, a: int, ss: seq<Str>, i: nat, q: int) {
    i <= |ss| && Laid(m, a, ss, i) && q == a + Offset(ss, i)
  }

  /** copy_strings has come down from p to q, with the strings before number i still to copy. */
  ghost predicate Going(ss: seq<Str>, p: int, i: nat, q: int, free0: int, free: int, page: Pages) {
    && FitSoFar(ss, p, i) && q == p - (Total(ss) - Offset(ss, i)) && 0 <= q <= p <= ARG_BYTES
    && TakenFrom(page, q / PAGE_SIZE) && free == free0 - (p / PAGE_SIZE - q / PAGE_SIZE)
  }

  lemma DownNext(m: seq<int>, n: seq<int>, a: int, ss: seq<Str>, i: nat, q: int)
    requires i < |ss| && Down(m, a, ss, i + 1, q)
    ensures a <= q - |ss[i]| - 1
    ensures SameFrom(m, n, q) && StringAt(n, q - |ss[i]| - 1, ss[i]) ==> Down(n, a, ss, i, q - |ss[i]| - 1)
  {
    if SameFrom(m, n, q) && StringAt(n, q - |ss[i]| - 1, ss[i]) {
      LaidKept(m, n, q, a, ss, i + 1);
      assert Placed(n, a, ss, i);
    }
  }

  lemma LowerPages(a: int, b: int)
    requires a <= b
    ensures a / PAGE_SIZE <= b / PAGE_SIZE && (0 <= a ==> 0 <= a / PAGE_SIZE)
  {
  }

  ghost predicate SameTaken(a: Pages, b: Pages) {
    && (forall i :: 0 <= i < MAX_ARG_PAGES ==> (a[i] == [] <==> b[i] == []))
    && Taken(a, |a|) == Taken(b, |b|)
  }

  lemma {:induction false} NoneTaken(page: Pages, k: nat)
    requires k <= MAX_ARG_PAGES && TakenFrom(page, MAX_ARG_PAGES)
    ensures Taken(page, k) == 0
  {
    if k > 0 { NoneTaken(page, k - 1); }
  }
}

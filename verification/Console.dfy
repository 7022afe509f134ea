/**
  The console of kernel/console.c. The screen is a window of 2000 cells in 16384 cells of video memory;
  scrolling the whole screen moves the window, and copies it back when it reaches the end.
  Addresses are counted in 16-bit cells from SCREEN_START.
 */
module Consoles {
  import opened Terminal

  const SCREEN_CELLS := 0x4000
  // address 0, where `pos` stands before the cursor has been placed
  const NOWHERE := -0x5c000

  /** From memory a to memory b nothing outside the window at `lo` has changed. */
  ghost predicate OnlyWindow(a: seq<int>, b: seq<int>, lo: int) {
    |a| == |b| && forall i :: 0 <= i < |a| && (i < lo || lo + CELLS <= i) ==> b[i] == a[i]
  }

  /** One store to video memory: the cell, the window it is made for, and what `origin` was at the time. */
  datatype Entry = Entry(window: int, cell: int, origin: int)

  /** The window is the one at `origin`, or, when that has run off the end of video memory, the one at its start,
      where the screen is being moved to. */
  predicate Aims(window: int, origin: int) { window == origin || (window == 0 && origin + CELLS > SCREEN_CELLS) }

  predicate Inside(e: Entry) { 0 <= e.window <= e.cell < e.window + CELLS <= SCREEN_CELLS && Aims(e.window, e.origin) }

  ghost predicate AllInside(log: set<Entry>) { forall e :: e in log ==> Inside(e) }

  /** The stores since `before` were all made for the window at lo. */
  ghost predicate Since(before: set<Entry>, log: set<Entry>, lo: int) {
    before <= log && forall e :: e in log && e !in before ==> e.window == lo
  }

  // ------------------------------------------------------------------ memory and what it shows

  ghost predicate Fits(a: seq<int>, b: seq<int>, lo: int) { |a| == |b| && 0 <= lo && lo + CELLS <= |a| }

  /** Cells lo + 80*top .. lo + 80*bottom moved up by a row. */
  ghost predicate RegionMovedUp(a: seq<int>, b: seq<int>, lo: int, top: int, bottom: int) {
    && |a| == |b|
    && forall i {:trigger b[i]} :: 0 <= i < |a| ==>
         b[i] == if lo + COLUMNS * top <= i < lo + COLUMNS * (bottom - 1) && i + COLUMNS < |a| then a[i + COLUMNS]
                 else if lo + COLUMNS * (bottom - 1) <= i < lo + COLUMNS * bottom then BLANK else a[i]
  }

  ghost predicate RegionMovedDown(a: seq<int>, b: seq<int>, lo: int, top: int, bottom: int) {
    && |a| == |b|
    && forall i {:trigger b[i]} :: 0 <= i < |a| ==>
         b[i] == if lo + COLUMNS * (top + 1) <= i < lo + COLUMNS * bottom && COLUMNS <= i then a[i - COLUMNS]
                 else if lo + COLUMNS * top <= i < lo + COLUMNS * (top + 1) then BLANK else a[i]
  }

  /** The 24 rows from lo on moved to the start of memory, with a blank row after them. */
  ghost predicate MovedBack(a: seq<int>, b: seq<int>, lo: int) {
    && |a| == |b|
    && forall i {:trigger b[i]} :: 0 <= i < |a| ==>
         b[i] == if i < CELLS - COLUMNS && 0 <= i + lo < |a| then a[i + lo] else if i < CELLS then BLANK else a[i]
  }

  ghost predicate RowAppended(a: seq<int>, b: seq<int>, lo: int) {
    && |a| == |b|
    && forall i {:trigger b[i]} :: 0 <= i < |a| ==> b[i] == if lo + CELLS - COLUMNS <= i < lo + CELLS then BLANK
       else a[i]
  }

  lemma RegionUpShows(a: seq<int>, b: seq<int>, lo: int, top: int, bottom: int)
    requires Fits(a, b, lo) && 0 <= top < bottom <= LINES && RegionMovedUp(a, b, lo, top, bottom)
    ensures b[lo..lo + CELLS] == ScrolledUp(a[lo..lo + CELLS], top, bottom) && OnlyWindow(a, b, lo)
  {
    var shown, want := b[lo..lo + CELLS], ScrolledUp(a[lo..lo + CELLS], top, bottom);
    forall i | 0 <= i < CELLS ensures shown[i] == want[i] { assert shown[i] == b[lo + i]; }
  }

  lemma RegionDownShows(a: seq<int>, b: seq<int>, lo: int, top: int, bottom: int)
    requires Fits(a, b, lo) && 0 <= top < bottom <= LINES && RegionMovedDown(a, b, lo, top, bottom)
    ensures b[lo..lo + CELLS] == ScrolledDown(a[lo..lo + CELLS], top, bottom) && OnlyWindow(a, b, lo)
  {
    var shown, want := b[lo..lo + CELLS], ScrolledDown(a[lo..lo + CELLS], top, bottom);
    forall i | 0 <= i < CELLS ensures shown[i] == want[i] { assert shown[i] == b[lo + i]; }
  }

  lemma MovedBackShows(a: seq<int>, b: seq<int>, lo: int)
    requires |a| == SCREEN_CELLS && CELLS <= lo && lo + CELLS - COLUMNS <= |a| && MovedBack(a, b, lo)
    ensures b[0..CELLS] == ScrolledUp(a[lo - COLUMNS..lo - COLUMNS + CELLS], 0, LINES) && OnlyWindow(a, b, 0)
  {
    var shown, want := b[0..CELLS], ScrolledUp(a[lo - COLUMNS..lo - COLUMNS + CELLS], 0, LINES);
    forall i | 0 <= i < CELLS ensures shown[i] == want[i] { assert shown[i] == b[i]; }
  }

  lemma RowAppendedShows(a: seq<int>, b: seq<int>, lo: int)
    requires Fits(a, b, lo) && COLUMNS <= lo && RowAppended(a, b, lo)
    ensures b[lo..lo + CELLS] == ScrolledUp(a[lo - COLUMNS..lo - COLUMNS + CELLS], 0, LINES) && OnlyWindow(a, b, lo)
  {
    var shown, want := b[lo..lo + CELLS], ScrolledUp(a[lo - COLUMNS..lo - COLUMNS + CELLS], 0, LINES);
    forall i | 0 <= i < CELLS ensures shown[i] == want[i] { assert shown[i] == b[lo + i]; }
  }

  /** From cell p on, `count` cells take the one after them, and a blank follows. */
  ghost predicate CharDropped(a: seq<int>, b: seq<int>, p: int, count: int) {
    && |a| == |b|
    && forall i {:trigger b[i]} :: 0 <= i < |a| ==>
         b[i] == if p <= i < p + count && i + 1 < |a| then a[i + 1] else if i == p + count then BLANK else a[i]
  }

  lemma DeleteShows(a: seq<int>, b: seq<int>, lo: int, x: int, y: int)
    requires Fits(a, b, lo) && 0 <= x < COLUMNS && 0 <= y < LINES
    requires CharDropped(a, b, lo + (y * COLUMNS + x), COLUMNS - 1 - x)
    ensures b[lo..lo + CELLS] == CharDeleted(a[lo..lo + CELLS], x, y) && OnlyWindow(a, b, lo)
  {
    var shown, want := b[lo..lo + CELLS], CharDeleted(a[lo..lo + CELLS], x, y);
    forall i | 0 <= i < CELLS ensures shown[i] == want[i] { assert shown[i] == b[lo + i]; }
  }

  lemma NothingDeleted(s: Screen, x: int, y: int)
    requires |s| == CELLS && x == COLUMNS && 0 <= y < LINES
    ensures CharDeleted(s, x, y) == s
  {
  }

  /** From cell p on, `count` cells take the one before them, the first a blank. */
  ghost predicate CharPushed(a: seq<int>, b: seq<int>, p: int, count: int) {
    && |a| == |b|
    && forall i {:trigger b[i]} :: 0 <= i < |a| ==>
         b[i] == if p < i < p + count && 0 < i then a[i - 1] else if i == p && count > 0 then BLANK else a[i]
  }

  lemma InsertShows(a: seq<int>, b: seq<int>, lo: int, x: int, y: int)
    requires Fits(a, b, lo) && 0 <= x <= COLUMNS && 0 <= y < LINES
    requires CharPushed(a, b, lo + (y * COLUMNS + x), COLUMNS - x)
    ensures b[lo..lo + CELLS] == CharInserted(a[lo..lo + CELLS], x, y) && OnlyWindow(a, b, lo)
  {
    var shown, want := b[lo..lo + CELLS], CharInserted(a[lo..lo + CELLS], x, y);
    forall i | 0 <= i < CELLS ensures shown[i] == want[i] { assert shown[i] == b[lo + i]; }
  }

  /** `count` cells from `start` on blanked. */
  ghost predicate Blanked(a: seq<int>, b: seq<int>, start: int, count: int) {
    && |a| == |b|
    && forall i {:trigger b[i]} :: 0 <= i < |a| ==> b[i] == if start <= i < start + count then BLANK else a[i]
  }

  lemma BlankShows(a: seq<int>, b: seq<int>, lo: int, start: int, count: int)
    requires Fits(a, b, lo) && lo <= start && 0 <= count && start + count <= lo + CELLS && Blanked(a, b, start, count)
    ensures b[lo..lo + CELLS] == Erased(a[lo..lo + CELLS], start - lo, count) && OnlyWindow(a, b, lo)
  {
    var shown, want := b[lo..lo + CELLS], Erased(a[lo..lo + CELLS], start - lo, count);
    forall i | 0 <= i < CELLS ensures shown[i] == want[i] { assert shown[i] == b[lo + i]; }
  }

  class Console {
    const vram: array<int>
    var origin: int
    var scrEnd: int
    var pos: int
    var x: int
    var y: int
    var top: int
    var bottom: int
    var state: int
    var npar: int
    var par: seq<int>
    var ques: bool
    var attr: int
    var savedX: int
    var savedY: int
    var replies: int
    // every store ever made to video memory, with the window it was made for
    ghost var log: set<Entry>

    /** The window lies in video memory, and every store made so far fell in the window it was made for. */
    ghost predicate Window()
      reads this
    {
      vram.Length == SCREEN_CELLS && 0 <= origin && scrEnd == origin + CELLS <= SCREEN_CELLS && AllInside(log)
    }

    ghost predicate Ready(lo: int, start: int, end: int)
      reads this
    {
      && vram.Length == SCREEN_CELLS && 0 <= lo <= start && end <= lo + CELLS <= SCREEN_CELLS && AllInside(log)
      && Aims(lo, origin)
    }

    ghost predicate Ranges()
      reads this
    {
      0 <= x <= COLUMNS && Ranges0()
    }

    ghost predicate Ranges0()
      reads this
    {
      && 0 <= y < LINES && 0 <= top < bottom <= LINES
      && 0 <= state <= 3 && 0 <= npar < NPAR && ParOk(par)
      && 0 <= savedX <= COLUMNS && 0 <= savedY < LINES
    }

    ghost predicate Valid()
      reads this
    {
      Window() && Ranges() && pos == origin + (y * COLUMNS + x)
    }

    /** What the screen shows. */
    ghost function Shown(): (s: Screen)
      requires Window()
      reads this, vram
      ensures |s| == CELLS
    {
      vram[origin..origin + CELLS]
    }

    /** The terminal this console presents; parameters matter only while they are being read. */
    ghost function T(): (t: Term)
      requires Valid()
      reads this, vram
      ensures TermOk(t)
    {
      At(x)
    }

    /** The same, with the cursor in another column. */
    ghost function At(column: int): (t: Term)
      requires Window() && Ranges0()
      reads this, vram
      ensures 0 <= column <= COLUMNS ==> TermOk(t)
    {
      Term(Shown(), column, y, top, bottom, state, if state == 3 then npar else 0, if state == 3 then par else NoPars(),
           ques, attr, savedX, savedY, replies)
    }

    /** The static initial values and con_init's gotoxy: the position left by the boot code is accepted
        only when it is on the screen. */
    constructor (memory: array<int>, bootX: nat, bootY: nat)
      requires memory.Length == SCREEN_CELLS && bootX < 256 && bootY < 256
      ensures vram == memory && Window() && log == {}
      ensures Valid() <==> bootX < COLUMNS && bootY < LINES
      ensures Valid() ==> T() == Term(memory[..CELLS], bootX, bootY, 0, LINES, 0, 0, NoPars(), false, 0x07, 0, 0, 0)
    {
      vram, origin, scrEnd, pos := memory, 0, CELLS, NOWHERE;
      x, y, top, bottom := 0, 0, 0, LINES;
      state, npar, par, ques, attr := 0, 0, seq(NPAR, _ => 0), false, 0x07;
      savedX, savedY, replies, log := 0, 0, 0, {};
      new;
      PlaceCursor(bootX, bootY);
      assert vram[origin..origin + CELLS] == memory[..CELLS];
    }

    /** gotoxy (console.c:71-78). */
    method PlaceCursor(newX: int, newY: int)
      requires 0 <= newX < WORD && 0 <= newY < WORD
      modifies this`x, this`y, this`pos
      ensures newX >= COLUMNS || newY >= LINES ==> x == old(x) && y == old(y) && pos == old(pos)
      ensures newX < COLUMNS && newY < LINES ==> x == newX && y == newY && pos == origin + (y * COLUMNS + x)
    {
      if newX >= COLUMNS || newY >= LINES { return; }
      x := newX;
      y := newY;
      pos := origin + (y * COLUMNS + x);
    }

    // ---------------------------------------------------------------- string instructions

    /** The one place where video memory is written: the store is entered in the log, with `origin` as it is. */
    method Put(cell: int, v: int, ghost lo: int)
      requires Ready(lo, cell, cell + 1)
      modifies vram, this`log
      ensures AllInside(log) && Since(old(log), log, lo)
      ensures vram[cell] == v && forall i {:trigger vram[i]} :: 0 <= i < vram.Length && i != cell ==>
              vram[i] == old(vram[i])
    {
      vram[cell] := v;
      log := log + {Entry(lo, cell, origin)};
    }

    /** A 32-bit store: two cells. */
    method PutPair(cell: int, v: int, w: int, ghost lo: int, ghost before: set<Entry>)
      requires Ready(lo, cell, cell + 2) && Since(before, log, lo)
      modifies vram, this`log
      ensures AllInside(log) && Since(before, log, lo)
      ensures vram[cell] == v && vram[cell + 1] == w
      ensures forall i {:trigger vram[i]} :: 0 <= i < vram.Length && i != cell && i != cell + 1 ==>
              vram[i] == old(vram[i])
    {
      Put(cell, v, lo);
      Put(cell + 1, w, lo);
    }

    /** cld; rep stosw */
    method StoreWords(start: int, count: int, v: int, ghost lo: int)
      requires 0 <= start && 0 <= count && start + count <= vram.Length
      requires Ready(lo, start, start + count)
      modifies vram, this`log
      ensures AllInside(log) && Since(old(log), log, lo)
      ensures forall i {:trigger vram[i]} :: 0 <= i < vram.Length ==> vram[i] == if start <= i < start + count then v
              else old(vram[i])
    {
      var k := 0;
      while k < count
        invariant 0 <= k <= count && AllInside(log) && Since(old(log), log, lo)
        invariant forall i {:trigger vram[i]} :: 0 <= i < vram.Length ==> vram[i] == if start <= i < start + k then v
                  else old(vram[i])
      {
        Put(start + k, v, lo);
        k := k + 1;
      }
    }

    /** cld; rep stosl, two cells at a time */
    method StoreLongs(start: int, count: int, v: int, ghost lo: int)
      requires 0 <= start && 0 <= count && start + 2 * count <= vram.Length
      requires Ready(lo, start, start + 2 * count)
      modifies vram, this`log
      ensures AllInside(log) && Since(old(log), log, lo)
      ensures forall i {:trigger vram[i]} :: 0 <= i < vram.Length ==> vram[i] == if start <= i < start + 2 * count
              then v else old(vram[i])
    {
      var k := 0;
      while k < count
        invariant 0 <= k <= count && AllInside(log) && Since(old(log), log, lo)
        invariant forall i {:trigger vram[i]} :: 0 <= i < vram.Length ==> vram[i] == if start <= i < start + 2 * k
                  then v else old(vram[i])
      {
        PutPair(start + 2 * k, v, v, lo, old(log));
        k := k + 1;
      }
    }

    /** std; rep stosw, from `last` downwards */
    method StoreWordsDown(last: int, count: int, v: int, ghost lo: int)
      requires 0 <= count && 0 <= last - count + 1 && last < vram.Length
      requires Ready(lo, last - count + 1, last + 1)
      modifies vram, this`log
      ensures AllInside(log) && Since(old(log), log, lo)
      ensures forall i {:trigger vram[i]} :: 0 <= i < vram.Length ==> vram[i] == if last - count < i <= last then v
              else old(vram[i])
    {
      var k := 0;
      while k < count
        invariant 0 <= k <= count && AllInside(log) && Since(old(log), log, lo)
        invariant forall i {:trigger vram[i]} :: 0 <= i < vram.Length ==> vram[i] == if last - k < i <= last then v
                  else old(vram[i])
      {
        Put(last - k, v, lo);
        k := k + 1;
      }
    }

    /** cld; rep movsl, to lower addresses: overlapping cells are read before they are overwritten */
    method MoveLongs(dst: int, src: int, count: int, ghost lo: int)
      requires 0 <= dst < src && 0 <= count && src + 2 * count <= vram.Length
      requires Ready(lo, dst, dst + 2 * count)
      modifies vram, this`log
      ensures AllInside(log) && Since(old(log), log, lo)
      ensures forall i {:trigger vram[i]} :: 0 <= i < vram.Length ==>
                vram[i] == if dst <= i < dst + 2 * count then old(vram[i + src - dst]) else old(vram[i])
    {
      var k := 0;
      while k < count
        invariant 0 <= k <= count && AllInside(log) && Since(old(log), log, lo)
        invariant forall i {:trigger vram[i]} :: 0 <= i < vram.Length ==>
                    vram[i] == if dst <= i < dst + 2 * k then old(vram[i + src - dst]) else old(vram[i])
      {
        PutPair(dst + 2 * k, vram[src + 2 * k], vram[src + 2 * k + 1], lo, old(log));
        k := k + 1;
      }
    }

    /** std; rep movsl, to higher addresses, where dst and src are the last pairs of cells */
    method MoveLongsDown(dst: int, src: int, count: int, ghost lo: int)
      requires src < dst && 0 <= count && 0 <= src - 2 * count + 2 && dst + 2 <= vram.Length
      requires Ready(lo, dst - 2 * count + 2, dst + 2)
      modifies vram, this`log
      ensures AllInside(log) && Since(old(log), log, lo)
      ensures forall i {:trigger vram[i]} :: 0 <= i < vram.Length ==>
                vram[i] == if dst - 2 * count + 2 <= i < dst + 2 then old(vram[i + src - dst]) else old(vram[i])
    {
      var k := 0;
      while k < count
        invariant 0 <= k <= count && AllInside(log) && Since(old(log), log, lo)
        invariant forall i {:trigger vram[i]} :: 0 <= i < vram.Length ==>
                    vram[i] == if dst - 2 * k + 2 <= i < dst + 2 then old(vram[i + src - dst]) else old(vram[i])
      {
        PutPair(dst - 2 * k, vram[src - 2 * k], vram[src - 2 * k + 1], lo, old(log));
        k := k + 1;
      }
    }

    // ---------------------------------------------------------------- scrolling

    /** The second form of scrup: there is no row left behind the window, so its last 24 rows are copied
        to the start of video memory (console.c:96-115). */
    method CopyBack()
      requires vram.Length == SCREEN_CELLS && SCREEN_CELLS < origin + CELLS <= SCREEN_CELLS + COLUMNS && AllInside(log)
      modifies vram, this`log
      ensures MovedBack(old(vram[..]), vram[..], origin)
      ensures AllInside(log) && Since(old(log), log, 0)
    {
      MoveLongs(0, origin, (LINES - 1) * COLUMNS / 2, 0);
      StoreWords((LINES - 1) * COLUMNS, COLUMNS, BLANK, 0);
    }

    /** The first form: only the new last row is blanked (console.c:116-126). */
    method BlankLastRow()
      requires Window()
      modifies vram, this`log
      ensures RowAppended(old(vram[..]), vram[..], origin)
      ensures AllInside(log) && Since(old(log), log, origin)
    {
      StoreLongs(scrEnd - COLUMNS, COLUMNS / 2, BLANK, origin);
    }

    /** The first two forms of scrup: the window moves by a row (console.c:92-127). */
    method MoveOrigin()
      requires Window() && top == 0 && bottom == LINES
      modifies vram, this`origin, this`pos, this`scrEnd, this`log
      ensures Window() && Since(old(log), log, origin)
      ensures Window() && pos - origin == old(pos - origin)
      ensures Shown() == ScrolledUp(old(Shown()), 0, LINES)
      ensures OnlyWindow(old(vram[..]), vram[..], origin)
    {
      ghost var a := vram[..];
      origin := origin + COLUMNS;
      pos := pos + COLUMNS;
      scrEnd := scrEnd + COLUMNS;
      if scrEnd > SCREEN_CELLS {
        CopyBack();
        MovedBackShows(a, vram[..], origin);
        scrEnd := scrEnd - origin;
        pos := pos - origin;
        origin := 0;
      } else {
        BlankLastRow();
        RowAppendedShows(a, vram[..], origin);
      }
    }

    /** The third form: the rows of the region are copied (console.c:128-143). */
    method CopyRegionUp()
      requires Window() && 0 <= top < bottom <= LINES
      modifies vram, this`log
      ensures Window() && Since(old(log), log, origin)
      ensures Shown() == ScrolledUp(old(Shown()), top, bottom)
      ensures OnlyWindow(old(vram[..]), vram[..], origin)
    {
      RegionUp();
      RegionUpShows(old(vram[..]), vram[..], origin, top, bottom);
    }

    method RegionUp()
      requires Window() && 0 <= top < bottom <= LINES
      modifies vram, this`log
      ensures Window() && Since(old(log), log, origin)
      ensures RegionMovedUp(old(vram[..]), vram[..], origin, top, bottom)
    {
      MoveLongs(origin + COLUMNS * top, origin + COLUMNS * (top + 1), (bottom - top - 1) * COLUMNS / 2, origin);
      assert forall i {:trigger vram[i]} :: 0 <= i < vram.Length ==>
               vram[i] == if origin + COLUMNS * top <= i < origin + COLUMNS * (bottom - 1) then old(vram[i + COLUMNS])
                          else old(vram[i]);
      StoreWords(origin + COLUMNS * top + (bottom - top - 1) * COLUMNS, COLUMNS, BLANK, origin);
    }

    /** scrup: all three forms shift the same rows (console.c:90-144). */
    method ScrUp()
      requires Window() && 0 <= top < bottom <= LINES
      modifies vram, this`origin, this`pos, this`scrEnd, this`log
      ensures Window() && Since(old(log), log, origin)
      ensures Window() && pos - origin == old(pos - origin)
      ensures Shown() == ScrolledUp(old(Shown()), top, bottom)
      ensures OnlyWindow(old(vram[..]), vram[..], origin)
    {
      if top == 0 && bottom == LINES {
        MoveOrigin();
      } else {
        CopyRegionUp();
      }
    }

    /** scrdown (console.c:146-163). */
    method ScrDown()
      requires Window() && 0 <= top < bottom <= LINES
      modifies vram, this`log
      ensures Window() && Since(old(log), log, origin)
      ensures Shown() == ScrolledDown(old(Shown()), top, bottom)
      ensures OnlyWindow(old(vram[..]), vram[..], origin)
    {
      RegionDown();
      RegionDownShows(old(vram[..]), vram[..], origin, top, bottom);
    }

    method RegionDown()
      requires Window() && 0 <= top < bottom <= LINES
      modifies vram, this`log
      ensures Window() && Since(old(log), log, origin)
      ensures RegionMovedDown(old(vram[..]), vram[..], origin, top, bottom)
    {
      var longs := (bottom - top - 1) * COLUMNS / 2;
      assert 2 * longs == (bottom - top - 1) * COLUMNS;
      var edi := origin + COLUMNS * bottom - 2;
      MoveLongsDown(edi, origin + COLUMNS * (bottom - 1) - 2, longs, origin);
      assert forall i {:trigger vram[i]} :: 0 <= i < vram.Length ==>
               vram[i] == if origin + COLUMNS * (top + 1) <= i < origin + COLUMNS * bottom then old(vram[i - COLUMNS])
                          else old(vram[i]);
      edi := edi - 2 * longs + 1;
      assert edi == origin + COLUMNS * (top + 1) - 1;
      StoreWordsDown(edi, COLUMNS, BLANK, origin);
    }

    /** lf (console.c:165-173). */
    method Lf()
      requires Valid()
      modifies vram, this`origin, this`pos, this`scrEnd, this`y, this`log
      ensures Window() && Since(old(log), log, origin)
      ensures Valid() && T() == LineFeed(old(T()))
      ensures OnlyWindow(old(vram[..]), vram[..], origin)
    {
      if y + 1 < bottom {
        y := y + 1;
        pos := pos + COLUMNS;
        return;
      }
      ScrUp();
    }

    /** ri (console.c:175-183). */
    method Ri()
      requires Valid()
      modifies vram, this`pos, this`y, this`log
      ensures Window() && Since(old(log), log, origin)
      ensures Valid() && T() == ReverseFeed(old(T()))
      ensures OnlyWindow(old(vram[..]), vram[..], origin)
    {
      if y > top {
        y := y - 1;
        pos := pos - COLUMNS;
        return;
      }
      ScrDown();
    }

    /** One store through pos: the cell is in the window. */
    method PutCell(v: int)
      requires Window() && origin <= pos < scrEnd
      modifies vram, this`log
      ensures Window() && Since(old(log), log, origin)
      ensures Shown() == old(Shown())[pos - origin := v]
      ensures OnlyWindow(old(vram[..]), vram[..], origin)
    {
      Put(pos, v, origin);
    }

    /** del (console.c:191-198). */
    method Del()
      requires Valid()
      modifies vram, this`pos, this`x, this`log
      ensures Window() && Since(old(log), log, origin)
      ensures Valid() && T() == Delete(old(T()))
      ensures OnlyWindow(old(vram[..]), vram[..], origin)
    {
      if x > 0 {
        pos := pos - 1;
        x := x - 1;
        PutCell(BLANK);
      }
    }

    /** A printable character (console.c:423-434). */
    method PutPrintable(c: char)
      requires Valid()
      modifies vram, this`origin, this`pos, this`scrEnd, this`x, this`y, this`log
      ensures Valid() && T() == Print(old(T()), c as int)
      ensures old(log) <= log
    {
      Wrap();
      PutHere(attr * 256 + c as int);
    }

    method Wrap()
      requires Valid()
      modifies vram, this`origin, this`pos, this`scrEnd, this`x, this`y, this`log
      ensures Valid() && T() == Wrapped(old(T())) && x < COLUMNS
      ensures old(log) <= log
    {
      if x >= COLUMNS { WrapLine(); }
    }

    /** The cursor is beyond the last column: back by a row, then a line feed. */
    method WrapLine()
      requires Window() && Ranges0() && COLUMNS <= x <= 2 * COLUMNS && pos == origin + (y * COLUMNS + x)
      modifies vram, this`origin, this`pos, this`scrEnd, this`x, this`y, this`log
      ensures Window() && Since(old(log), log, origin)
      ensures Valid() && T() == LineFeed(old(At(x - COLUMNS)))
      ensures OnlyWindow(old(vram[..]), vram[..], origin)
    {
      x := x - COLUMNS;
      pos := pos - COLUMNS;
      Lf();
    }

    method PutHere(v: int)
      requires Valid() && x < COLUMNS
      modifies vram, this`pos, this`x, this`log
      ensures Window() && Since(old(log), log, origin)
      ensures Valid() && T() == Stored(old(T()), v)
      ensures OnlyWindow(old(vram[..]), vram[..], origin)
    {
      PutCell(v);
      pos := pos + 1;
      x := x + 1;
    }

    /** A tab (console.c:448-458). */
    method PutTab()
      requires Valid()
      modifies vram, this`origin, this`pos, this`scrEnd, this`x, this`y, this`log
      ensures Valid() && T() == Tab(old(T()))
      ensures old(log) <= log
    {
      var c := 8 - x % 8;
      assert 0 < c <= 8;
      ghost var t := T();
      x := x + c;
      pos := pos + c;
      if x > COLUMNS { WrapLine(); }
      assert T() == Tab(t);
    }

    /** Blanks in the window (the stosw of csi_J and csi_K). */
    method Blank(start: int, count: int)
      requires Valid() && origin <= start && 0 <= count && start + count <= scrEnd
      modifies vram, this`log
      ensures Window() && Since(old(log), log, origin)
      ensures Valid() && T() == old(T()).(screen := Erased(old(Shown()), start - origin, count))
      ensures OnlyWindow(old(vram[..]), vram[..], origin)
    {
      StoreWords(start, count, BLANK, origin);
      BlankShows(old(vram[..]), vram[..], origin, start, count);
    }

    /** csi_J (console.c:200-228). */
    method CsiJ(p: int)
      requires Valid()
      modifies vram, this`log
      ensures Window() && Since(old(log), log, origin)
      ensures Valid() && T() == EraseDisplay(old(T()), p)
      ensures OnlyWindow(old(vram[..]), vram[..], origin)
    {
      if p == 0 {
        Blank(pos, scrEnd - pos);
      } else if p == 1 {
        Blank(origin, pos - origin);
      } else if p == 2 {
        Blank(origin, COLUMNS * LINES);
      }
    }

    /** csi_K (console.c:230-260). */
    method CsiK(p: int)
      requires Valid()
      modifies vram, this`log
      ensures Window() && Since(old(log), log, origin)
      ensures Valid() && T() == EraseLine(old(T()), p)
      ensures OnlyWindow(old(vram[..]), vram[..], origin)
    {
      if p == 0 {
        if x >= COLUMNS {
          assert Erased(Shown(), y * COLUMNS + x, COLUMNS - x) == Shown();
          return;
        }
        Blank(pos, COLUMNS - x);
      } else if p == 1 {
        Blank(pos - x, if x < COLUMNS then x else COLUMNS);
      } else if p == 2 {
        Blank(pos - x, COLUMNS);
      }
    }

    /** The loop of insert_char: each of `count` cells takes the one before it, the first takes a blank. */
    method ShiftRight(start: int, count: int, ghost lo: int)
      requires 0 <= start && 0 <= count && start + count <= vram.Length && Ready(lo, start, start + count)
      modifies vram, this`log
      ensures AllInside(log) && Since(old(log), log, lo)
      ensures CharPushed(old(vram[..]), vram[..], start, count)
    {
      var p := start;
      var carry := BLANK;
      while p < start + count
        invariant start <= p <= start + count && AllInside(log) && Since(old(log), log, lo)
        invariant carry == if p == start then BLANK else old(vram[p - 1])
        invariant forall k {:trigger vram[k]} :: 0 <= k < vram.Length ==>
                    vram[k] == if start < k < p then old(vram[k - 1])
                               else if k == start && k < p then BLANK else old(vram[k])
      {
        var tmp := vram[p];
        Put(p, carry, lo);
        carry := tmp;
        p := p + 1;
      }
    }

    /** insert_char (console.c:299-311). */
    method InsChar1()
      requires Valid()
      modifies vram, this`log
      ensures Window() && Since(old(log), log, origin)
      ensures Valid() && Shown() == Edited(old(Shown()), x, y, InsChar)
      ensures OnlyWindow(old(vram[..]), vram[..], origin)
    {
      ShiftRight(pos, COLUMNS - x, origin);
      InsertShows(old(vram[..]), vram[..], origin, x, y);
    }

    /** The loop of delete_char: each of `count` cells takes the one after it. */
    method ShiftLeft(start: int, count: int, ghost lo: int)
      requires 0 <= start && 0 <= count && start + count < vram.Length && Ready(lo, start, start + count)
      modifies vram, this`log
      ensures AllInside(log) && Since(old(log), log, lo)
      ensures forall k {:trigger vram[k]} :: 0 <= k < vram.Length ==>
                vram[k] == if start <= k < start + count then old(vram[k + 1]) else old(vram[k])
    {
      var p := start;
      while p < start + count
        invariant start <= p <= start + count && AllInside(log) && Since(old(log), log, lo)
        invariant forall k {:trigger vram[k]} :: 0 <= k < vram.Length ==> vram[k] == if start <= k < p
                  then old(vram[k + 1]) else old(vram[k])
      {
        Put(p, vram[p + 1], lo);
        p := p + 1;
      }
    }

    /** delete_char (console.c:326-339). */
    method DelChar1()
      requires Valid()
      modifies vram, this`log
      ensures Window() && Since(old(log), log, origin)
      ensures Valid() && Shown() == Edited(old(Shown()), x, y, DelChar)
      ensures OnlyWindow(old(vram[..]), vram[..], origin)
    {
      if x >= COLUMNS {
        NothingDeleted(Shown(), x, y);
        return;
      }
      DropChar();
      DeleteShows(old(vram[..]), vram[..], origin, x, y);
    }

    method DropChar()
      requires Valid() && x < COLUMNS
      modifies vram, this`log
      ensures Window() && Since(old(log), log, origin)
      ensures CharDropped(old(vram[..]), vram[..], pos, COLUMNS - 1 - x)
    {
      ShiftLeft(pos, COLUMNS - 1 - x, origin);
      Put(pos + (COLUMNS - 1 - x), BLANK, origin);
    }

    /** insert_line (console.c:313-324). */
    method InsLine1()
      requires Valid()
      modifies vram, this`top, this`bottom, this`log
      ensures Window() && Since(old(log), log, origin)
      ensures Valid() && Shown() == Edited(old(Shown()), x, y, InsLine)
      ensures OnlyWindow(old(vram[..]), vram[..], origin)
      ensures top == old(top) && bottom == old(bottom)
    {
      var oldTop, oldBottom := top, bottom;
      top, bottom := y, LINES;
      ScrDown();
      top, bottom := oldTop, oldBottom;
    }

    /** delete_line (console.c:341-352): with the cursor in row 0 this moves the origin. */
    method DelLine1()
      requires Valid()
      modifies vram, this`origin, this`pos, this`scrEnd, this`top, this`bottom, this`log
      ensures Window() && Since(old(log), log, origin)
      ensures Valid() && Shown() == Edited(old(Shown()), x, y, DelLine)
      ensures OnlyWindow(old(vram[..]), vram[..], origin)
      ensures top == old(top) && bottom == old(bottom)
    {
      var oldTop, oldBottom := top, bottom;
      top, bottom := y, LINES;
      ScrUp();
      top, bottom := oldTop, oldBottom;
    }

    method EditOnce(e: Edit)
      requires Valid()
      modifies vram, this`origin, this`pos, this`scrEnd, this`top, this`bottom, this`log
      ensures Valid() && Shown() == Edited(old(Shown()), x, y, e) && top == old(top) && bottom == old(bottom)
      ensures old(log) <= log
    {
      match e {
        case InsLine => InsLine1();
        case DelLine => DelLine1();
        case InsChar => InsChar1();
        case DelChar => DelChar1();
      }
    }

    /** The screens shown so far, each the edit of the one before, and all else but the window as before. */
    ghost predicate Editing(e: Edit, trace: seq<Screen>, oldTop: int, oldBottom: int, before: set<Entry>)
      reads this, vram
    {
      && Valid() && EditTrace(trace, x, y, e) && trace[|trace| - 1] == Shown()
      && top == oldTop && bottom == oldBottom && before <= log
    }

    method EditLoop(e: Edit, n: nat, ghost oldTop: int, ghost oldBottom: int, ghost before: set<Entry>)
      returns (ghost trace: seq<Screen>)
      requires Valid() && Editing(e, [Shown()], oldTop, oldBottom, before)
      modifies vram, this`origin, this`pos, this`scrEnd, this`top, this`bottom, this`log
      ensures Editing(e, trace, oldTop, oldBottom, before) && |trace| == n + 1 && trace[0] == old(Shown())
    {
      var nr := n;
      trace := [Shown()];
      while nr > 0
        invariant 0 <= nr && nr + |trace| == n + 1 && trace[0] == old(Shown())
        invariant Editing(e, trace, oldTop, oldBottom, before)
        decreases nr
      {
        trace := EditNext(e, trace, oldTop, oldBottom, before);
        nr := nr - 1;
      }
    }

    method EditNext(e: Edit, ghost trace: seq<Screen>, ghost oldTop: int, ghost oldBottom: int,
      ghost before: set<Entry>)
      returns (ghost trace': seq<Screen>)
      requires Editing(e, trace, oldTop, oldBottom, before)
      modifies vram, this`origin, this`pos, this`scrEnd, this`top, this`bottom, this`log
      ensures Editing(e, trace', oldTop, oldBottom, before) && |trace'| == |trace| + 1 && trace'[0] == trace[0]
    {
      TraceExtend(trace, x, y, e);
      trace' := trace + [Edited(Shown(), x, y, e)];
      EditOnce(e);
    }

    /** The loops of csi_at, csi_L, csi_P and csi_M (console.c:354-392); `p` is compared unsigned. */
    method EditTimes(e: Edit, p: int, limit: int)
      requires Valid() && 0 <= p < WORD && 0 < limit
      modifies vram, this`origin, this`pos, this`scrEnd, this`top, this`bottom, this`log
      ensures Valid() && T() == Repeat(old(T()), e, Count(p, limit))
      ensures old(log) <= log
    {
      var nr := p;
      if nr > limit { nr := limit; } else if nr == 0 { nr := 1; }
      ghost var trace := EditLoop(e, nr, top, bottom, log);
      TraceIsRepeated(trace, x, y, e, nr);
    }

    /** csi_m (console.c:262-274). */
    method CsiM()
      requires Valid()
      modifies this`attr
      ensures attr == Attributes(old(attr), par, npar + 1)
    {
      var i := 0;
      while i <= npar
        invariant 0 <= i <= npar + 1 && attr == Attributes(old(attr), par, i)
      {
        if par[i] == 0 { attr := 0x07; }
        else if par[i] == 1 { attr := 0x0f; }
        else if par[i] == 4 { attr := 0x0f; }
        else if par[i] == 7 { attr := 0x70; }
        else if par[i] == 27 { attr := 0x07; }
        i := i + 1;
      }
    }

    /** restore_cur (console.c:403-408). */
    method RestoreCur()
      requires Valid()
      modifies this`x, this`y, this`pos
      ensures Valid() && T() == Restored(old(T()))
    {
      x := savedX;
      y := savedY;
      pos := origin + (y * COLUMNS + x);
    }

    method MoveCursor(newX: int, newY: int)
      requires Valid()
      modifies this`x, this`y, this`pos
      ensures Valid() && T() == Moved(old(T()), newX, newY)
    {
      PlaceCursor(U32(newX), U32(newY));
    }

    /** State 0 (console.c:422-459). */
    method OnGround(c: char, erase: char)
      requires Valid() && state == 0
      modifies vram, this
      ensures Valid() && T() == Ground(old(T()), c, erase)
      ensures old(log) <= log
    {
      if 31 < c as int < 127 { PutPrintable(c); }
      else if c as int == 27 { state := 1; }
      else if c as int == 10 || c as int == 11 || c as int == 12 { Lf(); }
      else if c as int == 13 { pos := pos - x; x := 0; }
      else if c == erase && c as int < 128 { Del(); }
      else if c as int == 8 {
        if x > 0 { x := x - 1; pos := pos - 1; }
      }
      else if c as int == 9 { PutTab(); }
    }

    /** State 1 (console.c:460-476); the answer to ESC Z is only counted. */
    method OnEscape(c: char)
      requires Valid() && state == 0
      modifies vram, this
      ensures Valid() && T() == Escape(old(T()), c)
      ensures old(log) <= log
    {
      if c == '[' { state := 2; }
      else if c == 'E' { MoveCursor(0, y + 1); }
      else if c == 'M' { Ri(); }
      else if c == 'D' { Lf(); }
      else if c == 'Z' { replies := replies + 1; }
      else if x == '7' as int { savedX := x; savedY := y; }
      else if x == '8' as int { RestoreCur(); }
    }

    method LowerPar(i: int)
      requires 0 <= i < NPAR && ParOk(par)
      modifies this`par
      ensures ParOk(par) && par == old(par)[i := FromOne(old(par)[i])]
    {
      if par[i] > 0 { par := par[i := par[i] - 1]; }
    }

    method RaisePar()
      requires ParOk(par)
      modifies this`par
      ensures ParOk(par) && par[0] == AtLeastOne(old(par)[0])
    {
      if par[0] == 0 { par := par[0 := par[0] + 1]; }
    }

    /** The commands that move the cursor (console.c:495-531) adjust their parameters in place. */
    method Aim(c: char) returns (newX: int, newY: int)
      requires ParOk(par) && IsMove(c)
      modifies this`par
      ensures ParOk(par) && (newX, newY) == Target(x, y, c, old(par)[0], old(par)[1])
    {
      if c == 'G' || c == '`' { LowerPar(0); return par[0], y; }
      else if c == 'A' { RaisePar(); return x, y - par[0]; }
      else if c == 'B' || c == 'e' { RaisePar(); return x, y + par[0]; }
      else if c == 'C' || c == 'a' { RaisePar(); return x + par[0], y; }
      else if c == 'D' { RaisePar(); return x - par[0], y; }
      else if c == 'E' { RaisePar(); return 0, y + par[0]; }
      else if c == 'F' { RaisePar(); return 0, y - par[0]; }
      else if c == 'd' { LowerPar(0); return x, par[0]; }
      else { LowerPar(0); LowerPar(1); return par[1], par[0]; }
    }

    method MoveCmd(c: char)
      requires Valid() && state == 0 && IsMove(c)
      modifies this`par, this`x, this`y, this`pos
      ensures Valid() && T() == MoveCommand(old(T()), c, old(par)[0], old(par)[1])
    {
      var newX, newY := Aim(c);
      MoveCursor(newX, newY);
    }

    /** The commands that change the screen (console.c:532-549). */
    method EditCmd(c: char)
      requires Valid() && IsEdit(c)
      modifies vram, this`origin, this`pos, this`scrEnd, this`top, this`bottom, this`log
      ensures Valid() && T() == EditCommand(old(T()), c, old(par)[0])
      ensures old(log) <= log
    {
      if c == 'J' { CsiJ(par[0]); }
      else if c == 'K' { CsiK(par[0]); }
      else if c == 'L' { EditTimes(InsLine, par[0], LINES); }
      else if c == 'M' { EditTimes(DelLine, par[0], LINES); }
      else if c == 'P' { EditTimes(DelChar, par[0], COLUMNS); }
      else { EditTimes(InsChar, par[0], COLUMNS); }
    }

    /** Setting the scroll region (console.c:553-561). */
    method RegionCmd()
      requires Valid() && state == 0
      modifies this`par, this`top, this`bottom
      ensures Valid() && T() == Region(old(T()), old(par)[0], old(par)[1])
    {
      LowerPar(0);
      if par[1] == 0 { par := par[1 := LINES]; }
      if par[0] < par[1] <= LINES {
        top := par[0];
        bottom := par[1];
      }
    }

    /** State 4: a final byte (console.c:492-568). */
    method OnFinal(c: char)
      requires Valid() && state == 0
      modifies vram, this
      ensures Valid() && T() == Command(old(T()), c, old(par), old(npar))
      ensures old(log) <= log
    {
      if IsMove(c) { MoveCmd(c); }
      else if IsEdit(c) { EditCmd(c); }
      else if c == 'm' { CsiM(); }
      else if c == 'r' { RegionCmd(); }
      else if c == 's' { savedX := x; savedY := y; }
      else if c == 'u' { RestoreCur(); }
    }

    /** State 3 (console.c:484-491). */
    method OnParameter(c: char)
      requires Valid() && state == 3
      modifies vram, this
      ensures Valid() && T() == Parameters(old(T()), c)
      ensures old(log) <= log
    {
      if c == ';' && npar < NPAR - 1 {
        npar := npar + 1;
      } else if '0' <= c <= '9' {
        par := par[npar := U32(10 * par[npar] + c as int - '0' as int)];
      } else {
        ghost var t := T();
        state := 0;
        assert T() == ToGround(t);
        OnFinal(c);
      }
    }

    /** The loop that clears the parameters (console.c:478-480). */
    method ClearParameters()
      requires |par| == NPAR
      modifies this`npar, this`par
      ensures npar == 0 && par == NoPars()
    {
      npar := 0;
      while npar < NPAR
        invariant 0 <= npar <= NPAR && |par| == NPAR && (forall i :: 0 <= i < npar ==> par[i] == 0)
      {
        par := par[npar := 0];
        npar := npar + 1;
      }
      npar := 0;
    }

    /** State 2 (console.c:477-483). */
    method OnBracket(c: char)
      requires Valid() && state == 2
      modifies vram, this
      ensures Valid() && T() == Bracket(old(T()), c)
      ensures old(log) <= log
    {
      ghost var t := T();
      ClearParameters();
      state := 3;
      ques := c == '?';
      assert T() == t.(state := 3, npar := 0, par := NoPars(), ques := c == '?');
      if c != '?' { OnParameter(c); }
    }

    /** One byte of con_write's loop (console.c:420-570). */
    method OnByte(c: char, erase: char)
      requires Valid()
      modifies vram, this
      ensures Valid() && T() == TermStep(old(T()), c, erase)
      ensures old(log) <= log && forall e :: e in log ==> Inside(e)
    {
      if state == 0 { OnGround(c, erase); }
      else if state == 1 {
        ghost var t := T();
        state := 0;
        assert T() == t.(state := 0);
        OnEscape(c);
      }
      else if state == 2 { OnBracket(c); }
      else { OnParameter(c); }
    }

    /** con_write (console.c:412-572): every byte stream does to the screen what it does to the terminal,
        wherever the window is, and every store it makes falls in the window at `origin`, or in the one that the
        screen is being moved to. */
    method ConWrite(s: string, erase: char)
      requires Valid()
      modifies vram, this
      ensures Valid() && T() == TermRun(old(T()), s, erase)
      ensures old(log) <= log && forall e :: e in log ==> Inside(e)
    {
      ghost var t := T();
      var n := 0;
      while n < |s|
        invariant 0 <= n <= |s| && Valid() && T() == TermRun(t, s[..n], erase) && old(log) <= log
      {
        RunNext(t, s, n, erase);
        OnByte(s[n], erase);
        n := n + 1;
      }
      assert s[..n] == s;
    }
  }
}

/**
  The terminal that kernel/console.c presents: a 25 by 80 screen, a cursor, a scroll region and a parser
  for escape sequences, with no video memory behind it. Scrolling is a plain shift of rows.
 */
module Terminal {

  const LINES := 25
  const COLUMNS := 80
  const CELLS := 2000
  const NPAR := 16
  const BLANK := 0x0720
  const WORD := 0x1_0000_0000

  type Screen = seq<int>

  /** `state` is 0 ground, 1 after ESC, 2 after ESC [, 3 inside the parameters. */
  datatype Term = Term(screen: Screen, x: int, y: int, top: int, bottom: int,
                       state: int, npar: int, par: seq<int>, ques: bool,
                       attr: int, savedX: int, savedY: int, replies: int)

  ghost predicate TermOk(t: Term) {
    && |t.screen| == CELLS
    && 0 <= t.x <= COLUMNS && 0 <= t.y < LINES
    && 0 <= t.top < t.bottom <= LINES
    && 0 <= t.state <= 3 && 0 <= t.npar < NPAR && ParOk(t.par)
    && 0 <= t.savedX <= COLUMNS && 0 <= t.savedY < LINES
  }

  /** Parameters are unsigned 32-bit words. */
  ghost predicate ParOk(par: seq<int>) { |par| == NPAR && forall i :: 0 <= i < NPAR ==> 0 <= par[i] < WORD }

  function U32(v: int): int { v % WORD }

  // ------------------------------------------------------------------ screens

  /** Rows top..bottom-1 move up by one; row top is dropped and row bottom-1 blanked. */
  function ScrolledUp(s: Screen, top: int, bottom: int): (r: Screen)
    requires |s| == CELLS && 0 <= top < bottom <= LINES
    ensures |r| == CELLS
  {
    seq(CELLS, i requires 0 <= i < CELLS =>
      if top * COLUMNS <= i < (bottom - 1) * COLUMNS then s[i + COLUMNS]
      else if (bottom - 1) * COLUMNS <= i < bottom * COLUMNS then BLANK else s[i])
  }

  /** Rows top..bottom-1 move down by one; row bottom-1 is dropped and row top blanked. */
  function ScrolledDown(s: Screen, top: int, bottom: int): (r: Screen)
    requires |s| == CELLS && 0 <= top < bottom <= LINES
    ensures |r| == CELLS
  {
    seq(CELLS, i requires 0 <= i < CELLS =>
      if (top + 1) * COLUMNS <= i < bottom * COLUMNS then s[i - COLUMNS]
      else if top * COLUMNS <= i < (top + 1) * COLUMNS then BLANK else s[i])
  }

  function Erased(s: Screen, start: int, count: int): (r: Screen)
    requires |s| == CELLS && 0 <= start && 0 <= count && start + count <= CELLS
    ensures |r| == CELLS
  {
    seq(CELLS, i requires 0 <= i < CELLS => if start <= i < start + count then BLANK else s[i])
  }

  /** A blank at column x; the rest of the row moves right by one and its last cell is dropped. */
  function CharInserted(s: Screen, x: int, y: int): (r: Screen)
    requires |s| == CELLS && 0 <= x <= COLUMNS && 0 <= y < LINES
    ensures |r| == CELLS
  {
    seq(CELLS, i requires 0 <= i < CELLS =>
      if y * COLUMNS + x < i < (y + 1) * COLUMNS then s[i - 1]
      else if i == y * COLUMNS + x && x < COLUMNS then BLANK else s[i])
  }

  /** Column x is dropped, the rest of the row moves left and a blank enters at its end. */
  function CharDeleted(s: Screen, x: int, y: int): (r: Screen)
    requires |s| == CELLS && 0 <= x <= COLUMNS && 0 <= y < LINES
    ensures |r| == CELLS
  {
    seq(CELLS, i requires 0 <= i < CELLS =>
      if y * COLUMNS + x <= i < (y + 1) * COLUMNS - 1 then s[i + 1]
      else if i == (y + 1) * COLUMNS - 1 && x < COLUMNS then BLANK else s[i])
  }

  // ------------------------------------------------------------------ commands

  function GotoXY(t: Term, x: int, y: int): Term {
    if x >= COLUMNS || y >= LINES then t else t.(x := x, y := y)
  }

  function ScrollUp(t: Term): Term
    requires TermOk(t)
  {
    t.(screen := ScrolledUp(t.screen, t.top, t.bottom))
  }

  function ScrollDown(t: Term): Term
    requires TermOk(t)
  {
    t.(screen := ScrolledDown(t.screen, t.top, t.bottom))
  }

  function LineFeed(t: Term): (r: Term)
    requires TermOk(t)
    ensures TermOk(r)
  {
    if t.y + 1 < t.bottom then t.(y := t.y + 1) else ScrollUp(t)
  }

  function ReverseFeed(t: Term): (r: Term)
    requires TermOk(t)
    ensures TermOk(r)
  {
    if t.y > t.top then t.(y := t.y - 1) else ScrollDown(t)
  }

  function Delete(t: Term): (r: Term)
    requires TermOk(t)
    ensures TermOk(r)
  {
    if t.x > 0 then t.(x := t.x - 1, screen := t.screen[t.y * COLUMNS + t.x - 1 := BLANK]) else t
  }

  /** A printable character; past the last column it first wraps to the next line. */
  function Print(t: Term, c: int): (r: Term)
    requires TermOk(t)
    ensures TermOk(r)
  {
    Stored(Wrapped(t), t.attr * 256 + c)
  }

  function Wrapped(t: Term): (r: Term)
    requires TermOk(t)
    ensures TermOk(r) && r.x < COLUMNS && r.attr == t.attr
  {
    if t.x >= COLUMNS then LineFeed(t.(x := t.x - COLUMNS)) else t
  }

  function Stored(t: Term, v: int): (r: Term)
    requires TermOk(t) && t.x < COLUMNS
    ensures TermOk(r)
  {
    t.(screen := t.screen[t.y * COLUMNS + t.x := v], x := t.x + 1)
  }

  function Tab(t: Term): (r: Term)
    requires TermOk(t)
    ensures TermOk(r)
  {
    var x := t.x + 8 - t.x % 8;
    if x > COLUMNS then LineFeed(t.(x := x - COLUMNS)) else t.(x := x)
  }

  function EraseDisplay(t: Term, p: int): (r: Term)
    requires TermOk(t)
    ensures TermOk(r)
  {
    var here := t.y * COLUMNS + t.x;
    if p == 0 then t.(screen := Erased(t.screen, here, CELLS - here))
    else if p == 1 then t.(screen := Erased(t.screen, 0, here))
    else if p == 2 then t.(screen := Erased(t.screen, 0, CELLS))
    else t
  }

  function EraseLine(t: Term, p: int): (r: Term)
    requires TermOk(t)
    ensures TermOk(r)
  {
    var row := t.y * COLUMNS;
    if p == 0 then t.(screen := Erased(t.screen, row + t.x, COLUMNS - t.x))
    else if p == 1 then t.(screen := Erased(t.screen, row, t.x))
    else if p == 2 then t.(screen := Erased(t.screen, row, COLUMNS))
    else t
  }

  datatype Edit = InsLine | DelLine | InsChar | DelChar

  /** One edit with the cursor at x, y. Lines move from the cursor's row to the end of the screen, whatever
      the scroll region is. */
  function Edited(s: Screen, x: int, y: int, e: Edit): (r: Screen)
    requires |s| == CELLS && 0 <= x <= COLUMNS && 0 <= y < LINES
    ensures |r| == CELLS
  {
    match e
    case InsLine => ScrolledDown(s, y, LINES)
    case DelLine => ScrolledUp(s, y, LINES)
    case InsChar => CharInserted(s, x, y)
    case DelChar => CharDeleted(s, x, y)
  }

  function Repeated(s: Screen, x: int, y: int, e: Edit, n: nat): (r: Screen)
    requires |s| == CELLS && 0 <= x <= COLUMNS && 0 <= y < LINES
    ensures |r| == CELLS
    decreases n
  {
    if n == 0 then s else Edited(Repeated(s, x, y, e, n - 1), x, y, e)
  }

  /** Each screen is the edit of the one before. */
  ghost predicate EditTrace(trace: seq<Screen>, x: int, y: int, e: Edit) {
    && 0 <= x <= COLUMNS && 0 <= y < LINES && |trace| > 0 && |trace[0]| == CELLS
    && forall k :: 0 < k < |trace| ==> EditAt(trace, x, y, e, k)
  }

  ghost predicate EditAt(trace: seq<Screen>, x: int, y: int, e: Edit, k: nat)
    requires 0 <= x <= COLUMNS && 0 <= y < LINES
  {
    0 < k < |trace| && |trace[k - 1]| == CELLS && trace[k] == Edited(trace[k - 1], x, y, e)
  }

  lemma TraceExtend(trace: seq<Screen>, x: int, y: int, e: Edit)
    requires EditTrace(trace, x, y, e) && |trace[|trace| - 1]| == CELLS
    ensures EditTrace(trace + [Edited(trace[|trace| - 1], x, y, e)], x, y, e)
  {
    var n := |trace|;
    var trace' := trace + [Edited(trace[n - 1], x, y, e)];
    forall k | 0 < k < n + 1 ensures EditAt(trace', x, y, e, k) {
      if k < n { assert EditAt(trace, x, y, e, k); }
    }
  }

  lemma {:induction false} TraceIsRepeated(trace: seq<Screen>, x: int, y: int, e: Edit, n: nat)
    requires EditTrace(trace, x, y, e) && n < |trace|
    ensures trace[n] == Repeated(trace[0], x, y, e, n)
  {
    if n > 0 {
      TraceIsRepeated(trace, x, y, e, n - 1);
      assert EditAt(trace, x, y, e, n);
    }
  }

  function Repeat(t: Term, e: Edit, n: nat): (r: Term)
    requires TermOk(t)
    ensures TermOk(r)
  {
    t.(screen := Repeated(t.screen, t.x, t.y, e, n))
  }

  /** A count parameter: 0 stands for 1, and no count goes beyond the limit. */
  function Count(p: int, limit: int): int { if p > limit then limit else if p == 0 then 1 else p }

  /** The attribute after one parameter of `m`. */
  function Attribute(attr: int, p: int): int {
    if p == 0 || p == 27 then 0x07 else if p == 1 || p == 4 then 0x0f else if p == 7 then 0x70 else attr
  }

  function Attributes(attr: int, par: seq<int>, n: nat): int
    requires n <= |par|
    decreases n
  {
    if n == 0 then attr else Attribute(Attributes(attr, par, n - 1), par[n - 1])
  }

  /** A coordinate parameter counts from 1, with 0 meaning 1. */
  function FromOne(p: int): int { if p > 0 then p - 1 else p }

  function AtLeastOne(p: int): int { if p == 0 then 1 else p }

  function Region(t: Term, p: int, q: int): (r: Term)
    requires TermOk(t) && 0 <= p && 0 <= q
    ensures TermOk(r)
  {
    var bottom := if q == 0 then LINES else q;
    if FromOne(p) < bottom <= LINES then t.(top := FromOne(p), bottom := bottom) else t
  }

  function Moved(t: Term, x: int, y: int): (r: Term)
    requires TermOk(t)
    ensures TermOk(r)
  {
    GotoXY(t, U32(x), U32(y))
  }

  predicate IsMove(c: char) { c in "G`ABeCaDEFdHf" }

  predicate IsEdit(c: char) { c in "JKLMP@" }

  /** Where a motion command aims, from column x and row y. */
  function Target(x: int, y: int, c: char, p: int, q: int): (int, int) {
    if c == 'G' || c == '`' then (FromOne(p), y)
    else if c == 'A' then (x, y - AtLeastOne(p))
    else if c == 'B' || c == 'e' then (x, y + AtLeastOne(p))
    else if c == 'C' || c == 'a' then (x + AtLeastOne(p), y)
    else if c == 'D' then (x - AtLeastOne(p), y)
    else if c == 'E' then (0, y + AtLeastOne(p))
    else if c == 'F' then (0, y - AtLeastOne(p))
    else if c == 'd' then (x, FromOne(p))
    else (FromOne(q), FromOne(p))
  }

  /** Motion is computed modulo 2^32 and ignored when it leaves the screen. */
  function MoveCommand(t: Term, c: char, p: int, q: int): (r: Term)
    requires TermOk(t)
    ensures TermOk(r)
  {
    var at := Target(t.x, t.y, c, p, q);
    Moved(t, at.0, at.1)
  }

  function EditCommand(t: Term, c: char, p: int): (r: Term)
    requires TermOk(t) && 0 <= p
    ensures TermOk(r)
  {
    if c == 'J' then EraseDisplay(t, p)
    else if c == 'K' then EraseLine(t, p)
    else if c == 'L' then Repeat(t, InsLine, Count(p, LINES))
    else if c == 'M' then Repeat(t, DelLine, Count(p, LINES))
    else if c == 'P' then Repeat(t, DelChar, Count(p, COLUMNS))
    else Repeat(t, InsChar, Count(p, COLUMNS))
  }

  /** The command that final byte c names, with the parameters par[0..npar]. */
  function Command(t: Term, c: char, par: seq<int>, npar: int): (r: Term)
    requires TermOk(t) && ParOk(par) && 0 <= npar < NPAR
    ensures TermOk(r)
  {
    if IsMove(c) then MoveCommand(t, c, par[0], par[1])
    else if IsEdit(c) then EditCommand(t, c, par[0])
    else if c == 'm' then t.(attr := Attributes(t.attr, par, npar + 1))
    else if c == 'r' then Region(t, par[0], par[1])
    else if c == 's' then Saved(t)
    else if c == 'u' then Restored(t)
    else t
  }

  function Saved(t: Term): (r: Term)
    requires TermOk(t)
    ensures TermOk(r)
  {
    t.(savedX := t.x, savedY := t.y)
  }

  function Restored(t: Term): (r: Term)
    requires TermOk(t)
    ensures TermOk(r)
  {
    t.(x := t.savedX, y := t.savedY)
  }

  // ------------------------------------------------------------------ the parser

  predicate Printable(c: char) { 31 < c as int < 127 }

  /** State 0. Bytes above 127 are negative as signed characters and match nothing. */
  function Ground(t: Term, c: char, erase: char): (r: Term)
    requires TermOk(t)
    ensures TermOk(r)
  {
    if Printable(c) then Print(t, c as int)
    else if c as int == 27 then t.(state := 1)
    else if 10 <= c as int <= 12 then LineFeed(t)
    else if c as int == 13 then t.(x := 0)
    else if c == erase && c as int < 128 then Delete(t)
    else if c as int == 8 then t.(x := if t.x > 0 then t.x - 1 else 0)
    else if c as int == 9 then Tab(t)
    else t
  }

  /** State 1, already back in state 0. Saving and restoring depend on the column (55 or 56), not on c. */
  function Escape(t: Term, c: char): (r: Term)
    requires TermOk(t)
    ensures TermOk(r)
  {
    if c == '[' then t.(state := 2)
    else if c == 'E' then Moved(t, 0, t.y + 1)
    else if c == 'M' then ReverseFeed(t)
    else if c == 'D' then LineFeed(t)
    else if c == 'Z' then t.(replies := t.replies + 1)
    else if t.x == '7' as int then Saved(t)
    else if t.x == '8' as int then Restored(t)
    else t
  }

  predicate Digit(c: char) { '0' <= c <= '9' }

  function AddDigit(p: int, c: char): int { U32(10 * p + c as int - '0' as int) }

  function NoPars(): (r: seq<int>)
    ensures ParOk(r)
  {
    seq(NPAR, _ => 0)
  }

  function ToGround(t: Term): (r: Term)
    requires TermOk(t)
    ensures TermOk(r)
  {
    t.(state := 0, npar := 0, par := NoPars())
  }

  /** State 3. */
  function Parameters(t: Term, c: char): (r: Term)
    requires TermOk(t)
    ensures TermOk(r)
  {
    if c == ';' && t.npar < NPAR - 1 then t.(npar := t.npar + 1)
    else if Digit(c) then t.(par := t.par[t.npar := AddDigit(t.par[t.npar], c)])
    else Command(ToGround(t), c, t.par, t.npar)
  }

  /** State 2: the parameters are cleared, then the byte is read as in state 3 unless it is `?`. */
  function Bracket(t: Term, c: char): (r: Term)
    requires TermOk(t)
    ensures TermOk(r)
  {
    var u := t.(state := 3, npar := 0, par := NoPars(), ques := c == '?');
    if c == '?' then u else Parameters(u, c)
  }

  function TermStep(t: Term, c: char, erase: char): (r: Term)
    requires TermOk(t)
    ensures TermOk(r)
  {
    if t.state == 0 then Ground(t, c, erase)
    else if t.state == 1 then Escape(t.(state := 0), c)
    else if t.state == 2 then Bracket(t, c)
    else Parameters(t, c)
  }

  function TermRun(t: Term, s: string, erase: char): (r: Term)
    requires TermOk(t)
    ensures TermOk(r)
    decreases |s|
  {
    if s == [] then t else TermStep(TermRun(t, s[..|s| - 1], erase), s[|s| - 1], erase)
  }

  lemma RunNext(t: Term, s: string, n: nat, erase: char)
    requires TermOk(t) && n < |s|
    ensures TermRun(t, s[..n + 1], erase) == TermStep(TermRun(t, s[..n], erase), s[n], erase)
  {
    assert s[..n + 1][..n] == s[..n];
  }
}

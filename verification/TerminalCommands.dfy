/**
  What the control codes and control sequences do, in rows and columns, over the bytes that are written:
  where the cursor goes, which cells are blanked, kept or moved, and which attribute is selected.
 */
module TerminalCommands {
  import opened Terminal
  import opened TerminalLaws

  /** The character and attribute in a row and column. */
  function Cell(s: Screen, row: int, col: int): int
    requires |s| == CELLS && 0 <= row < LINES && 0 <= col < COLUMNS
  {
    s[row * COLUMNS + col]
  }

  /** Parameter i as the console holds it: a 32-bit word, and 0 when it is absent or empty. */
  function Param(ns: seq<int>, i: nat): int { if i < |ns| && ns[i] >= 0 then ns[i] % WORD else 0 }

  /** A count or distance: absent and 0 both stand for 1. */
  function Times(ns: seq<int>): (n: int)
    ensures n >= 1
  {
    if Param(ns, 0) == 0 then 1 else Param(ns, 0)
  }

  /** A coordinate: counted from 1, and absent and 0 both stand for the first. */
  function Coordinate(ns: seq<int>, i: nat): (n: int)
    ensures n >= 0
  {
    if Param(ns, i) == 0 then 0 else Param(ns, i) - 1
  }

  lemma SequenceRuns(t: Term, ns: seq<int>, c: char, erase: char) returns (par: seq<int>)
    requires Idle(t) && |ns| <= NPAR && Final(ns, c)
    ensures ParOk(par) && par[0] == Param(ns, 0) && par[1] == Param(ns, 1)
    ensures TermRun(t, Sequence(ns, c), erase) == Command(t.(ques := false), c, par, LastPar(ns))
  {
    ControlSequence(t, ns, c, erase);
    par := Pars(ns);
  }

  // ------------------------------------------------------------------ erasing

  /** ESC [ p K: from the cursor to the end of its row for 0, from the start of the row up to the cursor for 1,
      the whole row for 2, and nothing for any other p. */
  lemma ErasesInLine(t: Term, ns: seq<int>, erase: char)
    requires Idle(t) && |ns| <= NPAR
    ensures var u, p := TermRun(t, Sequence(ns, 'K'), erase), Param(ns, 0);
            && u == t.(ques := false, screen := u.screen)
            && forall row, col :: 0 <= row < LINES && 0 <= col < COLUMNS ==>
                 Cell(u.screen, row, col) ==
                   if row == t.y && ((p == 0 && t.x <= col) || (p == 1 && col < t.x) || p == 2) then BLANK
                   else Cell(t.screen, row, col)
  {
    var p := EditRuns(t, ns, 'K', erase);
    LineErased(t.(ques := false), p);
  }

  lemma LineErased(t: Term, p: int)
    requires TermOk(t) && 0 <= p
    ensures var u := EditCommand(t, 'K', p);
            && u == t.(screen := u.screen)
            && forall row, col :: 0 <= row < LINES && 0 <= col < COLUMNS ==>
                 Cell(u.screen, row, col) ==
                   if row == t.y && ((p == 0 && t.x <= col) || (p == 1 && col < t.x) || p == 2) then BLANK
                   else Cell(t.screen, row, col)
  {
  }

  /** ESC [ p J: from the cursor to the end of the screen for 0, from the start of the screen up to the cursor
      for 1, the whole screen for 2, and nothing for any other p. */
  lemma ErasesInDisplay(t: Term, ns: seq<int>, erase: char)
    requires Idle(t) && |ns| <= NPAR
    ensures var u, p := TermRun(t, Sequence(ns, 'J'), erase), Param(ns, 0);
            && u == t.(ques := false, screen := u.screen)
            && forall row, col :: 0 <= row < LINES && 0 <= col < COLUMNS ==>
                 Cell(u.screen, row, col) ==
                   if (p == 0 && (row > t.y || (row == t.y && t.x <= col)))
                      || (p == 1 && (row < t.y || (row == t.y && col < t.x))) || p == 2 then BLANK
                   else Cell(t.screen, row, col)
  {
    var p := EditRuns(t, ns, 'J', erase);
    DisplayErased(t.(ques := false), p);
  }

  lemma DisplayErased(t: Term, p: int)
    requires TermOk(t) && 0 <= p
    ensures var u := EditCommand(t, 'J', p);
            && u == t.(screen := u.screen)
            && forall row, col :: 0 <= row < LINES && 0 <= col < COLUMNS ==>
                 Cell(u.screen, row, col) ==
                   if (p == 0 && (row > t.y || (row == t.y && t.x <= col)))
                      || (p == 1 && (row < t.y || (row == t.y && col < t.x))) || p == 2 then BLANK
                   else Cell(t.screen, row, col)
  {
  }

  // ------------------------------------------------------------------ moving the cursor

  /** Where motion from `at` to `to` ends on an axis of `size` places: targets are 32-bit words, and motion
      off the axis is ignored. */
  function Reached(at: int, to: int, size: int): int {
    if 0 <= to < size then to
    else if 0 <= to + WORD < size then to + WORD
    else if 0 <= to - WORD < size then to - WORD else at
  }

  lemma MotionRuns(t: Term, ns: seq<int>, c: char, erase: char) returns (p: int, q: int)
    requires Idle(t) && |ns| <= NPAR && IsMove(c)
    ensures 0 <= p < WORD && p == Param(ns, 0) && 0 <= q < WORD && q == Param(ns, 1)
    ensures TermRun(t, Sequence(ns, c), erase) == MoveCommand(t.(ques := false), c, p, q)
  {
    var par := SequenceRuns(t, ns, c, erase);
    p, q := par[0], par[1];
  }

  /** A number less than 2^32 away from the axis names a place on it modulo 2^32 in at most one way. */
  lemma WrapsOnce(to: int, size: int)
    requires 0 < size <= COLUMNS + 1 && -WORD < to < 2 * WORD - size
    ensures U32(to) == if to < 0 then to + WORD else if to < WORD then to else to - WORD
  {
  }

  /** gotoxy with its arguments as 32-bit words, in the same column, in the same row and to the first column. */
  lemma RowMoved(t: Term, to: int)
    requires TermOk(t) && -WORD < to < WORD + LINES
    ensures Moved(t, t.x, to) == t.(y := if t.x < COLUMNS then Reached(t.y, to, LINES) else t.y)
  {
    WrapsOnce(to, LINES);
    WrapsOnce(t.x, COLUMNS);
  }

  lemma ColumnMoved(t: Term, to: int)
    requires TermOk(t) && -WORD < to < WORD + COLUMNS
    ensures Moved(t, to, t.y) == t.(x := Reached(t.x, to, COLUMNS))
  {
    WrapsOnce(to, COLUMNS);
    WrapsOnce(t.y, LINES);
  }

  lemma StartMoved(t: Term, to: int)
    requires TermOk(t) && t.y - WORD < to < WORD + t.y && to != t.y
    ensures var y := Reached(t.y, to, LINES);
            Moved(t, 0, to) == t.(y := y, x := if y == t.y then t.x else 0)
  {
    WrapsOnce(to, LINES);
  }

  lemma PlaceMoved(t: Term, x: int, y: int)
    requires TermOk(t) && 0 <= x < WORD && 0 <= y < WORD
    ensures Moved(t, x, y) == if x < COLUMNS && y < LINES then t.(x := x, y := y) else t
  {
    WrapsOnce(x, COLUMNS);
    WrapsOnce(y, LINES);
  }

  lemma RowCommand(t: Term, c: char, p: int, q: int, n: int)
    requires TermOk(t) && (c == 'A' || c == 'B' || c == 'e') && n == if p == 0 then 1 else p
    ensures MoveCommand(t, c, p, q) == Moved(t, t.x, if c == 'A' then t.y - n else t.y + n)
  {
  }

  lemma RowsMoved(t: Term, c: char, p: int, q: int, n: int)
    requires TermOk(t) && (c == 'A' || c == 'B' || c == 'e') && n == (if p == 0 then 1 else p) && 0 < n < WORD
    ensures MoveCommand(t, c, p, q) ==
            t.(y := if t.x < COLUMNS then Reached(t.y, if c == 'A' then t.y - n else t.y + n, LINES) else t.y)
  {
    RowCommand(t, c, p, q, n);
    RowMoved(t, if c == 'A' then t.y - n else t.y + n);
  }

  /** ESC [ n A and ESC [ n B (or e): n rows up and down. Behind the last column nothing moves. */
  lemma MovesByRows(t: Term, ns: seq<int>, c: char, erase: char)
    requires Idle(t) && |ns| <= NPAR && (c == 'A' || c == 'B' || c == 'e')
    ensures var to := if c == 'A' then t.y - Times(ns) else t.y + Times(ns);
            TermRun(t, Sequence(ns, c), erase) ==
              t.(ques := false, y := if t.x < COLUMNS then Reached(t.y, to, LINES) else t.y)
  {
    var p, q := MotionRuns(t, ns, c, erase);
    RowsMoved(t.(ques := false), c, p, q, Times(ns));
  }

  lemma StartCommand(t: Term, c: char, p: int, q: int, n: int)
    requires TermOk(t) && (c == 'E' || c == 'F') && n == if p == 0 then 1 else p
    ensures MoveCommand(t, c, p, q) == Moved(t, 0, if c == 'F' then t.y - n else t.y + n)
  {
  }

  lemma StartsMoved(t: Term, c: char, p: int, q: int, n: int)
    requires TermOk(t) && (c == 'E' || c == 'F') && n == (if p == 0 then 1 else p) && 0 < n < WORD
    ensures var y := Reached(t.y, if c == 'F' then t.y - n else t.y + n, LINES);
            MoveCommand(t, c, p, q) == t.(y := y, x := if y == t.y then t.x else 0)
  {
    StartCommand(t, c, p, q, n);
    StartMoved(t, if c == 'F' then t.y - n else t.y + n);
  }

  lemma InRowCommand(t: Term, c: char, p: int, q: int, col: int)
    requires TermOk(t) && (c == 'G' || c == '`') && p >= 0 && col == if p == 0 then 0 else p - 1
    ensures MoveCommand(t, c, p, q) == Moved(t, col, t.y)
  {
  }

  lemma ColumnCommand(t: Term, c: char, p: int, q: int, n: int)
    requires TermOk(t) && (c == 'C' || c == 'a' || c == 'D') && n == if p == 0 then 1 else p
    ensures MoveCommand(t, c, p, q) == Moved(t, if c == 'D' then t.x - n else t.x + n, t.y)
  {
  }

  lemma ColumnsMoved(t: Term, c: char, p: int, q: int, n: int)
    requires TermOk(t) && (c == 'C' || c == 'a' || c == 'D') && n == (if p == 0 then 1 else p) && 0 < n < WORD
    ensures MoveCommand(t, c, p, q) ==
            t.(x := Reached(t.x, if c == 'D' then t.x - n else t.x + n, COLUMNS))
  {
    ColumnCommand(t, c, p, q, n);
    ColumnMoved(t, if c == 'D' then t.x - n else t.x + n);
  }

  lemma PositionCommand(t: Term, c: char, p: int, q: int, row: int, col: int)
    requires TermOk(t) && (c == 'H' || c == 'f') && p >= 0 && q >= 0
    requires row == (if p == 0 then 0 else p - 1) && col == if q == 0 then 0 else q - 1
    ensures MoveCommand(t, c, p, q) == Moved(t, col, row)
  {
  }

  /** ESC [ n C (or a) and ESC [ n D: n columns to the right and to the left. */
  lemma MovesByColumns(t: Term, ns: seq<int>, c: char, erase: char)
    requires Idle(t) && |ns| <= NPAR && (c == 'C' || c == 'a' || c == 'D')
    ensures var to := if c == 'D' then t.x - Times(ns) else t.x + Times(ns);
            TermRun(t, Sequence(ns, c), erase) == t.(ques := false, x := Reached(t.x, to, COLUMNS))
  {
    var p, q := MotionRuns(t, ns, c, erase);
    ColumnsMoved(t.(ques := false), c, p, q, Times(ns));
  }

  /** ESC [ n E and ESC [ n F: to the first column, n rows down and up. */
  lemma MovesToLineStart(t: Term, ns: seq<int>, c: char, erase: char)
    requires Idle(t) && |ns| <= NPAR && (c == 'E' || c == 'F')
    ensures var to := if c == 'F' then t.y - Times(ns) else t.y + Times(ns);
            var y := Reached(t.y, to, LINES);
            TermRun(t, Sequence(ns, c), erase) == t.(ques := false, y := y, x := if y == t.y then t.x else 0)
  {
    var p, q := MotionRuns(t, ns, c, erase);
    StartsMoved(t.(ques := false), c, p, q, Times(ns));
  }

  /** ESC [ n G (or `): to column n of the row; beyond the last column nothing moves. */
  lemma MovesToColumn(t: Term, ns: seq<int>, c: char, erase: char)
    requires Idle(t) && |ns| <= NPAR && (c == 'G' || c == '`')
    ensures var n := Coordinate(ns, 0);
            TermRun(t, Sequence(ns, c), erase) == t.(ques := false, x := if n < COLUMNS then n else t.x)
  {
    var p, q := MotionRuns(t, ns, c, erase);
    InRowCommand(t.(ques := false), c, p, q, Coordinate(ns, 0));
    PlaceMoved(t.(ques := false), Coordinate(ns, 0), t.y);
  }

  /** ESC [ n d: to row n in the same column; below the last row or behind the last column nothing moves. */
  lemma MovesToRow(t: Term, ns: seq<int>, erase: char)
    requires Idle(t) && |ns| <= NPAR
    ensures var n := Coordinate(ns, 0);
            TermRun(t, Sequence(ns, 'd'), erase) ==
              t.(ques := false, y := if n < LINES && t.x < COLUMNS then n else t.y)
  {
    var p, q := MotionRuns(t, ns, 'd', erase);
    PlaceMoved(t.(ques := false), t.x, Coordinate(ns, 0));
  }

  /** ESC [ row ; column H (or f): to that place, or nowhere when it is off the screen. */
  lemma CursorPosition(t: Term, at: seq<int>, c: char, erase: char)
    requires Idle(t) && |at| <= NPAR && (c == 'H' || c == 'f')
    ensures var row, col := Coordinate(at, 0), Coordinate(at, 1);
            TermRun(t, Sequence(at, c), erase) ==
              if row < LINES && col < COLUMNS then t.(ques := false, x := col, y := row) else t.(ques := false)
  {
    var p, q := MotionRuns(t, at, c, erase);
    PositionCommand(t.(ques := false), c, p, q, Coordinate(at, 0), Coordinate(at, 1));
    PlaceMoved(t.(ques := false), Coordinate(at, 1), Coordinate(at, 0));
  }

  // ------------------------------------------------------------------ inserting and deleting

  lemma {:induction false} LinesInserted(s: Screen, x: int, y: int, n: nat, i: int)
    requires |s| == CELLS && 0 <= x <= COLUMNS && 0 <= y < LINES && 0 <= i < CELLS
    ensures Repeated(s, x, y, InsLine, n)[i] ==
            if i < y * COLUMNS then s[i] else if i < (y + n) * COLUMNS then BLANK else s[i - n * COLUMNS]
  {
    if n > 0 && i >= (y + 1) * COLUMNS {
      LinesInserted(s, x, y, n - 1, i - COLUMNS);
    } else if n > 0 {
      LinesInserted(s, x, y, n - 1, i);
    }
  }

  lemma {:induction false} LinesDeleted(s: Screen, x: int, y: int, n: nat, i: int)
    requires |s| == CELLS && 0 <= x <= COLUMNS && 0 <= y < LINES && 0 <= i < CELLS
    ensures Repeated(s, x, y, DelLine, n)[i] ==
            if i < y * COLUMNS then s[i] else if i + n * COLUMNS < CELLS then s[i + n * COLUMNS] else BLANK
  {
    if n > 0 && y * COLUMNS <= i < CELLS - COLUMNS {
      LinesDeleted(s, x, y, n - 1, i + COLUMNS);
    } else if n > 0 {
      LinesDeleted(s, x, y, n - 1, i);
    }
  }

  lemma {:induction false} CharsInserted(s: Screen, x: int, y: int, n: nat, row: int, col: int)
    requires |s| == CELLS && 0 <= x <= COLUMNS && 0 <= y < LINES && 0 <= row < LINES && 0 <= col < COLUMNS
    ensures Cell(Repeated(s, x, y, InsChar, n), row, col) ==
            if row != y || col < x then Cell(s, row, col)
            else if col < x + n then BLANK else Cell(s, row, col - n)
  {
    if n > 0 && row == y && col > x {
      CharsInserted(s, x, y, n - 1, row, col - 1);
    } else if n > 0 {
      CharsInserted(s, x, y, n - 1, row, col);
    }
  }

  lemma {:induction false} CharsDeleted(s: Screen, x: int, y: int, n: nat, row: int, col: int)
    requires |s| == CELLS && 0 <= x <= COLUMNS && 0 <= y < LINES && 0 <= row < LINES && 0 <= col < COLUMNS
    ensures Cell(Repeated(s, x, y, DelChar, n), row, col) ==
            if row != y || col < x then Cell(s, row, col)
            else if col + n < COLUMNS then Cell(s, row, col + n) else BLANK
  {
    if n > 0 && row == y && x <= col < COLUMNS - 1 {
      CharsDeleted(s, x, y, n - 1, row, col + 1);
    } else if n > 0 {
      CharsDeleted(s, x, y, n - 1, row, col);
    }
  }

  lemma LineIn(s: Screen, x: int, y: int, p: int, n: int, row: int, col: int)
    requires |s| == CELLS && 0 <= x <= COLUMNS && 0 <= y < LINES && 0 <= row < LINES && 0 <= col < COLUMNS
    requires 0 <= p && n == if p == 0 then 1 else p
    ensures Cell(Repeated(s, x, y, InsLine, Count(p, LINES)), row, col) ==
            if row < y then Cell(s, row, col)
            else if row < y + n then BLANK else Cell(s, row - n, col)
  {
    LinesInserted(s, x, y, Count(p, LINES), row * COLUMNS + col);
  }

  lemma LineOut(s: Screen, x: int, y: int, p: int, n: int, row: int, col: int)
    requires |s| == CELLS && 0 <= x <= COLUMNS && 0 <= y < LINES && 0 <= row < LINES && 0 <= col < COLUMNS
    requires 0 <= p && n == if p == 0 then 1 else p
    ensures Cell(Repeated(s, x, y, DelLine, Count(p, LINES)), row, col) ==
            if row < y then Cell(s, row, col)
            else if row + n < LINES then Cell(s, row + n, col) else BLANK
  {
    LinesDeleted(s, x, y, Count(p, LINES), row * COLUMNS + col);
  }

  lemma CharIn(s: Screen, x: int, y: int, p: int, n: int, row: int, col: int)
    requires |s| == CELLS && 0 <= x <= COLUMNS && 0 <= y < LINES && 0 <= row < LINES && 0 <= col < COLUMNS
    requires 0 <= p && n == if p == 0 then 1 else p
    ensures Cell(Repeated(s, x, y, InsChar, Count(p, COLUMNS)), row, col) ==
            if row != y || col < x then Cell(s, row, col)
            else if col < x + n then BLANK else Cell(s, row, col - n)
  {
    CharsInserted(s, x, y, Count(p, COLUMNS), row, col);
  }

  lemma CharOut(s: Screen, x: int, y: int, p: int, n: int, row: int, col: int)
    requires |s| == CELLS && 0 <= x <= COLUMNS && 0 <= y < LINES && 0 <= row < LINES && 0 <= col < COLUMNS
    requires 0 <= p && n == if p == 0 then 1 else p
    ensures Cell(Repeated(s, x, y, DelChar, Count(p, COLUMNS)), row, col) ==
            if row != y || col < x then Cell(s, row, col)
            else if col + n < COLUMNS then Cell(s, row, col + n) else BLANK
  {
    CharsDeleted(s, x, y, Count(p, COLUMNS), row, col);
  }

  lemma LineIns(t: Term, p: int, n: int)
    requires TermOk(t) && 0 <= p && n == if p == 0 then 1 else p
    ensures var u := EditCommand(t, 'L', p);
            && u == t.(screen := u.screen)
            && forall row, col {:trigger Cell(u.screen, row, col)} :: 0 <= row < LINES && 0 <= col < COLUMNS ==>
                 Cell(u.screen, row, col) ==
                   if row < t.y then Cell(t.screen, row, col)
                   else if row < t.y + n then BLANK else Cell(t.screen, row - n, col)
  {
    var u := EditCommand(t, 'L', p);
    forall row, col {:trigger Cell(u.screen, row, col)} | 0 <= row < LINES && 0 <= col < COLUMNS
      ensures Cell(u.screen, row, col) ==
              if row < t.y then Cell(t.screen, row, col)
              else if row < t.y + n then BLANK else Cell(t.screen, row - n, col)
    {
      LineIn(t.screen, t.x, t.y, p, n, row, col);
    }
  }

  lemma LineOuts(t: Term, p: int, n: int)
    requires TermOk(t) && 0 <= p && n == if p == 0 then 1 else p
    ensures var u := EditCommand(t, 'M', p);
            && u == t.(screen := u.screen)
            && forall row, col {:trigger Cell(u.screen, row, col)} :: 0 <= row < LINES && 0 <= col < COLUMNS ==>
                 Cell(u.screen, row, col) ==
                   if row < t.y then Cell(t.screen, row, col)
                   else if row + n < LINES then Cell(t.screen, row + n, col) else BLANK
  {
    var u := EditCommand(t, 'M', p);
    forall row, col {:trigger Cell(u.screen, row, col)} | 0 <= row < LINES && 0 <= col < COLUMNS
      ensures Cell(u.screen, row, col) ==
              if row < t.y then Cell(t.screen, row, col)
              else if row + n < LINES then Cell(t.screen, row + n, col) else BLANK
    {
      LineOut(t.screen, t.x, t.y, p, n, row, col);
    }
  }

  lemma CharIns(t: Term, p: int, n: int)
    requires TermOk(t) && 0 <= p && n == if p == 0 then 1 else p
    ensures var u := EditCommand(t, '@', p);
            && u == t.(screen := u.screen)
            && forall row, col {:trigger Cell(u.screen, row, col)} :: 0 <= row < LINES && 0 <= col < COLUMNS ==>
                 Cell(u.screen, row, col) ==
                   if row != t.y || col < t.x then Cell(t.screen, row, col)
                   else if col < t.x + n then BLANK else Cell(t.screen, row, col - n)
  {
    var u := EditCommand(t, '@', p);
    forall row, col {:trigger Cell(u.screen, row, col)} | 0 <= row < LINES && 0 <= col < COLUMNS
      ensures Cell(u.screen, row, col) ==
              if row != t.y || col < t.x then Cell(t.screen, row, col)
              else if col < t.x + n then BLANK else Cell(t.screen, row, col - n)
    {
      CharIn(t.screen, t.x, t.y, p, n, row, col);
    }
  }

  lemma CharOuts(t: Term, p: int, n: int)
    requires TermOk(t) && 0 <= p && n == if p == 0 then 1 else p
    ensures var u := EditCommand(t, 'P', p);
            && u == t.(screen := u.screen)
            && forall row, col {:trigger Cell(u.screen, row, col)} :: 0 <= row < LINES && 0 <= col < COLUMNS ==>
                 Cell(u.screen, row, col) ==
                   if row != t.y || col < t.x then Cell(t.screen, row, col)
                   else if col + n < COLUMNS then Cell(t.screen, row, col + n) else BLANK
  {
    var u := EditCommand(t, 'P', p);
    forall row, col {:trigger Cell(u.screen, row, col)} | 0 <= row < LINES && 0 <= col < COLUMNS
      ensures Cell(u.screen, row, col) ==
              if row != t.y || col < t.x then Cell(t.screen, row, col)
              else if col + n < COLUMNS then Cell(t.screen, row, col + n) else BLANK
    {
      CharOut(t.screen, t.x, t.y, p, n, row, col);
    }
  }

  lemma EditRuns(t: Term, ns: seq<int>, c: char, erase: char) returns (p: int)
    requires Idle(t) && |ns| <= NPAR && IsEdit(c)
    ensures 0 <= p < WORD && p == Param(ns, 0)
    ensures TermRun(t, Sequence(ns, c), erase) == EditCommand(t.(ques := false), c, p)
  {
    var par := SequenceRuns(t, ns, c, erase);
    p := par[0];
  }

  /** ESC [ n L: n blank rows come in at the cursor's row, and the rows from there on move down. */
  lemma InsertsLines(t: Term, ns: seq<int>, erase: char)
    requires Idle(t) && |ns| <= NPAR
    ensures var u, n := TermRun(t, Sequence(ns, 'L'), erase), Times(ns);
            && u == t.(ques := false, screen := u.screen)
            && forall row, col {:trigger Cell(u.screen, row, col)} :: 0 <= row < LINES && 0 <= col < COLUMNS ==>
                 Cell(u.screen, row, col) ==
                   if row < t.y then Cell(t.screen, row, col)
                   else if row < t.y + n then BLANK else Cell(t.screen, row - n, col)
  {
    var p := EditRuns(t, ns, 'L', erase);
    LineIns(t.(ques := false), p, Times(ns));
  }

  /** ESC [ n M: n rows from the cursor's row on are dropped, those below move up, and blank rows follow. */
  lemma DeletesLines(t: Term, ns: seq<int>, erase: char)
    requires Idle(t) && |ns| <= NPAR
    ensures var u, n := TermRun(t, Sequence(ns, 'M'), erase), Times(ns);
            && u == t.(ques := false, screen := u.screen)
            && forall row, col {:trigger Cell(u.screen, row, col)} :: 0 <= row < LINES && 0 <= col < COLUMNS ==>
                 Cell(u.screen, row, col) ==
                   if row < t.y then Cell(t.screen, row, col)
                   else if row + n < LINES then Cell(t.screen, row + n, col) else BLANK
  {
    var p := EditRuns(t, ns, 'M', erase);
    LineOuts(t.(ques := false), p, Times(ns));
  }

  /** ESC [ n @: n blanks come in at the cursor, and the rest of its row moves right. */
  lemma InsertsChars(t: Term, ns: seq<int>, erase: char)
    requires Idle(t) && |ns| <= NPAR
    ensures var u, n := TermRun(t, Sequence(ns, '@'), erase), Times(ns);
            && u == t.(ques := false, screen := u.screen)
            && forall row, col {:trigger Cell(u.screen, row, col)} :: 0 <= row < LINES && 0 <= col < COLUMNS ==>
                 Cell(u.screen, row, col) ==
                   if row != t.y || col < t.x then Cell(t.screen, row, col)
                   else if col < t.x + n then BLANK else Cell(t.screen, row, col - n)
  {
    var p := EditRuns(t, ns, '@', erase);
    CharIns(t.(ques := false), p, Times(ns));
  }

  /** ESC [ n P: n characters from the cursor on are dropped, the rest of the row moves left, and blanks follow. */
  lemma DeletesChars(t: Term, ns: seq<int>, erase: char)
    requires Idle(t) && |ns| <= NPAR
    ensures var u, n := TermRun(t, Sequence(ns, 'P'), erase), Times(ns);
            && u == t.(ques := false, screen := u.screen)
            && forall row, col {:trigger Cell(u.screen, row, col)} :: 0 <= row < LINES && 0 <= col < COLUMNS ==>
                 Cell(u.screen, row, col) ==
                   if row != t.y || col < t.x then Cell(t.screen, row, col)
                   else if col + n < COLUMNS then Cell(t.screen, row, col + n) else BLANK
  {
    var p := EditRuns(t, ns, 'P', erase);
    CharOuts(t.(ques := false), p, Times(ns));
  }

  // ------------------------------------------------------------------ attribute, region, saved cursor

  lemma {:induction false} AttributesPrefix(attr: int, par: seq<int>, par': seq<int>, n: nat)
    requires n <= |par| && n <= |par'| && forall i :: 0 <= i < n ==> par[i] == par'[i]
    ensures Attributes(attr, par, n) == Attributes(attr, par', n)
    decreases n
  {
    if n > 0 { AttributesPrefix(attr, par, par', n - 1); }
  }

  lemma AttributeRuns(t: Term, ns: seq<int>, erase: char)
    requires Idle(t) && |ns| <= NPAR
    ensures TermRun(t, Sequence(ns, 'm'), erase) ==
            t.(ques := false, attr := Attributes(t.attr, Pars(ns), LastPar(ns) + 1))
  {
    ControlSequence(t, ns, 'm', erase);
  }

  /** ESC [ n1 ; ... ; nk m: the last parameter selects the attribute (plain, bright or reverse); one that names
      none leaves what the sequence without it selects. */
  lemma SelectsAttribute(t: Term, ns: seq<int>, erase: char)
    requires Idle(t) && |ns| <= NPAR
    ensures var u, p := TermRun(t, Sequence(ns, 'm'), erase), Param(ns, LastPar(ns));
            && u == t.(ques := false, attr := u.attr)
            && u.attr == if p == 0 || p == 27 then 0x07 else if p == 1 || p == 4 then 0x0f
                         else if p == 7 then 0x70
                         else if |ns| <= 1 then t.attr
                         else TermRun(t, Sequence(ns[..|ns| - 1], 'm'), erase).attr
  {
    AttributeRuns(t, ns, erase);
    var k, par := LastPar(ns), Pars(ns);
    assert par[k] == Param(ns, k);
    assert Attributes(t.attr, par, k + 1) == Attribute(Attributes(t.attr, par, k), par[k]);
    if k > 0 {
      var init := ns[..k];
      AttributeRuns(t, init, erase);
      AttributesPrefix(t.attr, par, Pars(init), k);
    }
  }

  /** ESC [ top ; bottom r: the scroll region is set when it holds at least one row and lies on the screen. */
  lemma SetsRegion(t: Term, ns: seq<int>, erase: char)
    requires Idle(t) && |ns| <= NPAR
    ensures var top, bottom := Coordinate(ns, 0), if Param(ns, 1) == 0 then LINES else Param(ns, 1);
            TermRun(t, Sequence(ns, 'r'), erase) ==
              if top < bottom <= LINES then t.(ques := false, top := top, bottom := bottom) else t.(ques := false)
  {
    var par := SequenceRuns(t, ns, 'r', erase);
  }

  /** ESC [ s saves the cursor. */
  lemma SavesCursor(t: Term, ns: seq<int>, erase: char)
    requires Idle(t) && |ns| <= NPAR
    ensures TermRun(t, Sequence(ns, 's'), erase) == t.(ques := false, savedX := t.x, savedY := t.y)
  {
    var par := SequenceRuns(t, ns, 's', erase);
  }

  /** ESC [ u puts the cursor where it was saved. */
  lemma RestoresCursor(t: Term, ns: seq<int>, erase: char)
    requires Idle(t) && |ns| <= NPAR
    ensures TermRun(t, Sequence(ns, 'u'), erase) == t.(ques := false, x := t.savedX, y := t.savedY)
  {
    var par := SequenceRuns(t, ns, 'u', erase);
  }

  /** Any other final byte does nothing. */
  lemma OthersIgnored(t: Term, ns: seq<int>, c: char, erase: char)
    requires Idle(t) && |ns| <= NPAR && Final(ns, c) && c !in "AaBCDdEeFfGHJKLMmPrsu@`"
    ensures TermRun(t, Sequence(ns, c), erase) == t.(ques := false)
  {
    var par := SequenceRuns(t, ns, c, erase);
  }

  // ------------------------------------------------------------------ private sequences

  /** The sequence ESC [ ? n1 ; ... ; nk c. */
  function Private(ns: seq<int>, c: char): string { [27 as char, '['] + ['?'] + Numbers(ns) + [c] }

  /** A question mark after the bracket is remembered and otherwise makes no difference. */
  lemma PrivateRuns(t: Term, ns: seq<int>, c: char, erase: char)
    requires Idle(t) && |ns| <= NPAR && Final(ns, c)
    ensures TermRun(t, Private(ns, c), erase) == TermRun(t, Sequence(ns, c), erase).(ques := true)
  {
    ControlSequence(t, ns, c, erase);
    var u := t.(state := 3, ques := true);
    QuestionMark(t, erase);
    AllNumbers(u, ns, erase);
    RunConcat(t, [27 as char, '['] + ['?'], Numbers(ns), erase);
    RunConcat(t, [27 as char, '['] + ['?'] + Numbers(ns), [c], erase);
    EndsSequence(t, u.(par := Pars(ns), npar := LastPar(ns)), ns, c, erase);
    CommandKeepsQues(t, c, Pars(ns), LastPar(ns));
  }

  lemma QuestionMark(t: Term, erase: char)
    requires Idle(t)
    ensures TermRun(t, [27 as char, '['] + ['?'], erase) == t.(state := 3, ques := true)
  {
    RunConcat(t, [27 as char, '['], ['?'], erase);
    EscBracket(t, erase);
    RunOne(t.(state := 2), '?', erase);
  }

  lemma CommandKeepsQues(t: Term, c: char, par: seq<int>, npar: int)
    requires TermOk(t) && ParOk(par) && 0 <= npar < NPAR
    ensures Command(t.(ques := true), c, par, npar) == Command(t.(ques := false), c, par, npar).(ques := true)
  {
    if IsMove(c) { MoveKeepsQues(t, c, par[0], par[1]); } else if IsEdit(c) { EditKeepsQues(t, c, par[0]); }
  }

  lemma MoveKeepsQues(t: Term, c: char, p: int, q: int)
    requires TermOk(t)
    ensures MoveCommand(t.(ques := true), c, p, q) == MoveCommand(t.(ques := false), c, p, q).(ques := true)
  {
    var at := Target(t.x, t.y, c, p, q);
  }

  lemma EditKeepsQues(t: Term, c: char, p: int)
    requires TermOk(t) && 0 <= p
    ensures EditCommand(t.(ques := true), c, p) == EditCommand(t.(ques := false), c, p).(ques := true)
  {
  }

  // ------------------------------------------------------------------ control codes

  /** Rows top..bottom-1 of s moved up by one in u, with a blank row at the end; the others as they were. */
  ghost predicate MovedUp(s: Screen, u: Screen, top: int, bottom: int) {
    && |s| == |u| == CELLS && 0 <= top < bottom <= LINES
    && forall row, col {:trigger Cell(u, row, col)} :: 0 <= row < LINES && 0 <= col < COLUMNS ==>
         Cell(u, row, col) == if row < top || bottom <= row then Cell(s, row, col)
                              else if row == bottom - 1 then BLANK else Cell(s, row + 1, col)
  }

  ghost predicate MovedDown(s: Screen, u: Screen, top: int, bottom: int) {
    && |s| == |u| == CELLS && 0 <= top < bottom <= LINES
    && forall row, col {:trigger Cell(u, row, col)} :: 0 <= row < LINES && 0 <= col < COLUMNS ==>
         Cell(u, row, col) == if row < top || bottom <= row then Cell(s, row, col)
                              else if row == top then BLANK else Cell(s, row - 1, col)
  }

  /** A line feed: above the last row of the region the cursor goes down by one; from there on it stays and the
      region moves up. */
  ghost predicate Fed(t: Term, u: Term) {
    if t.y < t.bottom - 1 then u == t.(y := t.y + 1)
    else u == t.(screen := u.screen) && MovedUp(t.screen, u.screen, t.top, t.bottom)
  }

  lemma FeedIsFed(t: Term)
    requires TermOk(t)
    ensures Fed(t, LineFeed(t))
  {
  }

  /** Line feed, vertical tab and form feed, and ESC D. */
  lemma FeedsLine(t: Term, s: string, erase: char)
    requires TermOk(t) && t.state == 0
    requires (|s| == 1 && 10 <= s[0] as int <= 12) || s == [27 as char, 'D']
    ensures Fed(t, TermRun(t, s, erase))
  {
    FeedIsFed(t);
    if |s| == 1 {
      RunOne(t, s[0], erase);
      assert s == [s[0]];
    } else {
      EscapeRuns(t, 'D', erase);
      assert t.(state := 0) == t;
    }
  }

  lemma EscapeRuns(t: Term, c: char, erase: char)
    requires TermOk(t) && t.state == 0
    ensures TermRun(t, [27 as char, c], erase) == Escape(t, c)
  {
    var esc := 27 as char;
    assert [esc] + [c] == [esc, c];
    RunConcat(t, [esc], [c], erase);
    RunOne(t, esc, erase);
    RunOne(t.(state := 1), c, erase);
    assert t.(state := 1).(state := 0) == t;
  }

  /** ESC M: below the first row of the region the cursor goes up by one; from there on it stays and the region
      moves down. */
  lemma FeedsBack(t: Term, erase: char)
    requires TermOk(t) && t.state == 0
    ensures var u := TermRun(t, [27 as char, 'M'], erase);
            if t.y > t.top then u == t.(y := t.y - 1)
            else u == t.(screen := u.screen) && MovedDown(t.screen, u.screen, t.top, t.bottom)
  {
    EscapeRuns(t, 'M', erase);
    BackIsFed(t);
  }

  lemma BackIsFed(t: Term)
    requires TermOk(t)
    ensures var u := ReverseFeed(t);
            if t.y > t.top then u == t.(y := t.y - 1)
            else u == t.(screen := u.screen) && MovedDown(t.screen, u.screen, t.top, t.bottom)
  {
  }

  /** ESC E: to the start of the next row, which never scrolls. */
  lemma NextLine(t: Term, erase: char)
    requires TermOk(t) && t.state == 0
    ensures TermRun(t, [27 as char, 'E'], erase) == if t.y + 1 < LINES then t.(x := 0, y := t.y + 1) else t
  {
    EscapeRuns(t, 'E', erase);
  }

  /** Any other byte after ESC, but [ and Z: in column 55 the cursor is saved, in column 56 it is restored. */
  lemma EscapesElse(t: Term, c: char, erase: char)
    requires TermOk(t) && t.state == 0 && c !in "[DEMZ"
    ensures TermRun(t, [27 as char, c], erase) ==
            if t.x == 55 then t.(savedX := t.x, savedY := t.y)
            else if t.x == 56 then t.(x := t.savedX, y := t.savedY) else t
  {
    EscapeRuns(t, c, erase);
  }

  /** A printable character goes to the cursor's cell; behind the last column it goes to the first cell of the
      next line. */
  lemma PrintsHere(t: Term, c: char, erase: char)
    requires TermOk(t) && t.state == 0 && Printable(c)
    ensures var u := TermRun(t, [c], erase);
            if t.x < COLUMNS then
              && u == t.(x := t.x + 1, screen := u.screen)
              && forall row, col :: 0 <= row < LINES && 0 <= col < COLUMNS ==>
                   Cell(u.screen, row, col) == if row == t.y && col == t.x then t.attr * 256 + c as int
                                               else Cell(t.screen, row, col)
            else u == TermRun(t.(x := 0), [10 as char, c], erase)
  {
    RunOne(t, c, erase);
    if t.x == COLUMNS {
      var lf, v := 10 as char, t.(x := 0);
      assert [lf] + [c] == [lf, c];
      RunConcat(v, [lf], [c], erase);
      RunOne(v, lf, erase);
      RunOne(LineFeed(v), c, erase);
    }
  }

  /** A tab goes to the next multiple of 8; behind the last column it goes to column 8 of the next line. */
  lemma TabStops(t: Term, erase: char)
    requires TermOk(t) && t.state == 0 && erase as int != 9
    ensures var u := TermRun(t, [9 as char], erase);
            if t.x < COLUMNS then u == t.(x := u.x) && u.x % 8 == 0 && t.x < u.x <= t.x + 8
            else Fed(t.(x := 8), u)
  {
    RunOne(t, 9 as char, erase);
    if t.x == COLUMNS { FeedIsFed(t.(x := 8)); }
  }

  /** The erase character takes back the character before the cursor. */
  lemma ErasesBack(t: Term, erase: char)
    requires TermOk(t) && t.state == 0 && !Printable(erase) && erase as int != 27 && erase as int < 128
    requires !(10 <= erase as int <= 13)
    ensures var u := TermRun(t, [erase], erase);
            if t.x == 0 then u == t
            else
              && u == t.(x := t.x - 1, screen := u.screen)
              && forall row, col :: 0 <= row < LINES && 0 <= col < COLUMNS ==>
                   Cell(u.screen, row, col) == if row == t.y && col == t.x - 1 then BLANK
                                               else Cell(t.screen, row, col)
  {
    RunOne(t, erase, erase);
    assert TermStep(t, erase, erase) == Delete(t);
    DeletesBefore(t);
  }

  lemma DeletesBefore(t: Term)
    requires TermOk(t)
    ensures var u := Delete(t);
            if t.x == 0 then u == t
            else
              && u == t.(x := t.x - 1, screen := u.screen)
              && forall row, col :: 0 <= row < LINES && 0 <= col < COLUMNS ==>
                   Cell(u.screen, row, col) == if row == t.y && col == t.x - 1 then BLANK
                                               else Cell(t.screen, row, col)
  {
  }

  /** Carriage return and backspace move the cursor in its row; the other codes do nothing. */
  lemma OtherCodes(t: Term, c: char, erase: char)
    requires TermOk(t) && t.state == 0 && !Printable(c) && c as int != 27 && c as int != 9
    requires !(10 <= c as int <= 12) && (c as int == 13 || c != erase || c as int >= 128)
    ensures TermRun(t, [c], erase) ==
            if c as int == 13 then t.(x := 0)
            else if c as int == 8 && t.x > 0 then t.(x := t.x - 1) else t
  {
    RunOne(t, c, erase);
  }
}

/**
  What the terminal means: scrolling as an operation on rows, the grammar of control sequences, and the
  screen as the last 25 rows of an endless page.
 */
module TerminalLaws {
  import opened Terminal
  import Echoes

  // ------------------------------------------------------------------ rows

  function Row(s: Screen, r: int): (row: seq<int>)
    requires |s| == CELLS && 0 <= r < LINES
    ensures |row| == COLUMNS
  {
    s[r * COLUMNS..(r + 1) * COLUMNS]
  }

  function BlankRow(): (row: seq<int>)
    ensures |row| == COLUMNS && forall i :: 0 <= i < COLUMNS ==> row[i] == BLANK
  {
    seq(COLUMNS, _ => BLANK)
  }

  lemma UpByRows(s: Screen, top: int, bottom: int, r: int)
    requires |s| == CELLS && 0 <= top < bottom <= LINES && 0 <= r < LINES
    ensures Row(ScrolledUp(s, top, bottom), r) ==
            if top <= r < bottom - 1 then Row(s, r + 1) else if r == bottom - 1 then BlankRow() else Row(s, r)
  {
    var u := ScrolledUp(s, top, bottom);
    var want := if top <= r < bottom - 1 then Row(s, r + 1) else if r == bottom - 1 then BlankRow() else Row(s, r);
    forall i | 0 <= i < COLUMNS ensures Row(u, r)[i] == want[i] {
      assert Row(u, r)[i] == u[r * COLUMNS + i];
    }
  }

  /** The screen upside down. */
  function Flipped(s: Screen): (r: Screen)
    requires |s| == CELLS
    ensures |r| == CELLS
  {
    seq(CELLS, i requires 0 <= i < CELLS => s[CELLS - 1 - i])
  }

  /** Scrolling down is scrolling up seen upside down (and right to left, which a row shift ignores). */
  lemma DownIsMirroredUp(s: Screen, top: int, bottom: int)
    requires |s| == CELLS && 0 <= top < bottom <= LINES
    ensures ScrolledDown(s, top, bottom) == Flipped(ScrolledUp(Flipped(s), LINES - bottom, LINES - top))
  {
    var f := Flipped(s);
    var u := ScrolledUp(f, LINES - bottom, LINES - top);
    var d := ScrolledDown(s, top, bottom);
    forall i | 0 <= i < CELLS ensures d[i] == Flipped(u)[i] {
      assert Flipped(u)[i] == u[CELLS - 1 - i];
    }
  }

  /** Scrolling down after scrolling up loses only the row that was dropped. */
  lemma DownAfterUp(s: Screen, top: int, bottom: int)
    requires |s| == CELLS && 0 <= top < bottom <= LINES
    ensures ScrolledDown(ScrolledUp(s, top, bottom), top, bottom) == Erased(s, top * COLUMNS, COLUMNS)
  {
    var u := ScrolledUp(s, top, bottom);
    var d := ScrolledDown(u, top, bottom);
    forall i | 0 <= i < CELLS ensures d[i] == Erased(s, top * COLUMNS, COLUMNS)[i] {
    }
  }

  // ------------------------------------------------------------------ ESC 7 and ESC 8

  /** ESC 7 saves the cursor exactly when the cursor stands in column 55, or was saved there already. */
  lemma EscSevenSaves(t: Term, erase: char)
    requires TermOk(t) && t.state == 1
    ensures TermStep(t, '7', erase) == Saved(t.(state := 0)) <==>
            t.x == 55 || (t.savedX == t.x && t.savedY == t.y)
  {
  }

  lemma EscEightRestores(t: Term, erase: char)
    requires TermOk(t) && t.state == 1
    ensures TermStep(t, '8', erase) == Restored(t.(state := 0)) <==>
            t.x == 56 || (t.savedX == t.x && t.savedY == t.y)
  {
  }

  // ------------------------------------------------------------------ answers

  function ParserOf(t: Term): Echoes.Parser { Echoes.Parser(t.state, if t.state == 3 then t.npar else 0) }

  lemma MoveKeepsParser(t: Term, c: char, p: int, q: int)
    requires TermOk(t)
    ensures MoveCommand(t, c, p, q).state == t.state && MoveCommand(t, c, p, q).replies == t.replies
  {
  }

  lemma EditKeepsParser(t: Term, c: char, p: int)
    requires TermOk(t) && 0 <= p
    ensures EditCommand(t, c, p).state == t.state && EditCommand(t, c, p).replies == t.replies
  {
  }

  lemma CommandKeepsParser(t: Term, c: char, par: seq<int>, npar: int)
    requires TermOk(t) && ParOk(par) && 0 <= npar < NPAR
    ensures Command(t, c, par, npar).state == t.state && Command(t, c, par, npar).replies == t.replies
  {
    if IsMove(c) { MoveKeepsParser(t, c, par[0], par[1]); } else if IsEdit(c) { EditKeepsParser(t, c, par[0]); }
  }

  lemma ParametersParse(t: Term, c: char)
    requires TermOk(t) && t.state == 3
    ensures ParserOf(Parameters(t, c)) == Echoes.ParNext(Echoes.Parser(3, t.npar), c as int)
    ensures Parameters(t, c).replies == t.replies
  {
    CommandKeepsParser(ToGround(t), c, t.par, t.npar);
  }

  /** The terminal answers exactly ESC Z, and the parser that decides it is the terminal's. */
  lemma AnswersEscZ(t: Term, c: char, erase: char)
    requires TermOk(t)
    ensures var u := TermStep(t, c, erase);
            && ParserOf(u) == Echoes.Next(ParserOf(t), c as int)
            && u.replies == t.replies + (if Echoes.Asks(ParserOf(t), c as int) then 1 else 0)
  {
    if t.state == 3 {
      ParametersParse(t, c);
    } else if t.state == 2 && c != '?' {
      ParametersParse(t.(state := 3, npar := 0, par := NoPars(), ques := false), c);
    }
  }

  // ------------------------------------------------------------------ control sequences

  /** n written in decimal. */
  function Decimal(n: nat): (s: string)
    ensures |s| >= 1 && forall i :: 0 <= i < |s| ==> Digit(s[i])
  {
    if n < 10 then [('0' as int + n) as char] else Decimal(n / 10) + [('0' as int + n % 10) as char]
  }

  /** A parameter as it is written; a negative one stands for none between two semicolons. */
  function Figures(n: int): string { if n < 0 then "" else Decimal(n) }

  /** The numbers of `ns`, separated by semicolons. */
  function Numbers(ns: seq<int>): string {
    if ns == [] then "" else if |ns| == 1 then Figures(ns[0])
    else Numbers(ns[..|ns| - 1]) + ";" + Figures(ns[|ns| - 1])
  }

  lemma {:induction false} RunConcat(t: Term, a: string, b: string, erase: char)
    requires TermOk(t)
    ensures TermRun(t, a + b, erase) == TermRun(TermRun(t, a, erase), b, erase)
    decreases |b|
  {
    if b == [] {
      assert a + b == a;
    } else {
      assert (a + b)[..|a + b| - 1] == a + b[..|b| - 1];
      RunConcat(t, a, b[..|b| - 1], erase);
    }
  }

  lemma RunParts(t: Term, u: Term, v: Term, a: string, b: string, erase: char)
    requires TermOk(t) && TermOk(u) && TermRun(t, a, erase) == u && TermRun(u, b, erase) == v
    ensures TermRun(t, a + b, erase) == v
  {
    RunConcat(t, a, b, erase);
  }

  lemma RunOne(t: Term, c: char, erase: char)
    requires TermOk(t)
    ensures TermRun(t, [c], erase) == TermStep(t, c, erase)
  {
    assert [c][..0] == [];
    assert TermRun(t, [], erase) == t;
  }

  /** While digits are read, the current parameter is the number read so far, modulo 2^32. */
  lemma {:induction false} ReadsDecimal(t: Term, n: nat, erase: char)
    requires TermOk(t) && t.state == 3 && t.par[t.npar] == 0
    ensures TermRun(t, Decimal(n), erase) == t.(par := t.par[t.npar := U32(n)])
    decreases n
  {
    if n < 10 {
      ReadsShort(t, n, erase);
    } else {
      var m, d := n / 10, n % 10;
      assert n == 10 * m + d;
      ReadsDecimal(t, m, erase);
      ReadsLonger(t, m, d, erase);
      NextDigit(m, d);
    }
  }

  lemma ReadsShort(t: Term, n: nat, erase: char)
    requires TermOk(t) && t.state == 3 && t.par[t.npar] == 0 && n < 10
    ensures TermRun(t, Decimal(n), erase) == t.(par := t.par[t.npar := U32(n)])
  {
    RunOne(t, ('0' as int + n) as char, erase);
    assert t.par[t.npar := 0] == t.par;
    DigitStep(t, 0, n, erase);
  }

  lemma ReadsLonger(t: Term, m: nat, d: nat, erase: char)
    requires TermOk(t) && t.state == 3 && m > 0 && d < 10
    requires TermRun(t, Decimal(m), erase) == t.(par := t.par[t.npar := U32(m)])
    ensures TermRun(t, Decimal(10 * m + d), erase) == t.(par := t.par[t.npar := U32(10 * U32(m) + d)])
  {
    ReadsDigit(t, Decimal(m), U32(m), d, erase);
    DecimalNext(m, d);
  }

  lemma DecimalNext(m: nat, d: nat)
    requires m > 0 && d < 10
    ensures Decimal(10 * m + d) == Decimal(m) + [('0' as int + d) as char]
  {
    assert (10 * m + d) / 10 == m && (10 * m + d) % 10 == d;
  }

  lemma ReadsDigit(t: Term, s: string, p: int, d: nat, erase: char)
    requires TermOk(t) && t.state == 3 && 0 <= p < WORD && d < 10
    requires TermRun(t, s, erase) == t.(par := t.par[t.npar := p])
    ensures TermRun(t, s + [('0' as int + d) as char], erase) == t.(par := t.par[t.npar := U32(10 * p + d)])
  {
    var c, u := ('0' as int + d) as char, t.(par := t.par[t.npar := p]);
    RunOne(u, c, erase);
    DigitStep(t, p, d, erase);
    RunParts(t, u, t.(par := t.par[t.npar := U32(10 * p + d)]), s, [c], erase);
  }

  lemma DigitStep(t: Term, p: int, d: nat, erase: char)
    requires TermOk(t) && t.state == 3 && 0 <= p < WORD && d < 10
    ensures var u := t.(par := t.par[t.npar := p]);
            TermStep(u, ('0' as int + d) as char, erase) == t.(par := t.par[t.npar := U32(10 * p + d)])
  {
    var u, c := t.(par := t.par[t.npar := p]), ('0' as int + d) as char;
    assert AddDigit(p, c) == U32(10 * p + d);
    assert t.par[t.npar := p][t.npar := AddDigit(p, c)] == t.par[t.npar := AddDigit(p, c)];
  }

  lemma NextDigit(m: nat, d: nat)
    ensures U32(10 * U32(m) + d) == U32(10 * m + d)
  {
    assert U32(m) == m - WORD * (m / WORD);
    ModShift(10 * m + d, 10 * (m / WORD));
  }

  lemma ModShift(a: int, k: int)
    ensures U32(a - WORD * k) == U32(a)
  {
  }

  /** A parameter's value: a 32-bit word, and 0 when there is none. */
  function Value(n: int): int { if n < 0 then 0 else U32(n) }

  /** The parameters `ns`, the rest 0. */
  function Pars(ns: seq<int>): (r: seq<int>)
    requires |ns| <= NPAR
    ensures ParOk(r)
  {
    seq(NPAR, i => if 0 <= i < |ns| then Value(ns[i]) else 0)
  }

  lemma ReadsFigures(t: Term, n: int, erase: char)
    requires TermOk(t) && t.state == 3 && t.par[t.npar] == 0
    ensures TermRun(t, Figures(n), erase) == t.(par := t.par[t.npar := Value(n)])
  {
    if n < 0 {
      assert t.par[t.npar := 0] == t.par;
    } else {
      ReadsDecimal(t, n, erase);
    }
  }

  lemma ReadsOneMore(t: Term, u: Term, s: string, n: int, erase: char)
    requires TermOk(t) && TermRun(t, s, erase) == u && u.state == 3 && u.npar < NPAR - 1 && u.par[u.npar + 1] == 0
    ensures TermRun(t, s + ";" + Figures(n), erase) == u.(npar := u.npar + 1, par := u.par[u.npar + 1 := Value(n)])
  {
    var v := SemicolonStep(u, erase);
    RunParts(t, u, v, s, ";", erase);
    ReadsFigures(v, n, erase);
    RunParts(t, v, v.(par := v.par[v.npar := Value(n)]), s + ";", Figures(n), erase);
  }

  lemma SemicolonStep(u: Term, erase: char) returns (v: Term)
    requires TermOk(u) && u.state == 3 && u.npar < NPAR - 1
    ensures v == u.(npar := u.npar + 1) && TermRun(u, ";", erase) == v
  {
    v := u.(npar := u.npar + 1);
    RunOne(u, ';', erase);
  }

  lemma {:induction false} ReadsNumbers(t: Term, ns: seq<int>, erase: char)
    requires TermOk(t) && t.state == 3 && t.npar == 0 && t.par == NoPars() && 1 <= |ns| <= NPAR
    ensures TermRun(t, Numbers(ns), erase) == t.(par := Pars(ns), npar := |ns| - 1)
    decreases |ns|
  {
    var k := |ns| - 1;
    if k == 0 {
      ReadsFigures(t, ns[0], erase);
      assert Pars(ns) == t.par[0 := Value(ns[0])];
    } else {
      var init := ns[..k];
      ReadsNumbers(t, init, erase);
      var u := t.(par := Pars(init), npar := k - 1);
      ReadsOneMore(t, u, Numbers(init), ns[k], erase);
      assert Pars(ns) == Pars(init)[k := Value(ns[k])];
    }
  }

  /** Byte c ends the sequence with these numbers: a semicolon after the sixteenth does, and a question mark unless
      it follows the bracket. */
  predicate Final(ns: seq<int>, c: char) {
    !Digit(c) && (c == ';' ==> |ns| == NPAR) && (c == '?' ==> Numbers(ns) != "")
  }

  /** No sequence is being read and the parameters are clear. */
  ghost predicate Idle(t: Term) { TermOk(t) && t.state == 0 && Clear(t) }

  ghost predicate Clear(t: Term) { t.state <= 2 ==> t.npar == 0 && t.par == NoPars() }

  /** The parameters are clear whenever none is being read, whatever is written. */
  lemma {:induction false} ClearKept(t: Term, s: string, erase: char)
    requires TermOk(t) && Clear(t)
    ensures Clear(TermRun(t, s, erase))
    decreases |s|
  {
    if s != [] {
      var init, c := s[..|s| - 1], s[|s| - 1];
      ClearKept(t, init, erase);
      ClearStep(TermRun(t, init, erase), c, erase);
    }
  }

  lemma ClearStep(t: Term, c: char, erase: char)
    requires TermOk(t) && Clear(t)
    ensures Clear(TermStep(t, c, erase))
  {
    if t.state == 3 {
      ClearParameters(t, c);
    } else if t.state == 2 && c != '?' {
      ClearParameters(t.(state := 3, npar := 0, par := NoPars(), ques := false), c);
    }
  }

  lemma ClearParameters(t: Term, c: char)
    requires TermOk(t) && t.state == 3
    ensures Clear(Parameters(t, c))
  {
    var u := ToGround(t);
    if IsMove(c) { MoveKeepsParser(u, c, t.par[0], t.par[1]); }
    else if IsEdit(c) { EditKeepsParser(u, c, t.par[0]); }
  }

  /** The number of the last parameter; without any there is still parameter 0. */
  function LastPar(ns: seq<int>): int { if |ns| == 0 then 0 else |ns| - 1 }

  /** The parser is the grammar: ESC [ n1 ; ... ; nk c, with k up to 16, runs command c on n1, ..., nk,
      the missing ones 0, and nothing else. */
  lemma ControlSequence(t: Term, ns: seq<int>, c: char, erase: char)
    requires Idle(t) && |ns| <= NPAR && Final(ns, c)
    ensures TermRun(t, Sequence(ns, c), erase) == Command(t.(ques := false), c, Pars(ns), LastPar(ns))
  {
    var s := Numbers(ns);
    assert [27 as char, '['] + s + [c] == [27 as char, '['] + (s + [c]);
    RunConcat(t, [27 as char, '['], s + [c], erase);
    EscBracket(t, erase);
    NumbersStart(ns);
    BracketReads(t.(state := 2), s + [c], erase);
    var u := t.(state := 3, ques := false);
    RunConcat(u, s, [c], erase);
    AllNumbers(u, ns, erase);
    EndsSequence(t, u.(par := Pars(ns), npar := LastPar(ns)), ns, c, erase);
  }

  lemma AllNumbers(u: Term, ns: seq<int>, erase: char)
    requires TermOk(u) && u.state == 3 && u.npar == 0 && u.par == NoPars() && |ns| <= NPAR
    ensures TermRun(u, Numbers(ns), erase) == u.(par := Pars(ns), npar := LastPar(ns))
  {
    if ns == [] { assert Pars(ns) == NoPars(); } else { ReadsNumbers(u, ns, erase); }
  }

  lemma EndsSequence(t: Term, v: Term, ns: seq<int>, c: char, erase: char)
    requires Idle(t) && |ns| <= NPAR && Final(ns, c)
    requires v == t.(state := 3, ques := v.ques, par := Pars(ns), npar := LastPar(ns))
    ensures TermRun(v, [c], erase) == Command(t.(ques := v.ques), c, Pars(ns), LastPar(ns))
  {
    RunOne(v, c, erase);
    assert ToGround(v) == t.(ques := v.ques);
  }

  lemma EscBracket(t: Term, erase: char)
    requires TermOk(t) && t.state == 0
    ensures TermRun(t, [27 as char, '['], erase) == t.(state := 2)
  {
    var esc := 27 as char;
    assert [esc] + ['['] == [esc, '['];
    RunConcat(t, [esc], ['['], erase);
    RunOne(t, esc, erase);
    RunOne(t.(state := 1), '[', erase);
  }

  lemma {:induction false} NumbersStart(ns: seq<int>)
    ensures Numbers(ns) != "" ==> Numbers(ns)[0] != '?'
    decreases |ns|
  {
    if |ns| > 1 { NumbersStart(ns[..|ns| - 1]); }
  }

  /** After ESC [ a first byte but the question mark is read as in state 3. */
  lemma {:induction false} BracketReads(b: Term, s: string, erase: char)
    requires TermOk(b) && b.state == 2 && b.npar == 0 && b.par == NoPars() && |s| >= 1 && s[0] != '?'
    ensures TermRun(b, s, erase) == TermRun(b.(state := 3, ques := false), s, erase)
    decreases |s|
  {
    if |s| == 1 {
      RunOne(b, s[0], erase);
      RunOne(b.(state := 3, ques := false), s[0], erase);
      assert s == [s[0]];
    } else {
      BracketReads(b, s[..|s| - 1], erase);
    }
  }

  /** The sequence ESC [ n1 ; ... ; nk c. */
  function Sequence(ns: seq<int>, c: char): string { [27 as char, '['] + Numbers(ns) + [c] }

  // ------------------------------------------------------------------ the endless page

  /** A page of `rows` rows on which nothing scrolls; the cursor stands in one of the last 25. */
  datatype Page = Page(cells: seq<int>, rows: int, row: int, x: int)

  ghost predicate PageOk(p: Page) {
    && p.rows >= LINES && |p.cells| == p.rows * COLUMNS
    && p.rows - LINES <= p.row < p.rows && 0 <= p.x <= COLUMNS
  }

  function PageFeed(p: Page): (q: Page)
    requires PageOk(p)
    ensures PageOk(q)
  {
    if p.row + 1 < p.rows then p.(row := p.row + 1)
    else Page(p.cells + BlankRow(), p.rows + 1, p.row + 1, p.x)
  }

  function PagePrint(p: Page, v: int): (q: Page)
    requires PageOk(p)
    ensures PageOk(q)
  {
    PageStored(PageWrapped(p), v)
  }

  function PageWrapped(p: Page): (q: Page)
    requires PageOk(p)
    ensures PageOk(q) && q.x < COLUMNS
  {
    if p.x >= COLUMNS then PageFeed(p.(x := p.x - COLUMNS)) else p
  }

  function PageStored(p: Page, v: int): (q: Page)
    requires PageOk(p) && p.x < COLUMNS
    ensures PageOk(q)
  {
    p.(cells := p.cells[p.row * COLUMNS + p.x := v], x := p.x + 1)
  }

  function PageTab(p: Page): (q: Page)
    requires PageOk(p)
    ensures PageOk(q)
  {
    var x := p.x + 8 - p.x % 8;
    if x > COLUMNS then PageFeed(p.(x := x - COLUMNS)) else p.(x := x)
  }

  function PageDelete(p: Page): (q: Page)
    requires PageOk(p)
    ensures PageOk(q)
  {
    if p.x > 0 then p.(x := p.x - 1, cells := p.cells[p.row * COLUMNS + p.x - 1 := BLANK]) else p
  }

  function PageStep(p: Page, attr: int, c: char, erase: char): (q: Page)
    requires PageOk(p)
    ensures PageOk(q)
  {
    if Printable(c) then PagePrint(p, attr * 256 + c as int)
    else if 10 <= c as int <= 12 then PageFeed(p)
    else if c as int == 13 then p.(x := 0)
    else if c == erase && c as int < 128 then PageDelete(p)
    else if c as int == 8 then p.(x := if p.x > 0 then p.x - 1 else 0)
    else if c as int == 9 then PageTab(p)
    else p
  }

  function PageRun(p: Page, attr: int, s: string, erase: char): (q: Page)
    requires PageOk(p)
    ensures PageOk(q)
    decreases |s|
  {
    if s == [] then p else PageStep(PageRun(p, attr, s[..|s| - 1], erase), attr, s[|s| - 1], erase)
  }

  /** The screen shows the last 25 rows of the page, and the whole screen scrolls. */
  ghost predicate Shows(t: Term, p: Page) {
    && TermOk(t) && PageOk(p) && t.state == 0 && t.top == 0 && t.bottom == LINES
    && t.x == p.x && t.y == p.row - (p.rows - LINES)
    && t.screen == p.cells[(p.rows - LINES) * COLUMNS..]
  }

  lemma FeedShows(t: Term, p: Page)
    requires Shows(t, p)
    ensures Shows(LineFeed(t), PageFeed(p))
  {
    if p.row + 1 >= p.rows {
      var q := PageFeed(p);
      assert ScrolledUp(t.screen, 0, LINES) == q.cells[(q.rows - LINES) * COLUMNS..];
    }
  }

  lemma StoreShows(t: Term, p: Page, v: int)
    requires Shows(t, p) && t.x < COLUMNS
    ensures Shows(Stored(t, v), PageStored(p, v))
  {
  }

  lemma PrintShows(t: Term, p: Page, c: int)
    requires Shows(t, p)
    ensures Shows(Print(t, c), PagePrint(p, t.attr * 256 + c)) && Print(t, c).attr == t.attr
  {
    WrapShows(t, p);
    StoreShows(Wrapped(t), PageWrapped(p), t.attr * 256 + c);
  }

  lemma WrapShows(t: Term, p: Page)
    requires Shows(t, p)
    ensures Shows(Wrapped(t), PageWrapped(p))
  {
    if t.x >= COLUMNS { FeedShows(t.(x := t.x - COLUMNS), p.(x := p.x - COLUMNS)); }
  }

  lemma TabShows(t: Term, p: Page)
    requires Shows(t, p)
    ensures Shows(Tab(t), PageTab(p)) && Tab(t).attr == t.attr
  {
    var x := t.x + 8 - t.x % 8;
    if x > COLUMNS { FeedShows(t.(x := x - COLUMNS), p.(x := x - COLUMNS)); }
  }

  lemma DeleteShows(t: Term, p: Page)
    requires Shows(t, p)
    ensures Shows(Delete(t), PageDelete(p)) && Delete(t).attr == t.attr
  {
    if t.x > 0 { StoreShows(t.(x := t.x - 1), p.(x := p.x - 1), BLANK); }
  }

  lemma StepShows(t: Term, p: Page, c: char, erase: char)
    requires Shows(t, p) && c as int != 27
    ensures Shows(TermStep(t, c, erase), PageStep(p, t.attr, c, erase)) && TermStep(t, c, erase).attr == t.attr
  {
    if Printable(c) {
      PrintShows(t, p, c as int);
    } else if 10 <= c as int <= 12 {
      FeedShows(t, p);
    } else if c == erase && c as int < 128 {
      DeleteShows(t, p);
    } else if c as int == 9 {
      TabShows(t, p);
    }
  }

  /** Text without escapes: whatever is written, the screen is the last 25 rows of the page it was typed on. */
  lemma {:induction false} RunShows(t: Term, p: Page, s: string, erase: char)
    requires Shows(t, p) && forall i :: 0 <= i < |s| ==> s[i] as int != 27
    ensures Shows(TermRun(t, s, erase), PageRun(p, t.attr, s, erase)) && TermRun(t, s, erase).attr == t.attr
    decreases |s|
  {
    if s != [] {
      var init := s[..|s| - 1];
      RunShows(t, p, init, erase);
      StepShows(TermRun(t, init, erase), PageRun(p, t.attr, init, erase), s[|s| - 1], erase);
    }
  }

  /** The cells that a string of printable characters puts on the page. */
  function Typed(s: string, attr: int): (r: seq<int>)
    ensures |r| == |s|
  {
    seq(|s|, i requires 0 <= i < |s| => attr * 256 + s[i] as int)
  }

  ghost predicate TypedAt(p: Page, q: Page, s: string, attr: int) {
    && PageOk(p) && PageOk(q)
    && var at := p.row * COLUMNS + p.x;
    && q.row * COLUMNS + q.x == at + |s| <= |q.cells|
    && q.cells[..at] == p.cells[..at]
    && q.cells[at..at + |s|] == Typed(s, attr)
  }

  /** Printable text appears on the page from the cursor on, in order, wrapped at the last column, and
      nothing before it changes. */
  lemma {:induction false} TextIsTyped(p: Page, attr: int, s: string, erase: char)
    requires PageOk(p) && forall i :: 0 <= i < |s| ==> Printable(s[i])
    ensures TypedAt(p, PageRun(p, attr, s, erase), s, attr)
    decreases |s|
  {
    if s != [] {
      var init, c := s[..|s| - 1], s[|s| - 1];
      assert s == init + [c];
      TextIsTyped(p, attr, init, erase);
      TypeOne(p, PageRun(p, attr, init, erase), attr, init, c);
      PageNext(p, attr, init, c, erase);
    }
  }

  lemma PageNext(p: Page, attr: int, s: string, c: char, erase: char)
    requires PageOk(p) && Printable(c)
    ensures PageRun(p, attr, s + [c], erase) == PagePrint(PageRun(p, attr, s, erase), attr * 256 + c as int)
  {
    assert (s + [c])[..|s|] == s;
  }

  lemma TypedCell(p: Page, q: Page, attr: int, s: string, c: char, i: nat)
    requires TypedAt(p, q, s, attr) && i <= |s|
    ensures var r, at := PagePrint(q, attr * 256 + c as int), p.row * COLUMNS + p.x;
            at + i < |r.cells| && r.cells[at + i] == Typed(s + [c], attr)[i]
  {
    var at := p.row * COLUMNS + p.x;
    PrintCells(q, attr * 256 + c as int);
    if i < |s| { assert q.cells[at + i] == q.cells[at..at + |s|][i] == Typed(s, attr)[i]; }
  }

  lemma TypeOne(p: Page, q: Page, attr: int, s: string, c: char)
    requires TypedAt(p, q, s, attr)
    ensures TypedAt(p, PagePrint(q, attr * 256 + c as int), s + [c], attr)
  {
    var r := PagePrint(q, attr * 256 + c as int);
    var at := p.row * COLUMNS + p.x;
    PrintCells(q, attr * 256 + c as int);
    forall i | 0 <= i < at ensures r.cells[i] == p.cells[i] {
      assert r.cells[i] == q.cells[i] == q.cells[..at][i] == p.cells[..at][i];
    }
    forall i | 0 <= i < |s| + 1 ensures r.cells[at + i] == Typed(s + [c], attr)[i] { TypedCell(p, q, attr, s, c, i); }
    assert r.cells[..at] == p.cells[..at];
    assert r.cells[at..at + |s| + 1] == Typed(s + [c], attr);
  }

  /** Printing puts the character at the cursor's place in reading order and leaves the cells before it. */
  lemma PrintCells(p: Page, v: int)
    requires PageOk(p)
    ensures var q, at := PagePrint(p, v), p.row * COLUMNS + p.x;
            && q.row * COLUMNS + q.x == at + 1 <= |q.cells| && q.cells[at] == v
            && forall i :: 0 <= i < at && i < |p.cells| ==> q.cells[i] == p.cells[i]
  {
  }
}

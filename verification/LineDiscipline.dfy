/**
  What copy_to_cooked and tty_read (kernel/tty_io.c) do to sequences of bytes: input mapping, editing,
  signals and echo, and the count of line ends that reading relies on. Bytes are signed.
 */
module LineDiscipline {

  /** The flags and control characters of a terminal, which stay fixed. */
  datatype Modes = Modes(icrnl: bool, igncr: bool, inlcr: bool, iuclc: bool, canon: bool, isig: bool,
                         echo: bool, echoctl: bool, eof: int, erase: int, stop: int, start: int, intr: int)

  /** The cooked queue, its `data` count, and what has been echoed and signalled. */
  datatype Line = Line(cooked: seq<int>, data: int, stopped: bool, echoed: seq<int>, interrupts: int)

  predicate IsEnd(m: Modes, c: int) { c == 10 || c == m.eof }

  /** How many of the bytes are newlines or end-of-file characters. */
  function Ends(m: Modes, s: seq<int>): (n: nat)
    ensures n <= |s|
  {
    if s == [] then 0 else Ends(m, s[..|s| - 1]) + (if IsEnd(m, s[|s| - 1]) then 1 else 0)
  }

  lemma {:induction false} EndsConcat(m: Modes, a: seq<int>, b: seq<int>)
    ensures Ends(m, a + b) == Ends(m, a) + Ends(m, b)
    decreases |b|
  {
    if b == [] {
      assert a + b == a;
    } else {
      assert (a + b)[..|a + b| - 1] == a + b[..|b| - 1];
      EndsConcat(m, a, b[..|b| - 1]);
    }
  }

  /** `data` counts the line ends in the queue. */
  ghost predicate LineOk(m: Modes, l: Line) { l.data == Ends(m, l.cooked) }

  /** tolower of include/ctype.h:31 adds 'a' + 'A' where 'a' - 'A' is meant, and the sum is stored in a
      signed byte: every upper-case letter becomes a byte below zero, and never its lower-case letter. */
  function ToLower(c: int): (r: int)
    ensures 65 <= c <= 90 ==> -29 <= r <= -4 && r % 256 == (c + 97 + 65) % 256 && r != c + 32
    ensures !(65 <= c <= 90) ==> r == c
  {
    if 65 <= c <= 90 then c + 97 + 65 - 256 else c
  }

  predicate Dropped(m: Modes, c: int) { c == 13 && !m.icrnl && m.igncr }

  function Mapped(m: Modes, c: int): int {
    var d := if c == 13 && m.icrnl then 10 else if c == 10 && m.inlcr then 13 else c;
    if m.iuclc then ToLower(d) else d
  }

  function EchoOfErase(m: Modes, c: int): seq<int> {
    if !m.echo then [] else if c < 32 then [127, 127] else [127]
  }

  function EchoOf(m: Modes, c: int): seq<int> {
    if !m.echo then [] else if c == 10 then [10, 13]
    else if c < 32 then (if m.echoctl then [94, c + 64] else []) else [c]
  }

  predicate IsErase(m: Modes, c: int) { m.canon && c == m.erase }

  predicate IsFlow(m: Modes, c: int) { m.canon && (c == m.stop || c == m.start) }

  predicate IsInterrupt(m: Modes, c: int) { !m.isig && c == m.intr }

  /** Erasing takes back the last byte of an unfinished line and nothing else. */
  function EraseLast(m: Modes, l: Line): Line {
    if l.cooked == [] || IsEnd(m, l.cooked[|l.cooked| - 1]) then l
    else
      var k := |l.cooked| - 1;
      l.(cooked := l.cooked[..k], echoed := l.echoed + EchoOfErase(m, l.cooked[k]))
  }

  function Deposited(m: Modes, l: Line, c: int): Line {
    l.(cooked := l.cooked + [c], data := l.data + (if IsEnd(m, c) then 1 else 0), echoed := l.echoed + EchoOf(m, c))
  }

  /** One byte of input, after mapping. */
  function Handled(m: Modes, l: Line, c: int): Line {
    if IsErase(m, c) then EraseLast(m, l)
    else if IsFlow(m, c) then l.(stopped := c == m.stop)
    else if IsInterrupt(m, c) then l.(interrupts := l.interrupts + 1)
    else Deposited(m, l, c)
  }

  function Cooked(m: Modes, l: Line, c: int): Line {
    if Dropped(m, c) then l else Handled(m, l, Mapped(m, c))
  }

  function CookedAll(m: Modes, l: Line, s: seq<int>): Line
    decreases |s|
  {
    if s == [] then l else Cooked(m, CookedAll(m, l, s[..|s| - 1]), s[|s| - 1])
  }

  lemma EndsAppend(m: Modes, s: seq<int>, c: int)
    ensures Ends(m, s + [c]) == Ends(m, s) + (if IsEnd(m, c) then 1 else 0)
  {
    assert (s + [c])[..|s|] == s;
  }

  lemma DepositKeeps(m: Modes, l: Line, c: int)
    requires LineOk(m, l)
    ensures LineOk(m, Deposited(m, l, c))
  {
    EndsAppend(m, l.cooked, c);
  }

  lemma EraseKeeps(m: Modes, l: Line)
    requires LineOk(m, l)
    ensures LineOk(m, EraseLast(m, l))
  {
    if l.cooked != [] {
      var k := |l.cooked| - 1;
      assert l.cooked == l.cooked[..k] + [l.cooked[k]];
      EndsAppend(m, l.cooked[..k], l.cooked[k]);
    }
  }

  lemma CookedKeeps(m: Modes, l: Line, c: int)
    requires LineOk(m, l)
    ensures LineOk(m, Cooked(m, l, c))
  {
    DepositKeeps(m, l, Mapped(m, c));
    EraseKeeps(m, l);
  }

  lemma {:induction false} CookedAllKeeps(m: Modes, l: Line, s: seq<int>)
    requires LineOk(m, l)
    ensures LineOk(m, CookedAll(m, l, s))
    decreases |s|
  {
    if s != [] {
      CookedAllKeeps(m, l, s[..|s| - 1]);
      CookedKeeps(m, CookedAll(m, l, s[..|s| - 1]), s[|s| - 1]);
    }
  }

  predicate IsOrdinary(m: Modes, c: int) {
    !Dropped(m, c) && var d := Mapped(m, c); !IsErase(m, d) && !IsFlow(m, d) && !IsInterrupt(m, d)
  }

  lemma {:induction false} CookedConcat(m: Modes, l: Line, a: seq<int>, b: seq<int>)
    ensures CookedAll(m, l, a + b) == CookedAll(m, CookedAll(m, l, a), b)
    decreases |b|
  {
    if b == [] {
      assert a + b == a;
    } else {
      assert (a + b)[..|a + b| - 1] == a + b[..|b| - 1];
      CookedConcat(m, l, a, b[..|b| - 1]);
    }
  }

  /** A key and then erase leave the cooked queue as it was, unless the key ended a line. */
  lemma EraseUndoes(m: Modes, l: Line, c: int, e: int)
    requires IsOrdinary(m, c) && !IsEnd(m, Mapped(m, c)) && !Dropped(m, e) && IsErase(m, Mapped(m, e))
    ensures var r := Cooked(m, Cooked(m, l, c), e); r.cooked == l.cooked && r.data == l.data
  {
  }

  /** Typing n ordinary keys and n erases leaves the cooked queue as it was. */
  lemma {:induction false} ErasesUndo(m: Modes, l: Line, s: seq<int>, es: seq<int>)
    requires |s| == |es|
    requires forall i :: 0 <= i < |s| ==> IsOrdinary(m, s[i]) && !IsEnd(m, Mapped(m, s[i]))
    requires forall i :: 0 <= i < |es| ==> !Dropped(m, es[i]) && IsErase(m, Mapped(m, es[i]))
    ensures var r := CookedAll(m, l, s + es); r.cooked == l.cooked && r.data == l.data
    decreases |s|
  {
    if s == [] {
      assert s + es == [];
    } else {
      var k := |s| - 1;
      CookedConcat(m, l, s, es);
      var t := CookedAll(m, l, s[..k]);
      CookedConcat(m, Cooked(m, t, s[k]), [es[0]], es[1..]);
      assert [es[0]] + es[1..] == es;
      CookOne(m, Cooked(m, t, s[k]), es[0]);
      var u := Cooked(m, Cooked(m, t, s[k]), es[0]);
      EraseUndoes(m, t, s[k], es[0]);
      ErasesUndo(m, l, s[..k], es[1..]);
      CookedConcat(m, l, s[..k], es[1..]);
      SameQueue(m, t, u, es[1..]);
    }
  }

  lemma CookOne(m: Modes, l: Line, c: int)
    ensures CookedAll(m, l, [c]) == Cooked(m, l, c)
  {
    assert [c][..0] == [];
    assert CookedAll(m, l, []) == l;
  }

  /** The queue depends on the queue alone, not on echoes or signals. */
  lemma {:induction false} SameQueue(m: Modes, a: Line, b: Line, s: seq<int>)
    requires a.cooked == b.cooked && a.data == b.data
    ensures var x, y := CookedAll(m, a, s), CookedAll(m, b, s); x.cooked == y.cooked && x.data == y.data
    decreases |s|
  {
    if s != [] { SameQueue(m, a, b, s[..|s| - 1]); }
  }

  // ------------------------------------------------------------------ what each key does

  /** The byte is no erase, stop, start or interrupt character where these are looked at. */
  predicate NoControl(m: Modes, c: int) {
    (m.canon ==> c != m.erase && c != m.stop && c != m.start) && (!m.isig ==> c != m.intr)
  }

  predicate UpperCase(c: int) { 65 <= c <= 90 }

  /** Byte d has joined the queue: it ends a line when it is a newline or the end-of-file character, and it is
      echoed as itself, a newline with a return, a control character as ^X or not at all. */
  ghost predicate Joined(m: Modes, l: Line, d: int, r: Line) {
    && r.cooked == l.cooked + [d] && r.data == l.data + (if d == 10 || d == m.eof then 1 else 0)
    && r.stopped == l.stopped && r.interrupts == l.interrupts
    && r.echoed == l.echoed + if !m.echo then [] else if d == 10 then [10, 13] else if d >= 32 then [d]
                              else if m.echoctl then [94, d + 64] else []
  }

  /** Carriage return ends a line under ICRNL; otherwise it is dropped under IGNCR, and without either it is a
      byte of the line. */
  lemma ReturnKey(m: Modes, l: Line)
    ensures m.icrnl && NoControl(m, 10) ==> Joined(m, l, 10, Cooked(m, l, 13))
    ensures !m.icrnl && m.igncr ==> Cooked(m, l, 13) == l
    ensures !m.icrnl && !m.igncr && NoControl(m, 13) ==> Joined(m, l, 13, Cooked(m, l, 13))
  {
  }

  /** Newline ends a line, but not under INLCR. */
  lemma NewlineKey(m: Modes, l: Line)
    ensures m.inlcr && NoControl(m, 13) ==> Joined(m, l, 13, Cooked(m, l, 10))
    ensures !m.inlcr && NoControl(m, 10) ==> Joined(m, l, 10, Cooked(m, l, 10))
  {
  }

  /** Any other byte joins the line as it is, except that under IUCLC upper-case letters are spoiled. */
  lemma OtherKey(m: Modes, l: Line, c: int)
    requires c != 10 && c != 13
    ensures (!m.iuclc || !UpperCase(c)) && NoControl(m, c) ==> Joined(m, l, c, Cooked(m, l, c))
    ensures m.iuclc && UpperCase(c) && NoControl(m, c - 94) ==> Joined(m, l, c - 94, Cooked(m, l, c))
  {
  }

  /** The erase key takes back the last byte of an unfinished line, rubbing out two places for a control
      character. */
  lemma EraseKey(m: Modes, l: Line, c: int)
    requires m.canon && c == m.erase && c != 10 && c != 13 && (!m.iuclc || !UpperCase(c))
    ensures var r, k := Cooked(m, l, c), |l.cooked| - 1;
            if k < 0 || l.cooked[k] == 10 || l.cooked[k] == m.eof then r == l
            else
              && r == l.(cooked := l.cooked[..k], echoed := r.echoed)
              && r.echoed == l.echoed + if !m.echo then [] else if l.cooked[k] < 32 then [127, 127] else [127]
  {
  }

  /** The stop and start keys set and clear the stop, and the interrupt key sends its signal: none of them joins
      the line or is echoed. */
  lemma SignalKeys(m: Modes, l: Line, c: int)
    requires c != 10 && c != 13 && (!m.iuclc || !UpperCase(c)) && (m.canon ==> c != m.erase)
    ensures m.canon && c == m.stop ==> Cooked(m, l, c) == l.(stopped := true)
    ensures m.canon && c == m.start && c != m.stop ==> Cooked(m, l, c) == l.(stopped := false)
    ensures !m.isig && c == m.intr && !(m.canon && (c == m.stop || c == m.start)) ==>
              Cooked(m, l, c) == l.(interrupts := l.interrupts + 1)
  {
  }

  // ------------------------------------------------------------------ reading

  /** Where a read of at most nr, having taken i bytes, stops taking bytes for the caller. */
  function Readable(m: Modes, q: seq<int>, i: nat, nr: nat): (n: nat)
    requires i <= |q| && i <= nr
    ensures i <= n <= |q| && n <= nr
    decreases nr - i
  {
    if i == nr || i == |q| || (m.canon && q[i] == m.eof) then i else Readable(m, q, i + 1, nr)
  }

  /** The bytes delivered are the longest prefix, within nr, that in canonical mode holds no end-of-file
      character: reading does not stop at the end of a line. */
  lemma {:induction false} ReadableIsLongest(m: Modes, q: seq<int>, i: nat, nr: nat)
    requires i <= |q| && i <= nr
    ensures var n := Readable(m, q, i, nr);
            && (m.canon ==> forall k :: i <= k < n ==> q[k] != m.eof)
            && (n == nr || n == |q| || (m.canon && q[n] == m.eof))
    decreases nr - i
  {
    if !(i == nr || i == |q| || (m.canon && q[i] == m.eof)) { ReadableIsLongest(m, q, i + 1, nr); }
  }

  /** The first newline in q from i on, or its length. */
  function FirstNewline(q: seq<int>, i: nat): (k: nat)
    requires i <= |q|
    ensures i <= k <= |q| && (k < |q| ==> q[k] == 10) && forall j :: i <= j < k ==> q[j] != 10
    decreases |q| - i
  {
    if i == |q| || q[i] == 10 then i else FirstNewline(q, i + 1)
  }

  /** At most one line: a newline only as the last byte. */
  predicate OneLine(r: seq<int>) { forall i :: 0 <= i < |r| - 1 ==> r[i] != 10 }

  /** A canonical read delivers at most one line if and only if it asks for no byte beyond the first newline, or
      nothing but an end-of-file character, or nothing at all, follows the newline, or an end-of-file character
      comes before it. */
  lemma OneLineIff(m: Modes, q: seq<int>, nr: nat)
    requires m.canon
    ensures var i := FirstNewline(q, 0);
            OneLine(q[..Readable(m, q, 0, nr)]) <==>
              nr <= i + 1 || |q| <= i + 1 || exists e :: 0 <= e <= i + 1 && e < |q| && q[e] == m.eof
  {
    var i, n := FirstNewline(q, 0), Readable(m, q, 0, nr);
    ReadableIsLongest(m, q, 0, nr);
    if n > i + 1 {
      assert q[..n][i] == 10;
    }
  }

  /** Two lines in one read. */
  lemma ReadsTwoLines(m: Modes)
    requires m.canon && m.eof == 4
    ensures Readable(m, [97, 10, 98, 10], 0, 4) == 4 && !OneLine([97, 10, 98, 10])
  {
    var q := [97, 10, 98, 10];
    assert Readable(m, q, 3, 4) == 4;
    assert Readable(m, q, 2, 4) == 4;
    assert Readable(m, q, 1, 4) == 4;
    assert q[1] == 10;
  }

  /** A read of nr from q is over: it delivered r, and `rest` is what it left; an end-of-file character that
      stopped it has been swallowed. */
  ghost predicate Took(m: Modes, q: seq<int>, nr: nat, r: seq<int>, eof: bool, rest: seq<int>) {
    && |r| == Readable(m, q, 0, nr)
    && eof == (|r| < nr && |r| < |q| && m.canon && q[|r|] == m.eof)
    && q == r + (if eof then [m.eof] else []) + rest
  }

  /** A read of nr from q under way: r taken so far, `rest` still to come. */
  ghost predicate Reading(m: Modes, q: seq<int>, nr: nat, r: seq<int>, rest: seq<int>) {
    && |r| <= nr && q == r + rest
    && Readable(m, q, 0, nr) == Readable(m, q, |r|, nr)
  }

  lemma ReadingOn(m: Modes, q: seq<int>, nr: nat, r: seq<int>, c: int, rest: seq<int>)
    requires Reading(m, q, nr, r, [c] + rest) && |r| < nr && !(m.canon && c == m.eof)
    ensures Reading(m, q, nr, r + [c], rest)
  {
    assert r + ([c] + rest) == r + [c] + rest;
    assert q[|r|] == c;
  }

  lemma ReadingEof(m: Modes, q: seq<int>, nr: nat, r: seq<int>, c: int, rest: seq<int>)
    requires Reading(m, q, nr, r, [c] + rest) && |r| < nr && m.canon && c == m.eof
    ensures Took(m, q, nr, r, true, rest)
  {
    assert r + ([c] + rest) == r + [c] + rest;
    assert q[|r|] == c;
  }

  lemma ReadingDone(m: Modes, q: seq<int>, nr: nat, r: seq<int>, rest: seq<int>)
    requires Reading(m, q, nr, r, rest) && (|r| == nr || rest == [])
    ensures Took(m, q, nr, r, false, rest)
  {
    assert r + rest == r + [] + rest;
  }
}

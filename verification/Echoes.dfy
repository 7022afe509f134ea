/**
  copy_to_cooked (kernel/tty_io.c) together with the console it echoes to. Echo is written to the console at
  once; when the console is in the state after ESC and the echoed byte is `Z`, it answers (console.c:286-297):
  seven bytes go into the raw queue unchecked, and copy_to_cooked runs again inside itself.

  This is what happens as long as con_write shows what has just been put into write_q and nothing else; module
  Overruns has write_q itself, and module ConsoleRuns says when that is so.
 */
module Echoes {
  import opened LineDiscipline

  const QUEUE := 1023
  const Z := 90

  // ------------------------------------------------------------------ the console's parser

  /** What decides the console's answers: its parser state and the number of parameters read. */
  datatype Parser = Parser(state: int, npar: int)

  function ParNext(p: Parser, c: int): Parser {
    if c == 59 && p.npar < 15 then Parser(3, p.npar + 1)
    else if 48 <= c <= 57 then Parser(3, p.npar)
    else Parser(0, 0)
  }

  /** One byte to the console. */
  function Next(p: Parser, c: int): Parser {
    if p.state == 0 then (if c == 27 then Parser(1, 0) else Parser(0, 0))
    else if p.state == 1 then (if c == 91 then Parser(2, 0) else Parser(0, 0))
    else if p.state == 2 then (if c == 63 then Parser(3, 0) else ParNext(Parser(3, 0), c))
    else ParNext(p, c)
  }

  function Fed(p: Parser, s: seq<int>): Parser
    decreases |s|
  {
    if s == [] then p else Next(Fed(p, s[..|s| - 1]), s[|s| - 1])
  }

  /** ESC Z. */
  predicate Asks(p: Parser, c: int) { p.state == 1 && c == Z }

  /** RESPONSE: ESC [ ? 1 ; 2 c */
  function Response(): seq<int> { [27, 91, 63, 49, 59, 50, 99] }

  /** The raw queue after seven PUTCHs that check nothing: a queue that runs over starts again from empty. */
  function Responded(raw: seq<int>): (r: seq<int>)
    requires |raw| <= QUEUE
    ensures |r| <= QUEUE && Zs(r) <= Zs(raw)
  {
    ZsResponse(raw);
    if |raw| + 7 <= QUEUE then raw + Response() else Response()[QUEUE + 1 - |raw|..]
  }

  /** The same, after the first i of the seven. */
  function RespondedPart(raw: seq<int>, i: nat): seq<int>
    requires |raw| <= QUEUE && i <= 7
  {
    if |raw| + i <= QUEUE then raw + Response()[..i] else Response()[QUEUE + 1 - |raw|..i]
  }

  lemma PartNext(raw: seq<int>, i: nat)
    requires |raw| <= QUEUE && i < 7
    ensures var p := RespondedPart(raw, i);
            |p| <= QUEUE && RespondedPart(raw, i + 1) == if |p| < QUEUE then p + [Response()[i]] else []
  {
    var p := Response();
    assert p[..i + 1] == p[..i] + [p[i]];
    if |raw| + i > QUEUE { assert p[QUEUE + 1 - |raw|..i + 1] == p[QUEUE + 1 - |raw|..i] + [p[i]]; }
  }

  lemma PartEnds(raw: seq<int>)
    requires |raw| <= QUEUE
    ensures RespondedPart(raw, 0) == raw && RespondedPart(raw, 7) == Responded(raw)
  {
    assert Response()[..7] == Response();
    assert raw + [] == raw;
  }

  /** How many bytes are `Z`; only they can make the console answer. */
  function Zs(s: seq<int>): nat {
    if s == [] then 0 else (if s[0] == Z then 1 else 0) + Zs(s[1..])
  }

  lemma {:induction false} ZsConcat(a: seq<int>, b: seq<int>)
    ensures Zs(a + b) == Zs(a) + Zs(b)
    decreases |a|
  {
    if a == [] {
      assert a + b == b;
    } else {
      assert (a + b)[1..] == a[1..] + b;
      ZsConcat(a[1..], b);
    }
  }

  lemma {:induction false} ZsNone(s: seq<int>)
    requires forall i :: 0 <= i < |s| ==> s[i] != Z
    ensures Zs(s) == 0
    decreases |s|
  {
    if s != [] { ZsNone(s[1..]); }
  }

  lemma ZsResponse(raw: seq<int>)
    ensures Zs(raw + Response()) == Zs(raw)
    ensures forall k :: 0 <= k <= 7 ==> Zs(Response()[k..]) == 0
  {
    ZsNone(Response());
    ZsConcat(raw, Response());
    forall k | 0 <= k <= 7 ensures Zs(Response()[k..]) == 0 { ZsNone(Response()[k..]); }
  }

  // ------------------------------------------------------------------ the queues and the console together

  /** `lost` once a byte has been put into the full cooked queue. */
  datatype World = World(raw: seq<int>, line: Line, con: Parser, lost: bool)

  ghost predicate WorldOk(w: World) { |w.raw| <= QUEUE && |w.line.cooked| <= QUEUE }

  /** PUTCH(c, tty->secondary) */
  function Put(w: World, c: int): World {
    if |w.line.cooked| < QUEUE then w.(line := w.line.(cooked := w.line.cooked + [c]))
    else w.(line := w.line.(cooked := []), lost := true)
  }

  predicate Answers(m: Modes, p: Parser, c: int) { m.echo && Asks(p, c) }

  /** What happens before the byte is queued: it is counted and echoed. */
  function Announced(m: Modes, w: World, c: int): World { Echoing(m, Counted(m, w, c), c) }

  predicate Smaller(a: seq<int>, b: seq<int>) { Zs(a) < Zs(b) || (Zs(a) == Zs(b) && |a| < |b|) }

  function Counted(m: Modes, w: World, c: int): World {
    w.(line := w.line.(data := w.line.data + (if IsEnd(m, c) then 1 else 0)))
  }

  function Echoing(m: Modes, w: World, c: int): World {
    w.(line := w.line.(echoed := w.line.echoed + EchoOf(m, c)), con := Fed(w.con, EchoOf(m, c)))
  }

  /** The echo of c: an answer to it, if there is one, is cooked at once. */
  ghost function EchoedWorld(m: Modes, w: World, c: int): (r: World)
    requires WorldOk(w)
    ensures WorldOk(r) && (r.raw == w.raw || Smaller(r.raw, w.raw) || (Answers(m, w.con, c) && Zs(r.raw) <= Zs(w.raw)))
    decreases Zs(w.raw) + (if Answers(m, w.con, c) then 1 else 0), 0, 0
  {
    var a := Echoing(m, w, c);
    if Answers(m, w.con, c) then CopyAll(m, a.(raw := Responded(a.raw))) else a
  }

  /** The rest of the loop body for an ordinary byte c, already taken from the raw queue. */
  ghost function Queued(m: Modes, w: World, c: int): (r: World)
    requires WorldOk(w)
    ensures WorldOk(r) && (r.raw == w.raw || Smaller(r.raw, w.raw) || (Answers(m, w.con, c) && Zs(r.raw) <= Zs(w.raw)))
    decreases Zs(w.raw) + (if Answers(m, w.con, c) then 1 else 0), 0, 1
  {
    Put(EchoedWorld(m, Counted(m, w, c), c), c)
  }

  /** One turn of copy_to_cooked's loop. */
  ghost function Turn(m: Modes, w: World): (r: World)
    requires WorldOk(w) && w.raw != []
    ensures WorldOk(r) && Smaller(r.raw, w.raw)
    decreases Zs(w.raw), |w.raw|, 0
  {
    var c0, v := w.raw[0], w.(raw := w.raw[1..]);
    var c := Mapped(m, c0);
    if Dropped(m, c0) then v
    else if IsErase(m, c) then v.(line := EraseLast(m, v.line), con := Fed(v.con, Erasure(m, v.line)))
    else if IsFlow(m, c) then v.(line := v.line.(stopped := c == m.stop))
    else if IsInterrupt(m, c) then v.(line := v.line.(interrupts := v.line.interrupts + 1))
    else Queued(m, v, c)
  }

  /** The echo of an erase: nothing when there is nothing to erase. */
  function Erasure(m: Modes, l: Line): seq<int> {
    if l.cooked == [] || IsEnd(m, l.cooked[|l.cooked| - 1]) then [] else EchoOfErase(m, l.cooked[|l.cooked| - 1])
  }

  /** copy_to_cooked. */
  ghost function CopyAll(m: Modes, w: World): (r: World)
    requires WorldOk(w)
    ensures WorldOk(r) && (r.raw == w.raw || Smaller(r.raw, w.raw))
    decreases Zs(w.raw), |w.raw|, 1
  {
    if w.raw == [] || |w.line.cooked| >= QUEUE then w else CopyAll(m, Turn(m, w))
  }

  /** Queueing a byte, with and without an answer. */
  lemma QueuedCases(m: Modes, w: World, c: int)
    requires WorldOk(w)
    ensures !Answers(m, w.con, c) ==> Queued(m, w, c) == Put(Announced(m, w, c), c)
    ensures Answers(m, w.con, c) ==> Queued(m, w, c) == Put(CopyAll(m, Announced(m, w, c).(raw := Responded(w.raw))), c)
  {
    assert EchoedWorld(m, Counted(m, w, c), c) ==
           if Answers(m, w.con, c) then CopyAll(m, Announced(m, w, c).(raw := Responded(w.raw)))
             else Announced(m, w, c);
  }

  // ------------------------------------------------------------------ what is kept

  /** Unless the cooked queue has run over, `data` counts its line ends. */
  ghost predicate Right(m: Modes, w: World) { !w.lost ==> LineOk(m, w.line) }

  /** Once lost, always lost; and as long as nothing is lost the count is right. `extra` line ends have been
      counted that are not queued yet. */
  lemma {:induction false} CopyRight(m: Modes, w: World, extra: int)
    requires WorldOk(w) && (!w.lost ==> w.line.data == Ends(m, w.line.cooked) + extra)
    ensures var r := CopyAll(m, w); (w.lost ==> r.lost) && (!r.lost ==> r.line.data == Ends(m, r.line.cooked) + extra)
    decreases Zs(w.raw), |w.raw|, 1
  {
    if w.raw != [] && |w.line.cooked| < QUEUE {
      TurnRight(m, w, extra);
      CopyRight(m, Turn(m, w), extra);
    }
  }

  lemma CopyLost(m: Modes, w: World)
    requires WorldOk(w) && w.lost
    ensures CopyAll(m, w).lost
  {
    CopyRight(m, w, 0);
  }

  lemma {:induction false} TurnRight(m: Modes, w: World, extra: int)
    requires WorldOk(w) && w.raw != [] && (!w.lost ==> w.line.data == Ends(m, w.line.cooked) + extra)
    ensures var r := Turn(m, w); (w.lost ==> r.lost) && (!r.lost ==> r.line.data == Ends(m, r.line.cooked) + extra)
    decreases Zs(w.raw), |w.raw|, 0
  {
    var c0, v := w.raw[0], w.(raw := w.raw[1..]);
    var c := Mapped(m, c0);
    if !Dropped(m, c0) {
      if IsErase(m, c) {
        EraseRight(m, v.line, extra);
      } else if !IsFlow(m, c) && !IsInterrupt(m, c) {
        QueuedRight(m, v, c, extra);
      }
    }
  }

  lemma EraseRight(m: Modes, l: Line, extra: int)
    ensures l.data == Ends(m, l.cooked) + extra ==>
              EraseLast(m, l).data == Ends(m, EraseLast(m, l).cooked) + extra
  {
    EraseKeeps(m, l.(data := Ends(m, l.cooked)));
  }

  lemma {:induction false} QueuedRight(m: Modes, w: World, c: int, extra: int)
    requires WorldOk(w) && (!w.lost ==> w.line.data == Ends(m, w.line.cooked) + extra)
    ensures var r := Queued(m, w, c); (w.lost ==> r.lost) && (!r.lost ==> r.line.data == Ends(m, r.line.cooked) + extra)
    decreases Zs(w.raw) + (if Answers(m, w.con, c) then 1 else 0), 0, 0
  {
    var a, e := Announced(m, w, c), if IsEnd(m, c) then 1 else 0;
    QueuedCases(m, w, c);
    if Answers(m, w.con, c) {
      var b := a.(raw := Responded(a.raw));
      CopyRight(m, b, extra + e);
      EndsAppend(m, CopyAll(m, b).line.cooked, c);
    } else {
      EndsAppend(m, a.line.cooked, c);
    }
  }

  // ------------------------------------------------------------------ when nothing is lost

  /** The most the cooked queue can come to hold: every raw byte, and an answer for every `Z` among them. */
  ghost function Demand(w: World): int { |w.line.cooked| + |w.raw| + 7 * Zs(w.raw) }

  /** With room for that, nothing is lost. */
  lemma {:induction false} CopyFits(m: Modes, w: World, spare: nat)
    requires WorldOk(w) && !w.lost && Demand(w) + spare <= QUEUE
    ensures var r := CopyAll(m, w); !r.lost && Demand(r) + spare <= QUEUE
    decreases Zs(w.raw), |w.raw|, 1
  {
    if w.raw != [] && |w.line.cooked| < QUEUE {
      TurnFits(m, w, spare);
      CopyFits(m, Turn(m, w), spare);
    }
  }

  lemma {:induction false} TurnFits(m: Modes, w: World, spare: nat)
    requires WorldOk(w) && w.raw != [] && !w.lost && Demand(w) + spare <= QUEUE
    ensures var r := Turn(m, w); !r.lost && Demand(r) + spare <= QUEUE
    decreases Zs(w.raw), |w.raw|, 0
  {
    var c0, v := w.raw[0], w.(raw := w.raw[1..]);
    var c := Mapped(m, c0);
    if !Dropped(m, c0) && !IsErase(m, c) && !IsFlow(m, c) && !IsInterrupt(m, c) {
      QueuedFits(m, v, c, spare);
    }
  }

  lemma {:induction false} QueuedFits(m: Modes, w: World, c: int, spare: nat)
    requires WorldOk(w) && !w.lost && Demand(w) + 1 + (if Answers(m, w.con, c) then 7 else 0) + spare <= QUEUE
    ensures var r := Queued(m, w, c); !r.lost && Demand(r) + spare <= QUEUE
    decreases Zs(w.raw) + (if Answers(m, w.con, c) then 1 else 0), 0, 0
  {
    var a := Announced(m, w, c);
    QueuedCases(m, w, c);
    if Answers(m, w.con, c) {
      var b := a.(raw := Responded(a.raw));
      ZsResponse(a.raw);
      CopyFits(m, b, spare + 1);
    }
  }

  /** Echoed as ESC: a control character is echoed as ^ and itself plus 64. */
  predicate EchoesEsc(m: Modes, c0: int) { m.echo && m.echoctl && Mapped(m, c0) == -37 }

  /** No byte of the raw queue can make the console answer. */
  ghost predicate Calm(m: Modes, w: World) {
    || !m.echo || Zs(w.raw) == 0
    || (w.con.state != 1 && forall i :: 0 <= i < |w.raw| ==> !EchoesEsc(m, w.raw[i]))
  }

  lemma FedTwo(p: Parser, a: int, b: int)
    ensures Fed(p, [a]) == Next(p, a) && Fed(p, [a, b]) == Next(Next(p, a), b)
  {
    assert [a][..0] == [] && [a, b][..1] == [a];
  }

  lemma EchoStaysOut(m: Modes, p: Parser, c: int)
    requires p.state != 1 && !(m.echo && m.echoctl && c == -37)
    ensures Fed(p, EchoOf(m, c)).state != 1
  {
    FedTwo(p, 10, 13);
    FedTwo(p, 94, c + 64);
    FedTwo(p, c, c);
  }

  lemma EraseStaysOut(m: Modes, p: Parser, c: int)
    requires p.state != 1
    ensures Fed(p, EchoOfErase(m, c)).state != 1
  {
    FedTwo(p, 127, 127);
  }

  lemma ZsFirst(s: seq<int>)
    requires s != [] && Zs(s) == 0
    ensures s[0] != Z
  {
  }

  /** The console after one turn that gets no answer. */
  function ConAfter(m: Modes, w: World, c0: int): Parser {
    var c := Mapped(m, c0);
    if Dropped(m, c0) then w.con
    else if IsErase(m, c) then Fed(w.con, Erasure(m, w.line))
    else if IsFlow(m, c) || IsInterrupt(m, c) then w.con
    else Fed(w.con, EchoOf(m, c))
  }

  /** Without an answer one turn is one byte of line discipline. */
  lemma TurnPlain(m: Modes, w: World)
    requires WorldOk(w) && w.raw != [] && |w.line.cooked| < QUEUE && !Answers(m, w.con, Mapped(m, w.raw[0]))
    ensures Turn(m, w) == World(w.raw[1..], Cooked(m, w.line, w.raw[0]), Turn(m, w).con, w.lost)
    ensures Turn(m, w).con == ConAfter(m, w, w.raw[0])
  {
    QueuedCases(m, w.(raw := w.raw[1..]), Mapped(m, w.raw[0]));
  }

  lemma ConStaysOut(m: Modes, w: World, c0: int)
    requires w.con.state != 1 && !EchoesEsc(m, c0)
    ensures ConAfter(m, w, c0).state != 1
  {
    EchoStaysOut(m, w.con, Mapped(m, c0));
    if w.line.cooked != [] { EraseStaysOut(m, w.con, w.line.cooked[|w.line.cooked| - 1]); }
  }

  lemma CalmNoAnswer(m: Modes, w: World)
    requires WorldOk(w) && w.raw != [] && Calm(m, w)
    ensures !Answers(m, w.con, Mapped(m, w.raw[0]))
  {
    if Zs(w.raw) == 0 { ZsFirst(w.raw); }
  }

  lemma TurnCalm(m: Modes, w: World)
    requires WorldOk(w) && w.raw != [] && |w.line.cooked| < QUEUE && Calm(m, w)
    ensures var r := Turn(m, w);
            r.raw == w.raw[1..] && r.line == Cooked(m, w.line, w.raw[0]) && r.lost == w.lost && Calm(m, r)
  {
    CalmNoAnswer(m, w);
    TurnPlain(m, w);
    if m.echo && Zs(w.raw) != 0 { ConStaysOut(m, w, w.raw[0]); }
  }

  /** Without an answer copy_to_cooked is the line discipline on a prefix of the raw queue: all of it, unless
      the cooked queue fills up. */
  lemma {:induction false} CalmIsCooked(m: Modes, w: World) returns (done: seq<int>)
    requires WorldOk(w) && Calm(m, w)
    ensures var r := CopyAll(m, w);
            && w.raw == done + r.raw && r.line == CookedAll(m, w.line, done) && r.lost == w.lost
            && (r.raw == [] || |r.line.cooked| == QUEUE)
    decreases |w.raw|
  {
    done := [];
    if w.raw != [] && |w.line.cooked| < QUEUE {
      TurnCalm(m, w);
      var rest := CalmIsCooked(m, Turn(m, w));
      done := [w.raw[0]] + rest;
      CookedConcat(m, w.line, [w.raw[0]], rest);
      CookOne(m, w.line, w.raw[0]);
      assert w.raw == [w.raw[0]] + (rest + CopyAll(m, w).raw);
    }
  }

  // ------------------------------------------------------------------ exactly when an answer loses the queue

  /** The byte ends up in the cooked queue. */
  predicate Queues(m: Modes, c0: int) {
    !Dropped(m, c0) && var c := Mapped(m, c0); !IsErase(m, c) && !IsFlow(m, c) && !IsInterrupt(m, c)
  }

  function Count(m: Modes, s: seq<int>): (n: nat)
    ensures n <= |s|
  {
    if s == [] then 0 else Count(m, s[..|s| - 1]) + (if Queues(m, s[|s| - 1]) then 1 else 0)
  }

  predicate NoErase(m: Modes, s: seq<int>) { forall i :: 0 <= i < |s| ==> !IsErase(m, Mapped(m, s[i])) }

  lemma {:induction false} CookedLength(m: Modes, l: Line, s: seq<int>)
    requires NoErase(m, s)
    ensures |CookedAll(m, l, s).cooked| == |l.cooked| + Count(m, s)
    decreases |s|
  {
    if s != [] { CookedLength(m, l, s[..|s| - 1]); }
  }

  lemma {:induction false} CountConcat(m: Modes, a: seq<int>, b: seq<int>)
    ensures Count(m, a + b) == Count(m, a) + Count(m, b)
    decreases |b|
  {
    if b == [] {
      assert a + b == a;
    } else {
      assert (a + b)[..|a + b| - 1] == a + b[..|b| - 1];
      CountConcat(m, a, b[..|b| - 1]);
    }
  }

  /** Without erasing, copy_to_cooked fills the cooked queue exactly when as many bytes are to be queued as
      there is room. */
  lemma FillsWhen(m: Modes, w: World)
    requires WorldOk(w) && Calm(m, w) && NoErase(m, w.raw)
    ensures var r := CopyAll(m, w);
            && (|r.line.cooked| == QUEUE <==> |w.line.cooked| + Count(m, w.raw) >= QUEUE)
            && (|r.line.cooked| < QUEUE ==> r.raw == []) && r.lost == w.lost
  {
    var done := CalmIsCooked(m, w);
    var rest := CopyAll(m, w).raw;
    forall i | 0 <= i < |done| ensures !IsErase(m, Mapped(m, done[i])) { assert done[i] == w.raw[i]; }
    CookedLength(m, w.line, done);
    CountConcat(m, done, rest);
    if rest == [] { assert done == w.raw; }
  }

  /** The state in which the answer is cooked: `Z` has been taken and echoed, the response put after it. */
  ghost function Answering(m: Modes, w: World): World
    requires WorldOk(w) && w.raw != []
  {
    Announced(m, w.(raw := w.raw[1..]), Z).(raw := Responded(w.raw[1..]))
  }

  /** The first raw byte is a `Z` that the console will answer. */
  ghost predicate Meets(m: Modes, w: World) {
    && WorldOk(w) && !w.lost && w.raw != [] && |w.line.cooked| < QUEUE
    && Queues(m, w.raw[0]) && Mapped(m, w.raw[0]) == Z && Answers(m, w.con, Z)
  }

  /** An answer to an echoed `Z` loses the cooked queue if and only if the bytes to be queued behind it, the
      response and what was waiting, take all the room that was left. */
  lemma AnswerLoses(m: Modes, w: World)
    requires Meets(m, w) && Calm(m, Answering(m, w)) && NoErase(m, Responded(w.raw[1..]))
    ensures CopyAll(m, w).lost <==> QUEUE - |w.line.cooked| <= Count(m, Responded(w.raw[1..]))
    ensures Turn(m, w).lost ==> Turn(m, w).line.cooked == []
    ensures !CopyAll(m, w).lost ==> CopyAll(m, w).line.cooked == CopyAll(m, Answering(m, w)).line.cooked + [Z]
  {
    var b := Answering(m, w);
    FillsWhen(m, b);
    var r := CopyAll(m, b);
    TurnAnswers(m, w);
    if Turn(m, w).lost { CopyLost(m, Turn(m, w)); }
  }

  /** None of the seven bytes of the response is a special character of the terminal. */
  ghost predicate PlainResponse(m: Modes) { forall i :: 0 <= i < 7 ==> Queues(m, Response()[i]) }

  /** The case of an interrupt for one key: when `Z` is typed with the console in the state after ESC, the
      queue is lost if and only if at most seven places were left in it. */
  lemma OneKeyLoses(m: Modes, w: World)
    requires Meets(m, w) && |w.raw| == 1 && PlainResponse(m)
    ensures CopyAll(m, w).lost <==> QUEUE - |w.line.cooked| <= 7
    ensures CopyAll(m, w).lost ==> |CopyAll(m, w).line.cooked| <= 7 && CopyAll(m, w).line.data >= w.line.data
    ensures QUEUE - |w.line.cooked| == 7 ==> CopyAll(m, w).line.cooked == []
  {
    var b := Answering(m, w);
    assert w.raw[1..] + Response() == Response();
    ZsNone(Response());
    CountAll(m, Response());
    AnswerLoses(m, w);
    RestOfResponse(m, b);
    TurnAnswers(m, w);
    if QUEUE - |w.line.cooked| <= 7 { AfterLoss(m, Turn(m, w)); }
  }

  lemma TurnAnswers(m: Modes, w: World)
    requires Meets(m, w)
    ensures Turn(m, w) == Put(CopyAll(m, Answering(m, w)), Z)
  {
    QueuedCases(m, w.(raw := w.raw[1..]), Z);
  }

  lemma RestOfResponse(m: Modes, b: World)
    requires WorldOk(b) && b.raw == Response() && PlainResponse(m)
    ensures var r := CopyAll(m, b);
            && |r.raw| <= 7 && Zs(r.raw) == 0 && r.line.data >= b.line.data
            && (QUEUE - |b.line.cooked| <= 7 ==> |r.line.cooked| == QUEUE)
            && (QUEUE - |b.line.cooked| == 7 ==> r.raw == [])
  {
    ZsNone(Response());
    var done := CalmIsCooked(m, b);
    var rest := CopyAll(m, b).raw;
    ZsConcat(done, rest);
    CountAll(m, Response());
    FillsWhen(m, b);
    CookedAtMost(m, b.line, done);
  }

  /** What is cooked after the loss are bytes of the response that had not been queued yet. */
  lemma AfterLoss(m: Modes, w: World)
    requires WorldOk(w) && w.line.cooked == [] && |w.raw| <= 7 && Zs(w.raw) == 0
    ensures |CopyAll(m, w).line.cooked| <= 7 && CopyAll(m, w).line.data >= w.line.data
  {
    var done := CalmIsCooked(m, w);
    CookedAtMost(m, w.line, done);
  }

  lemma {:induction false} CookedAtMost(m: Modes, l: Line, s: seq<int>)
    ensures |CookedAll(m, l, s).cooked| <= |l.cooked| + |s| && CookedAll(m, l, s).data >= l.data
    decreases |s|
  {
    if s != [] { CookedAtMost(m, l, s[..|s| - 1]); }
  }

  lemma {:induction false} CountAll(m: Modes, s: seq<int>)
    requires forall i :: 0 <= i < |s| ==> Queues(m, s[i])
    ensures Count(m, s) == |s| && NoErase(m, s)
    decreases |s|
  {
    if s != [] { CountAll(m, s[..|s| - 1]); }
  }

  // ------------------------------------------------------------------ runs

  datatype Event = Key(c: int) | Cook | Read(nr: nat) | Program(s: seq<int>)

  /** A byte from the keyboard; a full raw queue drops it. */
  function Keyed(w: World, c: int): World { if |w.raw| < QUEUE then w.(raw := w.raw + [c]) else w }

  /** One byte of a program's output; an answer to it is cooked at once. */
  ghost function Shown(m: Modes, w: World, c: int): (r: World)
    requires WorldOk(w)
    ensures WorldOk(r)
  {
    var v := w.(con := Next(w.con, c));
    if Asks(w.con, c) then CopyAll(m, v.(raw := Responded(v.raw))) else v
  }

  ghost function Written(m: Modes, w: World, s: seq<int>): (r: World)
    requires WorldOk(w)
    ensures WorldOk(r)
    decreases |s|
  {
    if s == [] then w else Shown(m, Written(m, w, s[..|s| - 1]), s[|s| - 1])
  }

  /** What a read of nr leaves. */
  function ReadFrom(m: Modes, l: Line, nr: nat): Line {
    if nr == 0 || l.cooked == [] then l
    else
      var n := Readable(m, l.cooked, 0, nr);
      var eof := n < nr && n < |l.cooked| && m.canon && l.cooked[n] == m.eof;
      var k := n + (if eof then 1 else 0);
      l.(cooked := l.cooked[k..], data := l.data - Ends(m, l.cooked[..k]))
  }

  ghost function Happens(m: Modes, w: World, e: Event): (r: World)
    requires WorldOk(w)
    ensures WorldOk(r)
  {
    match e
    case Key(c) => Keyed(w, c)
    case Cook => CopyAll(m, w)
    case Read(nr) => w.(line := ReadFrom(m, w.line, nr))
    case Program(s) => Written(m, w, s)
  }

  ghost function After(m: Modes, w: World, es: seq<Event>): (r: World)
    requires WorldOk(w)
    ensures WorldOk(r)
    decreases |es|
  {
    if es == [] then w else Happens(m, After(m, w, es[..|es| - 1]), es[|es| - 1])
  }

  /** A console that has just been opened. */
  function Fresh(): World { World([], Line([], 0, false, [], 0), Parser(0, 0), false) }

  lemma ReadRight(m: Modes, w: World, nr: nat)
    requires Right(m, w)
    ensures Right(m, w.(line := ReadFrom(m, w.line, nr)))
  {
    var l := w.line;
    if nr > 0 && l.cooked != [] && !w.lost {
      var k := |l.cooked| - |ReadFrom(m, l, nr).cooked|;
      assert l.cooked == l.cooked[..k] + l.cooked[k..];
      EndsConcat(m, l.cooked[..k], l.cooked[k..]);
    }
  }

  lemma {:induction false} WrittenRight(m: Modes, w: World, s: seq<int>)
    requires WorldOk(w) && Right(m, w)
    ensures var r := Written(m, w, s); Right(m, r) && (w.lost ==> r.lost)
    decreases |s|
  {
    if s != [] {
      var v, c := Written(m, w, s[..|s| - 1]), s[|s| - 1];
      WrittenRight(m, w, s[..|s| - 1]);
      if Asks(v.con, c) { CopyRight(m, v.(con := Next(v.con, c), raw := Responded(v.raw)), 0); }
    }
  }

  /** Over every run: as long as the cooked queue has not run over, `data` is the number of newlines and
      end-of-file characters in it. */
  lemma {:induction false} RunRight(m: Modes, w: World, es: seq<Event>)
    requires WorldOk(w) && Right(m, w)
    ensures var r := After(m, w, es); Right(m, r) && (w.lost ==> r.lost)
    decreases |es|
  {
    if es != [] {
      var v, e := After(m, w, es[..|es| - 1]), es[|es| - 1];
      RunRight(m, w, es[..|es| - 1]);
      match e {
        case Key(_) =>
        case Cook => CopyRight(m, v, 0);
        case Read(nr) => ReadRight(m, v, nr);
        case Program(s) => WrittenRight(m, v, s);
      }
    }
  }

  /** The output s makes the console answer nowhere. */
  ghost predicate NoQuestion(p: Parser, s: seq<int>)
    decreases |s|
  {
    s == [] || (NoQuestion(p, s[..|s| - 1]) && !Asks(Fed(p, s[..|s| - 1]), s[|s| - 1]))
  }

  /** Before an event that cooks: no answer can come, or there is room for all that can. */
  ghost predicate Safe(m: Modes, w: World, e: Event) {
    match e
    case Cook => Calm(m, w) || Demand(w) <= QUEUE
    case Program(s) => NoQuestion(w.con, s) || Demand(w) + 7 * |s| <= QUEUE
    case _ => true
  }

  lemma {:induction false} QuietOutput(m: Modes, w: World, s: seq<int>)
    requires WorldOk(w) && NoQuestion(w.con, s)
    ensures Written(m, w, s) == w.(con := Fed(w.con, s))
    decreases |s|
  {
    if s != [] { QuietOutput(m, w, s[..|s| - 1]); }
  }

  lemma {:induction false} OutputFits(m: Modes, w: World, s: seq<int>)
    requires WorldOk(w) && !w.lost && Demand(w) + 7 * |s| <= QUEUE
    ensures var r := Written(m, w, s); !r.lost && Demand(r) <= Demand(w) + 7 * |s|
    decreases |s|
  {
    if s != [] {
      var v, c := Written(m, w, s[..|s| - 1]), s[|s| - 1];
      OutputFits(m, w, s[..|s| - 1]);
      if Asks(v.con, c) {
        ZsResponse(v.raw);
        var b := v.(con := Next(v.con, c), raw := Responded(v.raw));
        CopyFits(m, b, QUEUE - Demand(b));
      }
    }
  }

  ghost predicate AllSafe(m: Modes, w: World, es: seq<Event>)
    requires WorldOk(w)
    decreases |es|
  {
    es == [] || (AllSafe(m, w, es[..|es| - 1]) && Safe(m, After(m, w, es[..|es| - 1]), es[|es| - 1]))
  }

  /** Over every such run whose cooking is safe in this sense the cooked queue never overflows. */
  lemma {:induction false} RunFits(m: Modes, w: World, es: seq<Event>)
    requires WorldOk(w) && !w.lost && AllSafe(m, w, es)
    ensures !After(m, w, es).lost
    decreases |es|
  {
    if es != [] {
      var v, e := After(m, w, es[..|es| - 1]), es[|es| - 1];
      RunFits(m, w, es[..|es| - 1]);
      match e {
        case Key(_) =>
        case Read(_) =>
        case Cook => if Calm(m, v) { var done := CalmIsCooked(m, v); } else { CopyFits(m, v, 0); }
        case Program(s) => if NoQuestion(v.con, s) { QuietOutput(m, v, s); } else { OutputFits(m, v, s); }
      }
    }
  }

  // ------------------------------------------------------------------ a run that loses the queue

  /** The console's modes and control characters (tty_io.c:48-55, tty.h:75). */
  function ConsoleModes(): Modes {
    Modes(false, false, false, false, true, false, true, true, 4, 127, 19, 17, 3)
  }

  function Typing(n: nat): seq<Event> {
    if n == 0 then [Key(10), Cook] else Typing(n - 1) + [Key(97), Cook]
  }

  function As(n: nat): seq<int> { seq(n, _ => 97) }

  lemma AfterTwo(m: Modes, w: World, es: seq<Event>, a: Event, b: Event)
    requires WorldOk(w)
    ensures After(m, w, es + [a, b]) == Happens(m, Happens(m, After(m, w, es), a), b)
  {
    assert (es + [a, b])[..|es| + 1] == es + [a];
    assert (es + [a])[..|es|] == es;
  }

  /** `a` or a newline typed on the console, cooked at once. */
  lemma KeyCooked(m: Modes, w: World, c: int)
    requires m == ConsoleModes() && WorldOk(w) && w.raw == [] && |w.line.cooked| < QUEUE
    requires w.con == Parser(0, 0) && (c == 97 || c == 10)
    ensures CopyAll(m, Keyed(w, c)) == World([], Deposited(m, w.line, c), Parser(0, 0), w.lost)
  {
    var v := Keyed(w, c);
    assert v.raw == [c] && v.raw[1..] == [];
    TurnPlain(m, v);
    KeyCon(m, v, c);
    assert Turn(m, v).raw == [];
  }

  lemma KeyCon(m: Modes, w: World, c: int)
    requires m == ConsoleModes() && w.con == Parser(0, 0) && (c == 97 || c == 10)
    ensures ConAfter(m, w, c) == Parser(0, 0) && Cooked(m, w.line, c) == Deposited(m, w.line, c)
  {
    FedTwo(w.con, c, c);
    FedTwo(w.con, 10, 13);
    assert EchoOf(m, c) == if c == 10 then [10, 13] else [c];
  }

  /** A newline and n times `a` typed and not read. */
  lemma {:induction false} TypingFills(n: nat)
    requires n + 1 < QUEUE
    ensures var r := After(ConsoleModes(), Fresh(), Typing(n));
            && r.raw == [] && r.line.cooked == [10] + As(n) && r.line.data == 1 && r.con == Parser(0, 0) && !r.lost
    decreases n
  {
    var m := ConsoleModes();
    if n == 0 {
      assert [] + [Key(10), Cook] == [Key(10), Cook];
      AfterTwo(m, Fresh(), [], Key(10), Cook);
      KeyCooked(m, Fresh(), 10);
    } else {
      TypingFills(n - 1);
      var w := After(m, Fresh(), Typing(n - 1));
      AfterTwo(m, Fresh(), Typing(n - 1), Key(97), Cook);
      KeyCooked(m, w, 97);
      assert [10] + As(n - 1) + [97] == [10] + As(n);
    }
  }

  function LosingRun(n: nat): seq<Event> { Typing(n) + [Program([27]), Key(Z)] + [Cook] }

  /** A line and n = 1015 more characters are typed and not read, a program writes an ESC, and `Z` is typed:
      the cooked queue is empty afterwards, and `data` still counts its line. */
  lemma LosesQueue(n: nat)
    requires n + 8 == QUEUE
    ensures var r := After(ConsoleModes(), Fresh(), Typing(n)); |r.line.cooked| == n + 1 && !r.lost
    ensures var r := After(ConsoleModes(), Fresh(), LosingRun(n)); r.lost && r.line.cooked == [] && r.line.data >= 1
  {
    var m := ConsoleModes();
    TypingFills(n);
    var w := After(m, Fresh(), Typing(n));
    var es := Typing(n) + [Program([27]), Key(Z)];
    AfterTwo(m, Fresh(), Typing(n), Program([27]), Key(Z));
    EscThenZ(m, w);
    var v := w.(con := Parser(1, 0), raw := [Z]);
    assert After(m, Fresh(), es) == v;
    assert (es + [Cook])[..|es|] == es;
    ZMeets(m, v);
    OneKeyLoses(m, v);
  }

  lemma EscThenZ(m: Modes, w: World)
    requires WorldOk(w) && w.raw == [] && w.con == Parser(0, 0)
    ensures Happens(m, Happens(m, w, Program([27])), Key(Z)) == w.(con := Parser(1, 0), raw := [Z])
  {
    FedTwo(w.con, 27, 27);
    assert [27][..0] == [];
    assert NoQuestion(w.con, [27]);
    QuietOutput(m, w, [27]);
  }

  lemma ZMeets(m: Modes, v: World)
    requires m == ConsoleModes() && WorldOk(v) && !v.lost && v.raw == [Z] && |v.line.cooked| < QUEUE &&
             v.con == Parser(1, 0)
    ensures Meets(m, v) && PlainResponse(m)
  {
    forall i | 0 <= i < 7 ensures Queues(m, Response()[i]) { }
  }
}

/**
  What an overrun leads to. A program writes ESC Z x y in one call, on a console with a line and 1014 characters typed
  and not read; the answer to it is echoed while x and y are still to be shown. The tail of write_q passes the head.
  From then on every echo shows the whole ring again, the ESC Z in it is answered again, and the next key, for which
  there is room, loses the cooked queue.
 */
module Replays {
  import opened Rings
  import opened LineDiscipline
  import opened Echoes
  import opened Overruns
  import opened InSteps
  import opened ConsoleRuns

  const ESC := 27

  ghost predicate NoEsc(s: seq<int>) { forall i :: 0 <= i < |s| ==> s[i] != ESC }

  function Quiet(): Parser { Parser(0, 0) }

  lemma {:induction false} QuietFed(s: seq<int>)
    requires NoEsc(s)
    ensures Fed(Quiet(), s) == Quiet()
    decreases |s|
  {
    if s != [] { QuietFed(s[..|s| - 1]); }
  }

  /** Without an ESC nothing is answered. */
  lemma QuietUnasked(s: seq<int>, n: nat)
    requires n <= |s| && NoEsc(s[..n])
    ensures Unasked(Quiet(), s, n) && Fed(Quiet(), s[..n]) == Quiet()
  {
    QuietFed(s[..n]);
    forall i | 0 <= i < n ensures Fed(Quiet(), s[..i]) == Quiet() {
      assert s[..i] == s[..n][..i];
      QuietFed(s[..i]);
    }
  }

  lemma {:induction false} PushedAllCells(out: Queue, s: seq<int>)
    requires |out.stale| >= 1 && |s| <= |Cells(out)|
    ensures Cells(PushedAll(out, s)) == Cells(out)[|s|..] + s
    decreases |s|
  {
    if s == [] {
      assert Cells(out)[0..] + [] == Cells(out);
    } else {
      PushedAllCells(Pushed(out, s[0]), s[1..]);
      assert (Cells(out)[1..] + [s[0]])[|s| - 1..] + s[1..] == Cells(out)[|s|..] + s;
    }
  }

  lemma PastCells(x: State, n: nat)
    requires StateOk(x) && n <= |x.out.q|
    ensures Cells(Past(x, n).out) == Cells(x.out)
  {
    assert x.out.q[..n] + x.out.q[n..] == x.out.q;
  }

  // ------------------------------------------------------------------ typing

  /** A byte that is queued and echoed as it is. */
  predicate Prints(m: Modes, c: int) { m.echo && 32 <= c && Queues(m, c) && Mapped(m, c) == c && c != Z }

  /** A queue at rest, to which c is typed. */
  lemma PrintOne(m: Modes, x: State)
    requires InStep(x) && x.con == Quiet() && x.raw != [] && Prints(m, x.raw[0]) && |x.sec.stale| > 1
    ensures var t := TurnOf(m, x);
            && InStep(t) && t.con == Quiet() && t.raw == x.raw[1..] && t.sec.q == x.sec.q + [x.raw[0]]
            && t.lost == x.lost
            && Cells(t.out) == Cells(x.out)[1..] + [x.raw[0]]
  {
    var c, y := x.raw[0], Begun(m, x);
    TurnQueues(m, x);
    UnansweredEcho(m, y, c);
    SpokenIs(y, [c]);
    SpokenCells(y, [c]);
    assert [c][..0] == [];
  }

  lemma SpokenCells(x: State, s: seq<int>)
    requires InStep(x) && |s| <= 2
    ensures Cells(Spoken(x, s).out) == Cells(x.out)[|s|..] + s
  {
    PushedTwo(x.out, s);
    PushedAllCells(x.out, s);
    PastCells(Emitted(x, s), |s|);
  }

  lemma {:induction false} PrintAll(m: Modes, x: State)
    requires InStep(x) && x.con == Quiet() && (forall i :: 0 <= i < |x.raw| ==> Prints(m, x.raw[i]))
    requires |x.raw| < |x.sec.stale|
    ensures var t := Cooking(m, x);
            && InStep(t) && t.con == Quiet() && t.raw == [] && t.sec.q == x.sec.q + x.raw && t.lost == x.lost
            && Cells(t.out) == Cells(x.out)[|x.raw|..] + x.raw
    decreases |x.raw|
  {
    Shift(x.sec.q, Cells(x.out), x.raw);
    if x.raw != [] {
      PrintOne(m, x);
      PrintAll(m, TurnOf(m, x));
    }
  }

  lemma Shift(q: seq<int>, cells: seq<int>, s: seq<int>)
    requires |s| <= |cells|
    ensures s == [] ==> q + s == q && cells[|s|..] + s == cells
    ensures s != [] ==> q + [s[0]] + s[1..] == q + s
    ensures s != [] ==> (cells[1..] + [s[0]])[|s| - 1..] + s[1..] == cells[|s|..] + s
  {
  }

  function FreshState(): State {
    var z := Queue([], seq(CELLS, _ => 0));
    State([], z, z, 0, false, 0, [], Quiet(), false, false)
  }

  /** A newline, then n times `a`, each cooked at once. */
  function TypeLine(n: nat): seq<Doing> {
    if n == 0 then [Press(10), Copy] else TypeLine(n - 1) + [Press(97), Copy]
  }

  ghost predicate AtRest(x: State, n: nat) {
    InStep(x) && x.con == Quiet() && x.raw == [] && |x.sec.q| == n && !x.lost && NoEsc(Cells(x.out))
  }

  lemma DoneTwo(m: Modes, x: State, ds: seq<Doing>, a: Doing, b: Doing)
    requires StateOk(x)
    ensures AllDone(m, x, ds + [a]) == Done(m, AllDone(m, x, ds), a)
    ensures AllDone(m, x, ds + [a, b]) == Done(m, Done(m, AllDone(m, x, ds), a), b)
  {
    assert (ds + [a])[..|ds|] == ds;
    assert (ds + [a, b])[..|ds| + 1] == ds + [a];
  }

  lemma TypeA(x: State, n: nat)
    requires AtRest(x, n) && n < QUEUE
    ensures AtRest(Cooking(ConsoleModes(), Pressed(x, 97)), n + 1)
  {
    var y := Pressed(x, 97);
    assert y.raw == [97];
    PrintAll(ConsoleModes(), y);
  }

  lemma TypeNewline(x: State)
    requires AtRest(x, 0)
    ensures AtRest(Cooking(ConsoleModes(), Pressed(x, 10)), 1)
  {
    var m := ConsoleModes();
    var y := Pressed(x, 10);
    assert y.raw == [10];
    TurnQueues(m, y);
    var b := Begun(m, y);
    assert EchoOf(m, 10) == [10, 13];
    UnansweredEcho(m, b, 10);
    SpokenIs(b, [10, 13]);
    SpokenCells(b, [10, 13]);
    QuietFed([10, 13]);
  }

  lemma {:induction false} Types(n: nat)
    requires n + 1 < QUEUE
    ensures AtRest(AllDone(ConsoleModes(), FreshState(), TypeLine(n)), n + 1)
    decreases n
  {
    var m, x := ConsoleModes(), FreshState();
    if n == 0 {
      DoneTwo(m, x, [], Press(10), Copy);
      assert [] + [Press(10), Copy] == [Press(10), Copy];
      TypeNewline(x);
    } else {
      Types(n - 1);
      DoneTwo(m, x, TypeLine(n - 1), Press(97), Copy);
      TypeA(AllDone(m, x, TypeLine(n - 1)), n);
    }
  }

  // ------------------------------------------------------------------ the response

  /** The response without its ESC. */
  function Tail(): seq<int> { Response()[1..] }

  lemma TailPrints()
    ensures |Tail()| == 6 && forall i :: 0 <= i < 6 ==> Prints(ConsoleModes(), Tail()[i])
  {
  }

  /** The response is cooked while `left`, without an ESC, is still to be shown: its ESC is echoed as ^[, and all of
      write_q is shown for that. */
  lemma EscCooked(x: State)
    requires StateOk(x) && x.con == Quiet() && x.raw == Response() && NoEsc(x.out.q) && |x.out.stale| > 2
    requires |x.sec.stale| > 1
    ensures var t := TurnOf(ConsoleModes(), x);
            && StateOk(t) && t.con == Quiet() && t.raw == Tail() && t.sec.q == x.sec.q + [ESC] && t.out.q == []
            && t.over == x.over && t.lost == x.lost && Cells(t.out) == Cells(x.out)[2..] + [94, 91]
  {
    var m := ConsoleModes();
    TurnQueues(m, x);
    var b := Begun(m, x);
    assert EchoOf(m, ESC) == [94, 91];
    var e := Emitted(b, [94, 91]);
    PushedInto(b.out, [94, 91]);
    ShowsAll(m, e);
    PushedAllCells(b.out, [94, 91]);
  }

  /** con_write of bytes without an ESC. */
  lemma ShowsAll(m: Modes, e: State)
    requires StateOk(e) && e.con == Quiet() && NoEsc(e.out.q)
    ensures var t := ConLoop(m, e, |e.out.q|); t == e.(out := t.out) && t.out.q == [] && Cells(t.out) == Cells(e.out)
  {
    var n := |e.out.q|;
    assert e.out.q[..n] == e.out.q;
    QuietUnasked(e.out.q, n);
    Glides(m, e, n, 0);
    PastCells(e, n);
  }

  // ------------------------------------------------------------------ the overrun

  const QUERY := [27, 90, 120, 121]

  /** What lies in the ring after the query: it, and the echo of the answer. */
  function Litter(): seq<int> { [120, 121, 94, 91] + Tail() }

  /** write_q as the overrun leaves it: nearly all of the ring counts as contents, with the query in it. */
  ghost predicate Haunted(x: State, n: nat) {
    && StateOk(x) && x.over && x.con == Quiet() && x.raw == [] && |x.sec.q| == n && !x.lost && |x.out.stale| == 2
    && |x.out.q| == 1022 && NoEsc(x.out.q[..1010]) && x.out.q[1010..] == [27, 90] + Litter()
  }

  lemma NoKeys(m: Modes, x: State, n: nat)
    requires StateOk(x)
    ensures ShowLoop(m, x, n, []) == ConLoop(m, x, n)
    decreases n
  {
    if n > 0 { NoKeys(m, ConTake(m, x), n - 1); }
  }

  /** The query in write_q. */
  lemma QueryPut(x: State)
    requires InStep(x)
    ensures var y := x.(out := Queue(QUERY, x.out.stale[4..]));
            StateOk(y) && Done(ConsoleModes(), x, Output(QUERY, [])) == ConLoop(ConsoleModes(), y, 4)
  {
    PushedInto(x.out, QUERY);
    assert Chunk(x.out, QUERY) == QUERY && [] + QUERY == QUERY;
    DoneOutput(ConsoleModes(), x, QUERY, []);
    NoKeys(ConsoleModes(), x.(out := Queue(QUERY, x.out.stale[4..])), 4);
  }

  function Asked(y: State): State {
    y.(out := Queue([120, 121], y.out.stale + [27, 90]), raw := Response(), con := Quiet())
  }

  /** Up to the answer, with two bytes still to show. */
  lemma QueryAsks(y: State)
    requires StateOk(y) && !y.over && y.con == Quiet() && y.raw == [] && y.out.q == QUERY
    ensures StateOk(Asked(y))
    ensures ConLoop(ConsoleModes(), y, 4) == ConLoop(ConsoleModes(), Cooking(ConsoleModes(), Asked(y)), 2)
  {
    var m := ConsoleModes();
    var b := Taken(y);
    assert b == y.(out := Queue([90, 120, 121], y.out.stale + [27]), con := Parser(1, 0));
    LoopOne(m, y, 3);
    AskedNext(y, b);
    LoopOne(m, b, 2);
  }

  lemma AskedNext(y: State, b: State)
    requires StateOk(y) && !y.over && y.raw == [] && y.out.q == QUERY
    requires b == y.(out := Queue([90, 120, 121], y.out.stale + [27]), con := Parser(1, 0)) && StateOk(b)
    ensures StateOk(Asked(y)) && ConTake(ConsoleModes(), b) == Cooking(ConsoleModes(), Asked(y))
  {
    assert y.out.stale + [27] + [90] == y.out.stale + [27, 90];
    assert [90, 120, 121][1..] == [120, 121] && [] + Response() == Response();
    assert Taken(b).(raw := Responded(b.raw)) == Asked(y);
  }

  lemma Queried(x: State, n: nat)
    requires AtRest(x, n) && n + 8 <= QUEUE
    ensures Haunted(Done(ConsoleModes(), x, Output(QUERY, [])), n + 7)
  {
    var y := x.(out := Queue(QUERY, x.out.stale[4..]));
    QueryPut(x);
    QueryAsks(y);
    AnswerCooked(y, y.out.stale[8..]);
    OldCells(x);
    TwoMore(Cooking(ConsoleModes(), Asked(y)), y.out.stale[8..]);
  }

  lemma OldCells(x: State)
    requires InStep(x) && NoEsc(Cells(x.out))
    ensures var s := x.out.stale[4..][8..]; |s| == 1012 && NoEsc(s)
  {
    assert Cells(x.out) == x.out.stale;
  }

  lemma AnswerCooked(y: State, old': seq<int>)
    requires StateOk(y) && !y.over && !y.lost && y.raw == [] && y.out.q == QUERY && |y.sec.q| + 8 <= QUEUE
    requires old' == y.out.stale[8..]
    ensures var c := Cooking(ConsoleModes(), Asked(y));
            && InStep(c) && c.con == Quiet() && c.raw == [] && !c.lost && |c.sec.q| == |y.sec.q| + 7
            && Cells(c.out) == old' + [27, 90] + Litter()
  {
    var m, a := ConsoleModes(), Asked(y);
    EscCooked(a);
    TailPrints();
    var t := TurnOf(m, a);
    PrintAll(m, t);
    LitterIs(y.out.stale);
  }

  lemma LitterIs(stale: seq<int>)
    requires |stale| >= 8
    ensures ((stale + [27, 90] + [120, 121])[2..] + [94, 91])[6..] + Tail() == stale[8..] + [27, 90] + Litter()
  {
  }

  /** The two bytes that con_write still wants. */
  lemma TwoMore(c: State, old': seq<int>)
    requires InStep(c) && c.con == Quiet() && c.raw == [] && !c.lost
    requires |old'| == 1012 && NoEsc(old') && Cells(c.out) == old' + [27, 90] + Litter()
    ensures Haunted(ConLoop(ConsoleModes(), c, 2), |c.sec.q|)
  {
    var m := ConsoleModes();
    var d := Taken(c);
    assert Oldest(c.out) == Cells(c.out)[0] == old'[0];
    assert ConTake(m, c) == d;
    var e := Taken(d);
    assert Oldest(d.out) == Cells(c.out)[1] == old'[1];
    assert ConTake(m, d) == e;
    LoopOne(m, c, 1);
    LoopOne(m, d, 0);
    assert e.out.q == Cells(c.out)[2..];
    assert e.out.q[..1010] == old'[2..];
    assert e.out.q[1010..] == [27, 90] + Litter();
  }

  // ------------------------------------------------------------------ the next key

  /** In a full cooked queue nothing is put while con_write shows its bytes. */
  lemma {:induction false} FullStays(m: Modes, x: State, n: nat)
    requires StateOk(x) && |x.sec.stale| == 1
    ensures ConLoop(m, x, n).sec == x.sec
    decreases n
  {
    if n > 0 {
      LoopOne(m, x, n - 1);
      assert ConTake(m, x).sec == x.sec;
      FullStays(m, ConTake(m, x), n - 1);
    }
  }

  /** `a` is typed: the whole ring is to be shown for its echo. */
  lemma ReplayBegins(x: State, n: nat)
    requires Haunted(x, n) && n + 1 == QUEUE
    ensures var m := ConsoleModes();
            var y := Emitted(Begun(m, Pressed(x, 97)), [97]);
            && StateOk(y) && Pressed(x, 97).raw == [97] && y.raw == []
            && Done(m, Pressed(x, 97), Copy) == Cooking(m, PutSec(ConLoop(m, y, |y.out.q|), 97))
  {
    var m, p := ConsoleModes(), Pressed(x, 97);
    assert p.raw == [97] && EchoOf(m, 97) == [97];
    TurnQueues(m, p);
  }

  /** Up to the query's Z nothing in it is answered. */
  lemma ReplayAsks(x: State, n: nat)
    requires Haunted(x, n)
    ensures var y := Emitted(x, [97]);
            && |y.out.q| == 1023 && Unasked(y.con, y.out.q, 1011) && Past(y, 1011).con == Parser(1, 0)
            && y.out.q[1011..] == [90] + Litter() + [97]
  {
    PushedInto(x.out, [97]);
    var q := x.out.q + [97];
    assert q[1011..] == x.out.q[1010..][1..] + [97];
    assert q[..1010] == x.out.q[..1010] && q[1010] == x.out.q[1010..][0];
    QuietUnasked(q, 1010);
    UnaskedNext(q, 1010);
  }

  lemma UnaskedNext(q: seq<int>, n: nat)
    requires n < |q| && Unasked(Quiet(), q, n) && Fed(Quiet(), q[..n]) == Quiet() && q[n] == ESC
    ensures Unasked(Quiet(), q, n + 1) && Fed(Quiet(), q[..n + 1]) == Parser(1, 0)
  {
    assert q[..n + 1][..n] == q[..n];
  }

  /** The Z is answered, and the ESC of the response fills the cooked queue while the key still waits. */
  lemma ReplayFills(y: State)
    requires StateOk(y) && y.over && y.con == Parser(1, 0) && y.raw == [] && |y.sec.q| == QUEUE - 1
    requires y.out.q == [90] + Litter() + [97]
    ensures |ConTake(ConsoleModes(), y).sec.stale| == 1
  {
    var m := ConsoleModes();
    var a := Taken(y).(raw := Response());
    assert [] + Response() == Response();
    assert y.out.q[1..] == Litter() + [97];
    EscCooked(a);
    assert ConTake(m, y) == Cooking(m, a);
    FullOnce(m, a);
  }

  lemma FullOnce(m: Modes, a: State)
    requires StateOk(a) && a.raw != [] && |a.sec.stale| > 1 && |TurnOf(m, a).sec.stale| == 1
    ensures Cooking(m, a) == TurnOf(m, a)
  {
  }

  lemma ReplayFull(y: State)
    requires StateOk(y) && y.over && y.raw == [] && |y.sec.q| == QUEUE - 1 && |y.out.q| == 1023
    requires Unasked(y.con, y.out.q, 1011) && Past(y, 1011).con == Parser(1, 0)
    requires y.out.q[1011..] == [90] + Litter() + [97]
    ensures |ConLoop(ConsoleModes(), y, 1023).sec.stale| == 1
  {
    var m, z := ConsoleModes(), Past(y, 1011);
    Glides(m, y, 1011, 12);
    PastOk(y, 1011);
    ReplayFills(z);
    LoopOne(m, z, 11);
    FullStays(m, ConTake(m, z), 11);
  }

  lemma ReplayLoses(x: State, n: nat)
    requires Haunted(x, n) && n + 1 == QUEUE
    ensures Done(ConsoleModes(), Pressed(x, 97), Copy).lost
  {
    ReplayBegins(x, n);
    ReplayAsks(x, n);
    var y := Emitted(Begun(ConsoleModes(), Pressed(x, 97)), [97]);
    SameAhead(Emitted(x, [97]), y, 1011);
    ReplayFull(y);
  }

  lemma SameAhead(x: State, y: State, n: nat)
    requires x.out == y.out && x.con == y.con && n <= |x.out.q|
    ensures Past(x, n).con == Past(y, n).con
  {
  }

  /** The run: a line and n = 1014 characters are typed, the query is written, and `a` is typed. When it is cooked
      there is room for it, nothing else waits, and no Z has been typed; and the cooked queue is lost. */
  lemma OverrunLoses(n: nat)
    requires n + 9 == QUEUE
    ensures var m, ds := ConsoleModes(), TypeLine(n) + [Output(QUERY, []), Press(97)];
            var y := AllDone(m, FreshState(), ds);
            && y.raw == [97] && |y.sec.q| == QUEUE - 1 && !y.lost && y.over
            && AllDone(m, FreshState(), ds + [Copy]).lost
    ensures InStep(AllDone(ConsoleModes(), FreshState(), TypeLine(n)))
    ensures GoesPast(ConsoleModes(), AllDone(ConsoleModes(), FreshState(), TypeLine(n)), Output(QUERY, []))
  {
    var m, x0 := ConsoleModes(), FreshState();
    Types(n);
    var x := AllDone(m, x0, TypeLine(n));
    Queried(x, n + 1);
    DoneInStep(m, x, Output(QUERY, []));
    DoneTwo(m, x0, TypeLine(n), Output(QUERY, []), Press(97));
    DoneTwo(m, x0, TypeLine(n) + [Output(QUERY, []), Press(97)], Copy, Copy);
    ReplayLoses(Done(m, x, Output(QUERY, [])), n + 8);
  }

  // ------------------------------------------------------------------ a loss without an overrun

  /** The run of module Echoes that loses the queue, with the console's own queues: it stays in step. */
  lemma LosesInStep(n: nat)
    requires n + 8 == QUEUE
    ensures var r := AllDone(ConsoleModes(), FreshState(), TypeLine(n) + [Output([ESC], []), Press(Z)] + [Copy]);
            InStep(r) && r.lost && r.sec.q == [] && r.data >= 1
  {
    var m, x := ConsoleModes(), FreshState();
    var ds := TypeLine(n) + [Output([ESC], []), Press(Z)];
    Types(n);
    var y := AllDone(m, x, TypeLine(n));
    DoneTwo(m, x, TypeLine(n), Output([ESC], []), Press(Z));
    DoneTwo(m, x, ds, Copy, Copy);
    OneByte(m, y);
    DoneInStep(m, y, Output([ESC], []));
    var z := Done(m, Done(m, y, Output([ESC], [])), Press(Z));
    CookInStep(m, z);
    RunIff(m, x, ds + [Copy]);
    PlainLine(n);
    PlainRun(n);
    LosesQueue(n);
  }

  /** A write of one byte never goes past the head. */
  lemma OneByte(m: Modes, y: State)
    requires InStep(y)
    ensures !GoesPast(m, y, Output([ESC], []))
  {
    assert Chunk(y.out, [ESC]) == [ESC] && [ESC][1..] == [];
    assert !Interrupts(m, Plain(y), []) && AfterKeys(m, Plain(y), []) == Plain(y);
    assert !Clash(m, Shown(m, Plain(y), ESC), [], []);
  }

  lemma {:induction false} PlainLine(n: nat)
    ensures AllPlain(TypeLine(n)) == Typing(n)
    decreases n
  {
    if n == 0 {
      PlainTwo([], Press(10), Copy);
      assert AllPlain([]) == [];
      assert [] + [Press(10), Copy] == [Press(10), Copy] && [] + [Key(10), Cook] == [Key(10), Cook];
    } else {
      PlainLine(n - 1);
      PlainTwo(TypeLine(n - 1), Press(97), Copy);
    }
  }

  lemma PlainOne(ds: seq<Doing>, a: Doing)
    ensures AllPlain(ds + [a]) == AllPlain(ds) + PlainEvents(a)
  {
    assert (ds + [a])[..|ds|] == ds;
  }

  lemma PlainTwo(ds: seq<Doing>, a: Doing, b: Doing)
    ensures AllPlain(ds + [a, b]) == AllPlain(ds) + PlainEvents(a) + PlainEvents(b)
  {
    PlainOne(ds, a);
    PlainOne(ds + [a], b);
    assert ds + [a] + [b] == ds + [a, b];
  }

  lemma PlainRun(n: nat)
    requires AllPlain(TypeLine(n)) == Typing(n)
    ensures AllPlain(TypeLine(n) + [Output([ESC], []), Press(Z)] + [Copy]) == LosingRun(n)
    ensures Plain(FreshState()) == Fresh()
  {
    PlainTwo(TypeLine(n), Output([ESC], []), Press(Z));
    PlainOne(TypeLine(n) + [Output([ESC], []), Press(Z)], Copy);
    PlainEsc();
    assert Typing(n) + [Program([27])] + [Key(Z)] == Typing(n) + [Program([27]), Key(Z)];
  }

  lemma PlainEsc()
    ensures PlainEvents(Output([ESC], [])) == [Program([27])]
  {
    assert [ESC][..1] == [ESC] && [ESC][1..] == [];
    assert ByByte([], Later([])) == [];
    assert ByByte([ESC], []) == Strikes([]) + [Program([ESC])] + ByByte([], Later([]));
  }
}

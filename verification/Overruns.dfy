/**
  The queues of the console as kernel/tty_io.c and kernel/console.c use them: con_write takes the number of bytes
  to show once, at its beginning (console.c:418-420), and takes that many from write_q whatever happens meanwhile.
  copy_to_cooked, run again for an answer or for a key, calls con_write again; that call shows all of write_q, and
  the one it came in between goes on past the head, over bytes shown long ago.

  As long as no con_write goes past the head the queues are those of module Echoes.
 */
module Overruns {
  import opened Rings
  import opened LineDiscipline
  import opened Echoes

  const CELLS := 1024

  /** `sec` is the cooked queue, `out` write_q. `lost`: a byte has been put into the full cooked queue. `over`: a
      byte has been taken from the empty write_q. */
  datatype State = State(raw: seq<int>, sec: Queue, out: Queue, data: int, stopped: bool, interrupts: int,
                         echoed: seq<int>, con: Parser, lost: bool, over: bool)

  ghost predicate StateOk(x: State) { |x.raw| <= QUEUE && QueueOk(CELLS, x.sec) && QueueOk(CELLS, x.out) }

  function LineOf(x: State): Line { Line(x.sec.q, x.data, x.stopped, x.echoed, x.interrupts) }

  /** What module Echoes sees of it. */
  function Plain(x: State): World { World(x.raw, LineOf(x), x.con, x.lost) }

  /** write_q is empty between calls, as it should be. */
  ghost predicate InStep(x: State) { StateOk(x) && !x.over && x.out.q == [] }

  // ------------------------------------------------------------------ what ends the recursion

  /** How many raw bytes can put a `Z` into write_q: Z itself, and control-Z, which is echoed as ^Z. */
  function Sources(s: seq<int>): nat {
    if s == [] then 0 else (if s[0] == Z || s[0] == 26 then 1 else 0) + Sources(s[1..])
  }

  /** One more than the last place of a `Z`. */
  function LastZ(s: seq<int>): (n: nat)
    ensures n <= |s|
  {
    if s == [] then 0 else if s[|s| - 1] == Z then |s| else LastZ(s[..|s| - 1])
  }

  lemma {:induction false} LastZPlace(s: seq<int>)
    ensures var n := LastZ(s); (n > 0 ==> s[n - 1] == Z) && forall i :: n <= i < |s| ==> s[i] != Z
    decreases |s|
  {
    if s != [] && s[|s| - 1] != Z { LastZPlace(s[..|s| - 1]); }
  }

  /** Before an overrun an answer uses up a `Z` waiting in write_q; after it every byte put there moves the old
      ones, which are shown again and again, closer to being overwritten. */
  function Fuel(x: State): nat { if x.over then LastZ(Cells(x.out)) else 2000 + Zs(x.out.q) }

  predicate Less(y: State, x: State) {
    Sources(y.raw) < Sources(x.raw) || (Sources(y.raw) == Sources(x.raw) && Fuel(y) < Fuel(x))
  }

  predicate Level(y: State, x: State) { Sources(y.raw) == Sources(x.raw) && Fuel(y) == Fuel(x) }

  predicate AtMost(y: State, x: State) { Less(y, x) || Level(y, x) }

  predicate Shorter(y: State, x: State) { Less(y, x) || (Level(y, x) && |y.raw| < |x.raw|) }

  /** After an overrun the queues are followed further only if every echo puts something into write_q. */
  predicate Followed(m: Modes, x: State) { !x.over || m.echoctl }

  function Rank(m: Modes, x: State): nat { if x.over && m.echoctl && LastZ(Cells(x.out)) > 0 then 2 else 0 }

  lemma {:induction false} SourcesConcat(a: seq<int>, b: seq<int>)
    ensures Sources(a + b) == Sources(a) + Sources(b)
    decreases |a|
  {
    if a == [] {
      assert a + b == b;
    } else {
      assert (a + b)[1..] == a[1..] + b;
      SourcesConcat(a[1..], b);
    }
  }

  lemma {:induction false} NoSources(s: seq<int>)
    requires forall i :: 0 <= i < |s| ==> s[i] != Z && s[i] != 26
    ensures Sources(s) == 0
    decreases |s|
  {
    if s != [] { NoSources(s[1..]); }
  }

  lemma ResponseSources(raw: seq<int>)
    ensures Sources(raw + Response()) == Sources(raw)
    ensures forall k :: 0 <= k <= 7 ==> Sources(Response()[k..]) == 0
  {
    NoSources(Response());
    SourcesConcat(raw, Response());
    forall k | 0 <= k <= 7 ensures Sources(Response()[k..]) == 0 { NoSources(Response()[k..]); }
  }

  lemma SourcesAnswered(raw: seq<int>)
    requires |raw| <= QUEUE
    ensures Sources(Responded(raw)) <= Sources(raw)
  {
    ResponseSources(raw);
  }

  lemma LastZIs(s: seq<int>, n: nat)
    requires n <= |s| && (n > 0 ==> s[n - 1] == Z) && forall i :: n <= i < |s| ==> s[i] != Z
    ensures LastZ(s) == n
  {
    LastZPlace(s);
  }

  lemma LastZShifted(s: seq<int>, c: int)
    requires s != [] && c != Z
    ensures LastZ(s[1..] + [c]) == if LastZ(s) > 0 then LastZ(s) - 1 else 0
  {
    var k, t := LastZ(s), s[1..] + [c];
    LastZPlace(s);
    forall i | (if k > 0 then k - 1 else 0) <= i < |t| ensures t[i] != Z { if i < |s| - 1 { assert t[i] == s[i + 1]; } }
    LastZIs(t, if k > 0 then k - 1 else 0);
  }

  lemma {:induction false} ZsAppend(s: seq<int>, c: int)
    ensures Zs(s + [c]) == Zs(s) + (if c == Z then 1 else 0)
  {
    ZsConcat(s, [c]);
    assert [c][1..] == [];
  }

  // ------------------------------------------------------------------ the three queues

  /** PUTCH(c, tty->secondary) */
  function PutSec(x: State, c: int): State
    requires StateOk(x)
  {
    x.(sec := Pushed(x.sec, c), lost := x.lost || |x.sec.stale| == 1)
  }

  function PushedAll(out: Queue, s: seq<int>): (r: Queue)
    requires |out.stale| >= 1
    ensures |r.q| + |r.stale| == |out.q| + |out.stale| && |r.stale| >= 1
    decreases |s|
  {
    if s == [] then out else PushedAll(Pushed(out, s[0]), s[1..])
  }

  /** The PUTCHs of an echo. */
  function Emitted(x: State, s: seq<int>): State
    requires StateOk(x)
  {
    x.(out := PushedAll(x.out, s), echoed := x.echoed + s)
  }

  lemma {:induction false} PushedAllLastZ(out: Queue, s: seq<int>)
    requires |out.stale| >= 1 && forall i :: 0 <= i < |s| ==> s[i] != Z
    ensures LastZ(Cells(PushedAll(out, s))) <= LastZ(Cells(out))
    ensures s != [] && LastZ(Cells(out)) > 0 ==> LastZ(Cells(PushedAll(out, s))) < LastZ(Cells(out))
    decreases |s|
  {
    if s != [] {
      LastZShifted(Cells(out), s[0]);
      PushedAllLastZ(Pushed(out, s[0]), s[1..]);
    }
  }

  lemma {:induction false} PushedAllZs(out: Queue, s: seq<int>)
    requires |out.stale| >= 1 && forall i :: 0 <= i < |s| ==> s[i] != Z
    ensures Zs(PushedAll(out, s).q) <= Zs(out.q)
    decreases |s|
  {
    if s != [] {
      ZsAppend(out.q, s[0]);
      PushedAllZs(Pushed(out, s[0]), s[1..]);
    }
  }

  lemma EmittedFuel(x: State, s: seq<int>)
    requires StateOk(x) && forall i :: 0 <= i < |s| ==> s[i] != Z
    ensures Fuel(Emitted(x, s)) <= Fuel(x)
    ensures x.over && s != [] && LastZ(Cells(x.out)) > 0 ==> Fuel(Emitted(x, s)) < Fuel(x)
  {
    if x.over { PushedAllLastZ(x.out, s); } else { PushedAllZs(x.out, s); }
  }

  /** The byte of con_write that comes next, and what taking it does. */
  function Taken(x: State): State
    requires StateOk(x)
  {
    x.(out := Pulled(x.out), con := Next(x.con, Oldest(x.out)), over := x.over || x.out.q == [])
  }

  lemma TakenFuel(m: Modes, x: State)
    requires StateOk(x)
    ensures StateOk(Taken(x)) && Fuel(Taken(x)) <= Fuel(x)
    ensures !x.over && Oldest(x.out) == Z ==> Fuel(Taken(x)) < Fuel(x)
    ensures Oldest(x.out) == Z ==> LastZ(Cells(x.out)) > 0
    ensures Fuel(Taken(x)) == Fuel(x) ==> Taken(x).over == x.over && Rank(m, Taken(x)) == Rank(m, x)
  {
    if Oldest(x.out) == Z { ZInCells(x.out); }
  }

  lemma ZInCells(x: Queue)
    requires |x.stale| >= 1 && Oldest(x) == Z
    ensures LastZ(Cells(x)) > 0
  {
    LastZPlace(Cells(x));
    if x.q != [] { assert Cells(x)[|x.stale|] == Z; } else { assert Cells(x)[0] == Z; }
  }

  // ------------------------------------------------------------------ con_write and copy_to_cooked

  /** One byte of con_write; an answer to it is cooked at once. */
  ghost function ConTake(m: Modes, x: State): (r: State)
    requires StateOk(x)
    ensures StateOk(r) && AtMost(r, x) && (x.over ==> r.over) && (x.lost ==> r.lost)
    ensures Level(r, x) ==> Rank(m, r) == Rank(m, x) && (Rank(m, x) == 0 ==> r.raw == x.raw)
    decreases Sources(x.raw), Fuel(x), Rank(m, x), 0, 0
  {
    TakenFuel(m, x);
    SourcesAnswered(x.raw);
    var y := Taken(x);
    if Asks(x.con, Oldest(x.out)) && Followed(m, y) then Cooking(m, y.(raw := Responded(y.raw))) else y
  }

  ghost function ConLoop(m: Modes, x: State, n: nat): (r: State)
    requires StateOk(x)
    ensures StateOk(r) && AtMost(r, x) && (x.over ==> r.over) && (x.lost ==> r.lost)
    ensures Level(r, x) ==> Rank(m, r) == Rank(m, x) && (Rank(m, x) == 0 ==> r.raw == x.raw)
    decreases Sources(x.raw), Fuel(x), Rank(m, x), n, 1
  {
    if n == 0 then x else ConLoop(m, ConTake(m, x), n - 1)
  }

  /** Shown so far, con_write has come from x to y. */
  ghost predicate Between(m: Modes, x: State, y: State) {
    StateOk(y) && AtMost(y, x) && (Level(y, x) ==> Rank(m, y) == Rank(m, x))
  }

  lemma ConStep(m: Modes, x: State, y: State, n: nat)
    requires StateOk(x) && Between(m, x, y) && n > 0
    ensures Between(m, x, ConTake(m, y)) && ConLoop(m, y, n) == ConLoop(m, ConTake(m, y), n - 1)
  {
  }

  /** The echo s of a byte, shown. */
  ghost function Echoed(m: Modes, x: State, s: seq<int>): (r: State)
    requires StateOk(x)
    ensures StateOk(r) && AtMost(r, Emitted(x, s)) && (x.over ==> r.over) && (x.lost ==> r.lost)
    ensures Level(r, Emitted(x, s)) && Rank(m, Emitted(x, s)) == 0 ==> r.raw == x.raw
    decreases Sources(x.raw), Fuel(Emitted(x, s)), Rank(m, Emitted(x, s)), |Emitted(x, s).out.q|, 2
  {
    ConLoop(m, Emitted(x, s), |Emitted(x, s).out.q|)
  }

  function CountedIn(m: Modes, x: State, c: int): State { x.(data := x.data + (if IsEnd(m, c) then 1 else 0)) }

  /** What is echoed of the erase of the last byte. */
  function LastErased(m: Modes, x: State): seq<int>
    requires x.sec.q != []
  {
    EchoOfErase(m, x.sec.q[|x.sec.q| - 1])
  }

  function Erasable(m: Modes, q: seq<int>): bool { q != [] && !IsEnd(m, q[|q| - 1]) }

  /** The first raw byte is taken and s echoed for it. */
  ghost function EchoedFor(m: Modes, x: State, s: seq<int>): (r: State)
    requires StateOk(x) && x.raw != [] && MayEcho(m, x.raw[0], s)
    ensures StateOk(r) && Shorter(r, x) && (x.over ==> r.over) && (x.lost ==> r.lost)
    decreases Sources(x.raw), Fuel(x), 1, |x.raw|, 0
  {
    EchoShortens(m, x, s);
    if m.echo then Echoed(m, x.(raw := x.raw[1..]), s) else x.(raw := x.raw[1..])
  }

  /** One turn of copy_to_cooked's loop. */
  ghost function TurnOf(m: Modes, x: State): (r: State)
    requires StateOk(x) && x.raw != []
    ensures StateOk(r) && Shorter(r, x) && (x.over ==> r.over) && (x.lost ==> r.lost)
    decreases Sources(x.raw), Fuel(x), 1, |x.raw|, 1
  {
    var c0, y := x.raw[0], x.(raw := x.raw[1..]);
    var c := Mapped(m, c0);
    if Dropped(m, c0) then y
    else if IsErase(m, c) then
      if !Erasable(m, x.sec.q) then y
      else
        var z := EchoedFor(m, x, LastErased(m, x));
        z.(sec := Unpushed(z.sec))
    else if IsFlow(m, c) then y.(stopped := c == m.stop)
    else if IsInterrupt(m, c) then y.(interrupts := y.interrupts + 1)
    else
      EchoMay(m, c0);
      PutSec(EchoedFor(m, CountedIn(m, x, c), EchoOf(m, c)), c)
  }

  /** copy_to_cooked (tty_io.c:129-193). */
  ghost function Cooking(m: Modes, x: State): (r: State)
    requires StateOk(x)
    ensures StateOk(r) && AtMost(r, x) && (x.over ==> r.over) && (x.lost ==> r.lost)
    ensures Level(r, x) ==> |r.raw| <= |x.raw|
    decreases Sources(x.raw), Fuel(x), 1, |x.raw|, 2
  {
    if x.raw == [] || |x.sec.stale| == 1 then x else Cooking(m, TurnOf(m, x))
  }

  /** An echo of c0 holds a `Z` only if c0 is one or is echoed as ^Z, and holds something if ECHOCTL is on. */
  predicate MayEcho(m: Modes, c0: int, s: seq<int>) {
    && (c0 == Z || c0 == 26 || forall i :: 0 <= i < |s| ==> s[i] != Z)
    && (m.echo && m.echoctl ==> s != [])
  }

  lemma EchoMay(m: Modes, c0: int)
    ensures MayEcho(m, c0, EchoOf(m, Mapped(m, c0)))
  {
  }

  /** An echo is shown with less to come than there was before its byte was taken. */
  lemma EchoShortens(m: Modes, x: State, s: seq<int>)
    requires StateOk(x) && x.raw != [] && MayEcho(m, x.raw[0], s)
    ensures var e := Emitted(x.(raw := x.raw[1..]), s);
            m.echo ==> Less(e, x) || (Level(e, x) && Rank(m, e) == 0)
  {
    if x.raw[0] != Z && x.raw[0] != 26 { EmittedFuel(x.(raw := x.raw[1..]), s); }
  }
}

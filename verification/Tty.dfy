/**
  The console's queues in kernel/tty_io.c and the part of kernel/console.c that answers: copy_to_cooked moves bytes
  from the raw ring to the cooked ring and echoes them through write_q, con_write takes them from there, tty_read
  and tty_write are the programs' ends. No PUTCH checks for room, and con_write's GETCH not for bytes.
 */
module Ttys {
  import opened Rings
  import opened LineDiscipline
  import opened Echoes
  import opened Overruns
  import opened ConsoleRuns

  const TTY_BUF_SIZE := 1024

  class Tty {
    const m: Modes
    const raw: array<int>
    const buf: array<int>
    const out: array<int>
    var rawHead: int
    var rawTail: int
    // the secondary queue
    var head: int
    var tail: int
    var data: int
    // write_q
    var outHead: int
    var outTail: int
    var stopped: bool
    var interrupts: int
    // the console's parser
    var con: Parser
    // whether a byte has ever been taken from the empty write_q
    var over: bool
    // whether a byte has ever been put into the full cooked ring, and what has been echoed
    ghost var lost: bool
    ghost var echoed: seq<int>

    ghost predicate Shape()
      reads this
    {
      && raw.Length == TTY_BUF_SIZE && buf.Length == TTY_BUF_SIZE && out.Length == TTY_BUF_SIZE
      && raw != buf && raw != out && buf != out
      && InRange(TTY_BUF_SIZE, rawHead, rawTail) && InRange(TTY_BUF_SIZE, head, tail)
      && InRange(TTY_BUF_SIZE, outHead, outTail)
    }

    ghost function X(): (x: State)
      requires Shape()
      reads this, raw, buf, out
      ensures StateOk(x)
    {
      State(Contents(raw[..], rawHead, rawTail), RingOf(buf[..], head, tail), RingOf(out[..], outHead, outTail),
            data, stopped, interrupts, echoed, con, lost, over)
    }

    constructor (modes: Modes)
      ensures Shape() && fresh(raw) && fresh(buf) && fresh(out) && m == modes && InStep(X())
      ensures Plain(X()) == Fresh()
    {
      m := modes;
      raw, buf := new int[TTY_BUF_SIZE](_ => 0), new int[TTY_BUF_SIZE](_ => 0);
      out := new int[TTY_BUF_SIZE](_ => 0);
      rawHead, rawTail, head, tail, data, outHead, outTail := 0, 0, 0, 0, 0, 0, 0;
      stopped, interrupts, con, over, lost, echoed := false, 0, Parser(0, 0), false, false, [];
    }

    // ---------------------------------------------------------------- the rings

    /** A byte from the keyboard; a full raw ring drops it. */
    method Receive(c: int)
      requires Shape()
      modifies raw, this`rawHead
      ensures Shape() && X() == Pressed(old(X()), c)
    {
      if Used(TTY_BUF_SIZE, rawHead, rawTail) == TTY_BUF_SIZE - 1 { return; }
      ghost var x := X();
      PutRaw(c);
      assert X() == x.(raw := x.raw + [c]);
    }

    /** PUTCH(c, tty->read_q) */
    method PutRaw(c: int)
      requires Shape()
      modifies raw, this`rawHead
      ensures Shape()
      ensures X() == old(X()).(raw := if |old(X()).raw| < QUEUE then old(X()).raw + [c] else [])
    {
      if Full(TTY_BUF_SIZE, rawHead, rawTail) {
        PutIntoFull(raw[..], rawHead, rawTail, c);
      } else {
        PutContents(raw[..], rawHead, rawTail, c);
      }
      ghost var was := raw[..];
      raw[rawHead] := c;
      assert raw[..] == was[rawHead := c];
      rawHead := Inc(rawHead, TTY_BUF_SIZE);
    }

    /** GETCH(tty->read_q, c) */
    method GetRaw() returns (c: int)
      requires Shape() && rawHead != rawTail
      modifies this`rawTail
      ensures Shape() && old(X()).raw == [c] + X().raw && X() == old(X()).(raw := old(X()).raw[1..])
    {
      GetContents(raw[..], rawHead, rawTail);
      c := raw[rawTail];
      rawTail := Inc(rawTail, TTY_BUF_SIZE);
    }

    /** PUTCH(c, tty->secondary) */
    method PutCooked(c: int)
      requires Shape()
      modifies buf, this`head, this`lost
      ensures Shape() && X() == PutSec(old(X()), c)
    {
      PushedRing(buf[..], head, tail, c);
      if Full(TTY_BUF_SIZE, head, tail) { lost := true; }
      ghost var was := buf[..];
      buf[head] := c;
      assert buf[..] == was[head := c];
      head := Inc(head, TTY_BUF_SIZE);
    }

    /** PUTCH(c, tty->write_q) */
    method PutOut(c: int)
      requires Shape()
      modifies out, this`outHead
      ensures Shape() && X() == old(X()).(out := Pushed(old(X()).out, c))
    {
      PushedRing(out[..], outHead, outTail, c);
      ghost var was := out[..];
      out[outHead] := c;
      assert out[..] == was[outHead := c];
      outHead := Inc(outHead, TTY_BUF_SIZE);
    }

    // ---------------------------------------------------------------- the console

    /** respond (console.c:286-297) up to its call of copy_to_cooked: seven PUTCHs into the raw ring. */
    method PutResponse()
      requires Shape()
      modifies raw, this`rawHead
      ensures Shape() && X() == old(X()).(raw := Responded(old(X()).raw))
      ensures |old(X()).raw| + 7 <= QUEUE ==> X().raw == old(X()).raw + [27, 91, 63, 49, 59, 50, 99]
    {
      var p := Response();
      ghost var was := X();
      PartEnds(was.raw);
      for i := 0 to 7
        invariant Shape() && X() == was.(raw := RespondedPart(was.raw, i))
      {
        PartNext(was.raw, i);
        PutRaw(p[i]);
      }
    }

    /** GETCH(tty->write_q, c), and the parser. */
    method GetOut() returns (asks: bool)
      requires Shape()
      modifies this`outTail, this`con, this`over
      ensures Shape() && X() == Taken(old(X())) && asks == Asks(old(con), Oldest(old(X()).out))
    {
      PulledRing(out[..], outHead, outTail);
      var c := out[outTail];
      if outHead == outTail { over := true; }
      outTail := Inc(outTail, TTY_BUF_SIZE);
      asks := Asks(con, c);
      con := Next(con, c);
    }

    /** One turn of con_write's loop, as far as its answers go. */
    method ShowByte()
      requires Shape()
      modifies raw, buf, out, this
      ensures Shape() && X() == ConTake(m, old(X()))
      decreases Sources(X().raw), Fuel(X()), Rank(m, X()), 0, 0
    {
      ghost var x := X();
      TakenFuel(m, x);
      SourcesAnswered(x.raw);
      var asks := GetOut();
      if asks && (!over || m.echoctl) {
        PutResponse();
        CopyToCooked();
      }
    }

    /** con_write (console.c:412-572): it shows as many bytes as write_q held when it began. */
    method ConWrite()
      requires Shape()
      modifies raw, buf, out, this
      ensures Shape() && X() == ConLoop(m, old(X()), |old(X()).out.q|)
      decreases Sources(X().raw), Fuel(X()), Rank(m, X()), |X().out.q|, 1
    {
      ghost var x := X();
      var nr := Used(TTY_BUF_SIZE, outHead, outTail);
      ghost var trace := [x];
      while nr > 0
        invariant Shape() && 0 <= nr && nr + |trace| == |x.out.q| + 1 && trace[0] == x
        invariant TakeTrace(m, trace) && X() == trace[|trace| - 1] && Between(m, x, X())
        decreases nr
      {
        trace := ConNext(x, trace);
        nr := nr - 1;
      }
      TraceLoops(m, trace, 0);
    }

    /** One turn of its loop. */
    method ConNext(ghost x: State, ghost trace: seq<State>) returns (ghost trace': seq<State>)
      requires Shape() && StateOk(x) && |trace| <= |x.out.q| && TakeTrace(m, trace)
      requires X() == trace[|trace| - 1] && Between(m, x, X())
      modifies raw, buf, out, this
      ensures Shape() && |trace'| == |trace| + 1 && trace'[0] == trace[0] && TakeTrace(m, trace')
      ensures X() == trace'[|trace|] && Between(m, x, X())
      decreases Sources(x.raw), Fuel(x), Rank(m, x), |x.out.q|, 0
    {
      ConStep(m, x, X(), 1);
      TraceNext(m, trace);
      ShowByte();
      trace' := trace + [X()];
    }

    // ---------------------------------------------------------------- copy_to_cooked

    /** The PUTCHs of the echo of an ordinary byte (tty_io.c:177-187). */
    method PutEcho(c: int)
      requires Shape() && m.echo
      modifies out, this`outHead, this`echoed
      ensures Shape() && X() == Emitted(old(X()), EchoOf(m, c))
    {
      EmittedFew(X(), c, c);
      if c == 10 {
        PutTwo(10, 13);
      } else if c < 32 {
        if m.echoctl { PutTwo(94, c + 64); }
      } else {
        PutOut(c);
      }
      echoed := echoed + EchoOf(m, c);
    }

    method PutTwo(a: int, b: int)
      requires Shape()
      modifies out, this`outHead
      ensures Shape() && X() == old(X()).(out := PushedAll(old(X()).out, [a, b]))
    {
      EmittedFew(X(), a, b);
      PutOut(a);
      PutOut(b);
    }

    /** Those of the erase character (tty_io.c:151-154). */
    method PutErase(c: int)
      requires Shape() && m.echo
      modifies out, this`outHead, this`echoed
      ensures Shape() && X() == Emitted(old(X()), EchoOfErase(m, c))
    {
      EmittedFew(X(), 127, 127);
      if c < 32 { PutOut(127); }
      PutOut(127);
      echoed := echoed + EchoOfErase(m, c);
    }

    /** The erase character (tty_io.c:146-159). The head goes back after the echo has been shown. */
    method Erase(ghost x: State)
      requires Shape() && x.raw != [] && X() == x.(raw := x.raw[1..]) && StateOk(x)
      requires !Dropped(m, x.raw[0]) && IsErase(m, Mapped(m, x.raw[0]))
      modifies raw, buf, out, this
      ensures Shape() && X() == TurnOf(m, x)
      decreases Sources(x.raw), Fuel(x), 1, |x.raw|, 0, 1
    {
      if head == tail { return; }
      UnpushedRing(buf[..], head, tail);
      var c := buf[Dec(head, TTY_BUF_SIZE)];
      if c == 10 || c == m.eof { return; }
      EchoErase(x, c);
      UnpushedRing(buf[..], head, tail);
      head := Dec(head, TTY_BUF_SIZE);
    }

    method EchoErase(ghost x: State, c: int)
      requires Shape() && StateOk(x) && x.raw != [] && X() == x.(raw := x.raw[1..])
      requires x.sec.q != [] && c == x.sec.q[|x.sec.q| - 1]
      modifies raw, buf, out, this
      ensures Shape() && X() == EchoedFor(m, x, LastErased(m, x))
      decreases Sources(x.raw), Fuel(x), 1, |x.raw|, 0, 0
    {
      if m.echo {
        EchoShortens(m, x, LastErased(m, x));
        PutErase(c);
        ConWrite();
      }
    }

    /** The end of the loop body for an ordinary byte (tty_io.c:175-190). */
    method QueueByte(ghost x: State, c: int)
      requires Shape() && x.raw != [] && X() == x.(raw := x.raw[1..]) && StateOk(x)
      requires Queues(m, x.raw[0]) && c == Mapped(m, x.raw[0])
      modifies raw, buf, out, this
      ensures Shape() && X() == TurnOf(m, x)
      decreases Sources(x.raw), Fuel(x), 1, |x.raw|, 0, 1
    {
      ghost var y := CountedIn(m, x, c);
      TurnEchoes(m, x);
      if c == 10 || c == m.eof { data := data + 1; }
      assert X() == y.(raw := x.raw[1..]);
      EchoByte(y, c);
      PutCooked(c);
    }

    method EchoByte(ghost y: State, c: int)
      requires Shape() && StateOk(y) && y.raw != [] && X() == y.(raw := y.raw[1..])
      requires MayEcho(m, y.raw[0], EchoOf(m, c))
      modifies raw, buf, out, this
      ensures Shape() && X() == EchoedFor(m, y, EchoOf(m, c))
      decreases Sources(y.raw), Fuel(y), 1, |y.raw|, 0, 0
    {
      if m.echo {
        EchoShortens(m, y, EchoOf(m, c));
        PutEcho(c);
        ConWrite();
      }
    }

    /** One turn of copy_to_cooked's loop (tty_io.c:134-190). */
    method TakeTurn()
      requires Shape() && rawHead != rawTail
      modifies raw, buf, out, this
      ensures Shape() && X() == TurnOf(m, old(X()))
      decreases Sources(X().raw), Fuel(X()), 1, |X().raw|, 1
    {
      ghost var x := X();
      var c0 := GetRaw();
      assert x.raw[0] == c0;
      var drop, c := MapByte(c0);
      if drop { return; }
      if m.canon && c == m.erase { Erase(x); return; }
      if m.canon && c == m.stop { stopped := true; return; }
      if m.canon && c == m.start { stopped := false; return; }
      if !m.isig && c == m.intr { interrupts := interrupts + 1; return; }
      QueueByte(x, c);
    }

    /** Input mapping (tty_io.c:135-144). */
    method MapByte(c0: int) returns (drop: bool, c: int)
      ensures drop == Dropped(m, c0) && (!drop ==> c == Mapped(m, c0))
    {
      drop, c := false, c0;
      if c == 13 {
        if m.icrnl { c := 10; } else if m.igncr { return true, c; }
      } else if c == 10 && m.inlcr { c := 13; }
      if m.iuclc { c := ToLower(c); }
    }

    /** copy_to_cooked (tty_io.c:129-193). */
    method CopyToCooked()
      requires Shape()
      modifies raw, buf, out, this
      ensures Shape() && X() == Cooking(m, old(X()))
      decreases Sources(X().raw), Fuel(X()), 1, |X().raw|, 2
    {
      ghost var x := X();
      while rawHead != rawTail && !Full(TTY_BUF_SIZE, head, tail)
        invariant Shape() && Cooking(m, X()) == Cooking(m, x)
        invariant Shorter(X(), x) || (Level(X(), x) && |X().raw| == |x.raw|)
        decreases Sources(X().raw), Fuel(X()), |X().raw|
      {
        TakeTurn();
      }
    }

    // ---------------------------------------------------------------- tty_read

    /** The do-while loop of tty_read (tty_io.c:226-237), entered when the queue is not empty. */
    method TakeCooked(nr: nat) returns (r: seq<int>, eof: bool)
      requires Shape() && nr > 0 && head != tail
      modifies this`tail, this`data
      ensures Shape() && Took(m, old(X()).sec.q, nr, r, eof, X().sec.q)
      ensures X() == TakeFrom(m, old(X()), nr)
    {
      ghost var x := X();
      r, eof := TakeLoop(nr);
      TookIsRead(m, LineOf(x), nr, r, eof, X().sec.q);
      ghost var k := |x.sec.q| - |X().sec.q|;
      assert x.sec.q[..k] == r + (if eof then [m.eof] else []);
    }

    method TakeLoop(nr: nat) returns (r: seq<int>, eof: bool)
      requires Shape() && nr > 0 && head != tail
      modifies this`tail, this`data
      ensures Shape() && Took(m, old(X()).sec.q, nr, r, eof, X().sec.q)
      ensures ReadSoFar(m, old(X()), X(), r + (if eof then [m.eof] else []))
    {
      ghost var x := X();
      r, eof := [], false;
      var left := nr;
      assert [] + x.sec.q == x.sec.q && x.sec.stale + [] == x.sec.stale;
      while left > 0 && head != tail
        invariant Shape() && 0 <= left && |r| + left == nr && Reading(m, x.sec.q, nr, r, X().sec.q)
        invariant ReadSoFar(m, x, X(), r)
      {
        ghost var y := X();
        var c := GetCooked();
        ReadOn(m, x, y, X(), r, c);
        if c == m.eof && m.canon {
          ReadingEof(m, x.sec.q, nr, r, c, X().sec.q);
          return r, true;
        }
        ReadingOn(m, x.sec.q, nr, r, c, X().sec.q);
        r := r + [c];
        left := left - 1;
      }
      ReadingDone(m, x.sec.q, nr, r, X().sec.q);
      assert r + [] == r;
    }

    /** GETCH from the cooked ring, with the count of line ends. */
    method GetCooked() returns (c: int)
      requires Shape() && head != tail
      modifies this`tail, this`data
      ensures Shape() && old(X()).sec.q == [c] + X().sec.q
      ensures X() == old(X()).(sec := Queue(X().sec.q, old(X()).sec.stale + [c]),
                               data := old(data) - (if IsEnd(m, c) then 1 else 0))
    {
      PulledRing(buf[..], head, tail);
      c := buf[tail];
      tail := Inc(tail, TTY_BUF_SIZE);
      if c == m.eof || c == 10 { data := data - 1; }
    }

    // ---------------------------------------------------------------- tty_write

    /** Keys are pressed, and cooked at the interrupt. */
    method Strike(k: seq<int>)
      requires Shape()
      modifies raw, buf, out, this
      ensures Shape() && X() == Struck(m, old(X()), k)
    {
      ghost var x := X();
      var i := 0;
      while i < |k|
        invariant Shape() && 0 <= i <= |k| && Struck(m, X(), k[i..]) == Struck(m, x, k)
      {
        assert k[i..][0] == k[i] && k[i..][1..] == k[i + 1..];
        Receive(k[i]);
        CopyToCooked();
        i := i + 1;
      }
      assert k[i..] == [];
    }

    /** con_write for a program; keys may be pressed in between. */
    method ShowOutput(ks: seq<seq<int>>)
      requires Shape()
      modifies raw, buf, out, this
      ensures Shape() && X() == ShowLoop(m, old(X()), |old(X()).out.q|, ks)
    {
      ghost var x := X();
      var n, i := Used(TTY_BUF_SIZE, outHead, outTail), 0;
      ghost var trace := [x];
      while i < n
        invariant Shape() && 0 <= i <= n == |x.out.q| && |trace| == i + 1 && trace[0] == x
        invariant ShowTrace(m, trace, ks) && X() == trace[i]
      {
        trace := ShowNext(trace, ks, i);
        i := i + 1;
      }
      TraceShows(m, trace, ks, 0);
    }

    /** One turn of its loop, with the keys pressed before it. */
    method ShowNext(ghost trace: seq<State>, ks: seq<seq<int>>, i: nat) returns (ghost trace': seq<State>)
      requires Shape() && |trace| == i + 1 && ShowTrace(m, trace, ks) && X() == trace[i]
      modifies raw, buf, out, this
      ensures Shape() && |trace'| == i + 2 && trace'[0] == trace[0] && ShowTrace(m, trace', ks) && X() == trace'[i + 1]
    {
      ghost var x := X();
      StrikeAndShow(KeysAt(ks, i));
      ShowTraceNext(m, trace, ks, x, X());
      trace' := trace + [X()];
    }

    method StrikeAndShow(k: seq<int>)
      requires Shape()
      modifies raw, buf, out, this
      ensures Shape() && X() == ConTake(m, Struck(m, old(X()), k))
    {
      Strike(k);
      ShowByte();
    }

    /** One round of tty_write's loop (tty_io.c:264-291), after the mapping of output. */
    method Write(s: seq<int>, ks: seq<seq<int>>)
      requires Shape()
      modifies raw, buf, out, this
      ensures Shape() && X() == Done(m, old(X()), Output(s, ks))
    {
      if s == [] || Full(TTY_BUF_SIZE, outHead, outTail) { return; }
      ghost var x := X();
      var i := 0;
      while i < |s| && !Full(TTY_BUF_SIZE, outHead, outTail)
        invariant Shape() && 0 <= i <= |s| && i < |x.out.stale|
        invariant X() == x.(out := Queue(x.out.q + s[..i], x.out.stale[i..]))
      {
        PutOut(s[i]);
        assert s[..i + 1] == s[..i] + [s[i]];
        i := i + 1;
      }
      assert s[..i] == Chunk(x.out, s);
      PushedInto(x.out, s[..i]);
      ShowOutput(ks);
      DoneOutput(m, x, s, ks);
    }

    // ---------------------------------------------------------------- runs

    /** Any run of keys, cooking, reading and program output with keys in between. write_q has been read past its
        head if and only if some output made it so. Until then `data` is the number of line ends in the cooked queue
        unless a byte has been put into the full one, and none has when every cooking had room. */
    method Run(ds: seq<Doing>)
      requires Shape() && InStep(X()) && Right(m, Plain(X()))
      modifies raw, buf, out, this
      ensures Shape() && X() == AllDone(m, old(X()), ds)
      ensures over <==> SomeGoesPast(m, old(X()), ds)
      ensures !over && !lost ==> data == Ends(m, X().sec.q)
      ensures !over && !old(lost) && AllSafe(m, Plain(old(X())), AllPlain(ds)) ==> !lost
    {
      ghost var x := X();
      var i := 0;
      while i < |ds|
        invariant Shape() && 0 <= i <= |ds| && X() == AllDone(m, x, ds[..i])
      {
        assert ds[..i + 1][..i] == ds[..i];
        Do(ds[i]);
        i := i + 1;
      }
      assert ds[..i] == ds;
      RunIff(m, x, ds);
      RunKept(m, x, ds);
    }

    method Do(d: Doing)
      requires Shape()
      modifies raw, buf, out, this
      ensures Shape() && X() == Done(m, old(X()), d)
    {
      match d {
        case Press(c) => Receive(c);
        case Copy => CopyToCooked();
        case Take(nr) =>
          if nr > 0 && head != tail {
            var r, eof := TakeCooked(nr);
          } else {
            assert X().sec.stale + [] == X().sec.stale;
          }
        case Output(s, ks) => Write(s, ks);
      }
    }
  }

  /** Each state is the one before after one byte of con_write. */
  ghost predicate TakeTrace(m: Modes, trace: seq<State>) {
    |trace| > 0 && StateOk(trace[0]) && forall k :: 0 < k < |trace| ==> TakeAt(m, trace, k)
  }

  ghost predicate TakeAt(m: Modes, trace: seq<State>, k: nat) {
    0 < k < |trace| && StateOk(trace[k - 1]) && trace[k] == ConTake(m, trace[k - 1])
  }

  lemma TraceNext(m: Modes, trace: seq<State>)
    requires TakeTrace(m, trace)
    ensures StateOk(trace[|trace| - 1]) && TakeTrace(m, trace + [ConTake(m, trace[|trace| - 1])])
  {
    var n := |trace|;
    if n > 1 { assert TakeAt(m, trace, n - 1); }
    var trace' := trace + [ConTake(m, trace[n - 1])];
    forall k | 0 < k < n + 1 ensures TakeAt(m, trace', k) { if k < n { assert TakeAt(m, trace, k); } }
  }

  lemma {:induction false} TraceLoops(m: Modes, trace: seq<State>, k: nat)
    requires TakeTrace(m, trace) && k < |trace|
    ensures StateOk(trace[k]) && ConLoop(m, trace[k], |trace| - 1 - k) == trace[|trace| - 1]
    decreases |trace| - k
  {
    if k > 0 { assert TakeAt(m, trace, k); }
    if k + 1 < |trace| {
      assert TakeAt(m, trace, k + 1);
      TraceLoops(m, trace, k + 1);
    }
  }

  /** The keys pressed before byte i is taken. */
  function KeysAt(ks: seq<seq<int>>, i: nat): seq<int> { if i < |ks| then ks[i] else [] }

  /** The same with keys pressed in between. */
  ghost predicate ShowTrace(m: Modes, trace: seq<State>, ks: seq<seq<int>>) {
    |trace| > 0 && StateOk(trace[0]) && forall k :: 0 < k < |trace| ==> ShowAt(m, trace, ks, k)
  }

  ghost predicate ShowAt(m: Modes, trace: seq<State>, ks: seq<seq<int>>, k: nat) {
    0 < k < |trace| && StateOk(trace[k - 1]) && trace[k] == ConTake(m, Struck(m, trace[k - 1], KeysAt(ks, k - 1)))
  }

  lemma ShowTraceNext(m: Modes, trace: seq<State>, ks: seq<seq<int>>, x: State, z: State)
    requires ShowTrace(m, trace, ks) && x == trace[|trace| - 1] && StateOk(x)
    requires z == ConTake(m, Struck(m, x, KeysAt(ks, |trace| - 1)))
    ensures ShowTrace(m, trace + [z], ks)
  {
    var n, trace' := |trace|, trace + [z];
    forall k | 0 < k < n + 1 ensures ShowAt(m, trace', ks, k) { if k < n { assert ShowAt(m, trace, ks, k); } }
  }

  function KeysFrom(ks: seq<seq<int>>, i: nat): seq<seq<int>> { if i <= |ks| then ks[i..] else [] }

  lemma {:induction false} TraceShows(m: Modes, trace: seq<State>, ks: seq<seq<int>>, k: nat)
    requires ShowTrace(m, trace, ks) && k < |trace|
    ensures StateOk(trace[k]) && ShowLoop(m, trace[k], |trace| - 1 - k, KeysFrom(ks, k)) == trace[|trace| - 1]
    ensures KeysFrom(ks, 0) == ks
    decreases |trace| - k
  {
    if k > 0 { assert ShowAt(m, trace, ks, k); }
    if k + 1 < |trace| {
      assert ShowAt(m, trace, ks, k + 1);
      TraceShows(m, trace, ks, k + 1);
      KeysNext(ks, k);
      ShowFirst(m, trace[k], |trace| - 1 - k, KeysFrom(ks, k));
    }
  }

  lemma KeysNext(ks: seq<seq<int>>, k: nat)
    ensures Now(KeysFrom(ks, k)) == KeysAt(ks, k) && Later(KeysFrom(ks, k)) == KeysFrom(ks, k + 1)
  {
  }

  lemma EmittedFew(x: State, a: int, b: int)
    requires StateOk(x)
    ensures PushedAll(x.out, []) == x.out && PushedAll(x.out, [a]) == Pushed(x.out, a)
    ensures PushedAll(x.out, [a, b]) == Pushed(Pushed(x.out, a), b)
  {
    assert [a][1..] == [] && [a, b][1..] == [b] && [b][1..] == [];
    assert PushedAll(Pushed(x.out, a), [b]) == Pushed(Pushed(x.out, a), b);
  }

  lemma TurnEchoes(m: Modes, x: State)
    requires StateOk(x) && x.raw != [] && Queues(m, x.raw[0])
    ensures var c := Mapped(m, x.raw[0]);
            && MayEcho(m, x.raw[0], EchoOf(m, c))
            && TurnOf(m, x) == PutSec(EchoedFor(m, CountedIn(m, x, c), EchoOf(m, c)), c)
  {
    EchoMay(m, x.raw[0]);
  }

  /** From x to y the bytes r have been taken out of the cooked ring. */
  predicate ReadSoFar(m: Modes, x: State, y: State, r: seq<int>) {
    y == x.(sec := Queue(y.sec.q, x.sec.stale + r), data := x.data - Ends(m, r))
  }

  lemma ReadOn(m: Modes, x: State, y: State, z: State, r: seq<int>, c: int)
    requires ReadSoFar(m, x, y, r)
    requires z == y.(sec := Queue(z.sec.q, y.sec.stale + [c]), data := y.data - (if IsEnd(m, c) then 1 else 0))
    ensures ReadSoFar(m, x, z, r + [c])
  {
    EndsAppend(m, r, c);
    assert x.sec.stale + r + [c] == x.sec.stale + (r + [c]);
  }

  lemma TookIsRead(m: Modes, l: Line, nr: nat, r: seq<int>, eof: bool, rest: seq<int>)
    requires Took(m, l.cooked, nr, r, eof, rest) && nr > 0 && l.cooked != []
    ensures ReadFrom(m, l, nr) == l.(cooked := rest, data := l.data - Ends(m, r + (if eof then [m.eof] else [])))
  {
    var k := |r| + (if eof then 1 else 0);
    assert l.cooked[..k] == r + (if eof then [m.eof] else []);
    assert l.cooked[k..] == rest;
  }
}

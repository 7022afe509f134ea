/**
  When the console's queues stay in step: con_write goes past the head of write_q exactly when, with bytes still to
  show, copy_to_cooked runs and echoes. Until then the queues are those of module Echoes.
 */
module InSteps {
  import opened Rings
  import opened LineDiscipline
  import opened Echoes
  import opened Overruns

  // ------------------------------------------------------------------ stretches without an answer

  lemma {:induction false} FedFirst(p: Parser, c: int, s: seq<int>)
    ensures Fed(p, [c] + s) == Fed(Next(p, c), s)
    decreases |s|
  {
    if s == [] {
      assert [c] + s == [c] && [c][..0] == [];
    } else {
      assert ([c] + s)[..|[c] + s| - 1] == [c] + s[..|s| - 1];
      FedFirst(p, c, s[..|s| - 1]);
    }
  }

  /** Showing the first n bytes of write_q, none of which is answered. */
  function Past(x: State, n: nat): State
    requires n <= |x.out.q|
  {
    x.(out := Queue(x.out.q[n..], x.out.stale + x.out.q[..n]), con := Fed(x.con, x.out.q[..n]))
  }

  /** None of the first n bytes makes the console answer. */
  ghost predicate Unasked(p: Parser, q: seq<int>, n: nat) {
    n <= |q| && forall i :: 0 <= i < n ==> !Asks(Fed(p, q[..i]), q[i])
  }

  lemma UnaskedRest(p: Parser, q: seq<int>, n: nat)
    requires Unasked(p, q, n) && n > 0
    ensures !Asks(p, q[0]) && Unasked(Next(p, q[0]), q[1..], n - 1)
  {
    assert q[..0] == [];
    forall i | 0 <= i < n - 1 ensures !Asks(Fed(Next(p, q[0]), q[1..][..i]), q[1..][i]) {
      assert q[..i + 1] == [q[0]] + q[1..][..i];
      FedFirst(p, q[0], q[1..][..i]);
    }
  }

  lemma PastOne(x: State, n: nat)
    requires StateOk(x) && 0 < n <= |x.out.q|
    ensures Past(Taken(x), n - 1) == Past(x, n)
  {
    var q := x.out.q;
    assert q[..n] == [q[0]] + q[1..][..n - 1];
    FedFirst(x.con, q[0], q[1..][..n - 1]);
    assert x.out.stale + [q[0]] + q[1..][..n - 1] == x.out.stale + q[..n];
  }

  lemma PastOk(x: State, n: nat)
    requires StateOk(x) && n <= |x.out.q|
    ensures StateOk(Past(x, n)) && (n == 0 ==> Past(x, n) == x)
  {
  }

  lemma TakenNext(x: State)
    requires StateOk(x) && x.out.q != []
    ensures StateOk(Taken(x)) && Taken(x).out.q == x.out.q[1..] && Taken(x).con == Next(x.con, x.out.q[0])
    ensures Taken(x).over == x.over
  {
  }

  lemma LoopOne(m: Modes, x: State, n: nat)
    requires StateOk(x)
    ensures ConLoop(m, x, n + 1) == ConLoop(m, ConTake(m, x), n)
    ensures x.out.q != [] && !Asks(x.con, x.out.q[0]) ==> ConTake(m, x) == Taken(x) && StateOk(Taken(x))
  {
  }

  lemma {:induction false} Glides(m: Modes, x: State, n: nat, k: nat)
    requires StateOk(x) && Unasked(x.con, x.out.q, n)
    ensures StateOk(Past(x, n)) && ConLoop(m, x, n + k) == ConLoop(m, Past(x, n), k)
    decreases n
  {
    PastOk(x, n);
    if n > 0 {
      GlideOne(m, x, n, n - 1 + k);
      Glides(m, Taken(x), n - 1, k);
    }
  }

  lemma GlideOne(m: Modes, x: State, n: nat, k: nat)
    requires StateOk(x) && Unasked(x.con, x.out.q, n) && n > 0
    ensures StateOk(Taken(x)) && Unasked(Taken(x).con, Taken(x).out.q, n - 1) && Past(Taken(x), n - 1) == Past(x, n)
    ensures ConLoop(m, x, k + 1) == ConLoop(m, Taken(x), k)
  {
    UnaskedRest(x.con, x.out.q, n);
    TakenNext(x);
    PastOne(x, n);
    LoopOne(m, x, k);
  }

  /** A con_write that is answered at most for its last byte. */
  lemma LastAsked(m: Modes, x: State, k: nat)
    requires StateOk(x) && !x.over && |x.out.q| == k + 1 && Unasked(x.con, x.out.q, k)
    ensures StateOk(Past(x, k + 1))
    ensures ConLoop(m, x, k + 1) ==
            if Asks(Fed(x.con, x.out.q[..k]), x.out.q[k]) then Cooking(m, Past(x, k + 1).(raw := Responded(x.raw)))
            else Past(x, k + 1)
  {
    PastOk(x, k + 1);
    Glides(m, x, k, 1);
    PastLast(x, k);
    LoopOne(m, Past(x, k), 0);
  }

  // ------------------------------------------------------------------ echo in step

  /** The echo s has been shown; write_q is empty again. */
  function Spoken(x: State, s: seq<int>): State
    requires InStep(x) && |s| <= 2
  {
    PushedTwo(x.out, s);
    Past(Emitted(x, s), |s|)
  }

  lemma PushedTwo(out: Queue, s: seq<int>)
    requires QueueOk(CELLS, out) && out.q == [] && |s| <= 2
    ensures PushedAll(out, s).q == s
  {
    if s != [] {
      var o := Pushed(out, s[0]);
      assert o.q == [s[0]];
      if |s| == 1 {
        assert s[1..] == [] && s == [s[0]];
      } else {
        assert s[1..] == [s[1]] && s[1..][1..] == [] && s == [s[0], s[1]];
        assert PushedAll(o, s[1..]) == PushedAll(Pushed(o, s[1]), []);
      }
    }
  }

  /** Only its last byte can be answered. */
  ghost predicate AsksLast(p: Parser, s: seq<int>) { |s| <= 2 && (|s| == 2 ==> !Asks(p, s[0])) }

  lemma SpokenIs(x: State, s: seq<int>)
    requires InStep(x) && |s| <= 2
    ensures InStep(Spoken(x, s)) && Spoken(x, s).con == Fed(x.con, s)
    ensures Spoken(x, s) == x.(out := Spoken(x, s).out, con := Fed(x.con, s), echoed := x.echoed + s)
  {
    PushedTwo(x.out, s);
    var e := Emitted(x, s);
    PastOk(e, |s|);
    assert e.out.q == s && s[..|s|] == s && s[|s|..] == [];
    assert Past(e, |s|).out.q == [] && Past(e, |s|).con == Fed(e.con, s);
  }

  lemma EchoedInStep(m: Modes, x: State, s: seq<int>)
    requires InStep(x) && AsksLast(x.con, s)
    ensures InStep(Spoken(x, s))
    ensures s == [] ==> Echoed(m, x, s) == Spoken(x, s)
    ensures s != [] ==> var k := |s| - 1;
              Echoed(m, x, s) ==
              if Asks(Fed(x.con, s[..k]), s[k]) then Cooking(m, Spoken(x, s).(raw := Responded(x.raw)))
              else Spoken(x, s)
  {
    SpokenIs(x, s);
    PushedTwo(x.out, s);
    if s == [] {
      PastOk(Emitted(x, s), 0);
    } else {
      assert s[..0] == [];
      LastAsked(m, Emitted(x, s), |s| - 1);
    }
  }

  /** The last byte of write_q. */
  lemma PastLast(e: State, k: nat)
    requires StateOk(e) && |e.out.q| == k + 1
    ensures var y := Past(e, k); StateOk(y) && Oldest(y.out) == e.out.q[k] && Taken(y) == Past(e, k + 1)
  {
    var q, y := e.out.q, Past(e, k);
    assert q[k..] == [q[k]] && q[k + 1..] == [];
    assert q[..k + 1] == q[..k] + [q[k]] && q[..k + 1][..k] == q[..k];
    assert e.out.stale + q[..k] + [q[k]] == e.out.stale + q[..k + 1];
  }

  lemma EchoAsksLast(m: Modes, p: Parser, c: int)
    ensures AsksLast(p, EchoOf(m, c)) && AsksLast(p, EchoOfErase(m, c))
    ensures EchoOf(m, c) == [] || |EchoOf(m, c)| == 1 || EchoOf(m, c)[0] == 10 || EchoOf(m, c)[0] == 94
  {
  }

  /** An ordinary byte is echoed as module Echoes says. */
  lemma EchoIsAnswered(m: Modes, p: Parser, c: int)
    requires m.echo
    ensures var s := EchoOf(m, c);
            s != [] ==> (Asks(Fed(p, s[..|s| - 1]), s[|s| - 1]) <==> Answers(m, p, c))
    ensures EchoOf(m, c) == [] ==> !Answers(m, p, c)
  {
    var s := EchoOf(m, c);
    if |s| == 1 { assert s[..0] == []; }
    if |s| == 2 { assert s[..1] == [s[0]] && [s[0]][..0] == []; }
  }

  lemma EraseUnanswered(m: Modes, p: Parser, c: int)
    ensures var s := EchoOfErase(m, c); s != [] ==> !Asks(Fed(p, s[..|s| - 1]), s[|s| - 1])
  {
  }

  // ------------------------------------------------------------------ copy_to_cooked in step

  /** In step copy_to_cooked is that of module Echoes, and leaves write_q empty. */
  lemma {:induction false} CookInStep(m: Modes, x: State)
    requires InStep(x)
    ensures InStep(Cooking(m, x)) && Plain(Cooking(m, x)) == CopyAll(m, Plain(x))
    decreases Sources(x.raw), Fuel(x), |x.raw|, 2
  {
    if x.raw != [] && |x.sec.stale| > 1 {
      TurnInStep(m, x);
      CookInStep(m, TurnOf(m, x));
    }
  }

  lemma {:induction false} TurnInStep(m: Modes, x: State)
    requires InStep(x) && x.raw != []
    ensures InStep(TurnOf(m, x)) && Plain(TurnOf(m, x)) == Turn(m, Plain(x))
    decreases Sources(x.raw), Fuel(x), |x.raw|, 1
  {
    var c0 := x.raw[0];
    var c := Mapped(m, c0);
    if !Dropped(m, c0) {
      if IsErase(m, c) {
        if Erasable(m, x.sec.q) { EraseInStep(m, x); }
      } else if !IsFlow(m, c) && !IsInterrupt(m, c) {
        QueueInStep(m, x);
      }
    }
  }

  lemma EraseInStep(m: Modes, x: State)
    requires InStep(x) && x.raw != [] && !Dropped(m, x.raw[0]) && IsErase(m, Mapped(m, x.raw[0]))
    requires Erasable(m, x.sec.q)
    ensures InStep(TurnOf(m, x)) && Plain(TurnOf(m, x)) == Turn(m, Plain(x))
  {
    var y, s := x.(raw := x.raw[1..]), LastErased(m, x);
    EchoAsksLast(m, y.con, x.sec.q[|x.sec.q| - 1]);
    EraseUnanswered(m, y.con, x.sec.q[|x.sec.q| - 1]);
    SpokenIs(y, s);
    EchoedInStep(m, y, s);
    assert Fed(y.con, []) == y.con;
  }

  /** The first raw byte taken and counted. */
  function Begun(m: Modes, x: State): State
    requires x.raw != []
  {
    CountedIn(m, x, Mapped(m, x.raw[0])).(raw := x.raw[1..])
  }

  lemma TurnQueues(m: Modes, x: State)
    requires StateOk(x) && x.raw != [] && Queues(m, x.raw[0])
    ensures var c, y := Mapped(m, x.raw[0]), Begun(m, x);
            StateOk(y) && TurnOf(m, x) == PutSec(if m.echo then Echoed(m, y, EchoOf(m, c)) else y, c)
  {
    EchoMay(m, x.raw[0]);
  }

  lemma PlainPut(x: State, c: int)
    requires StateOk(x)
    ensures StateOk(PutSec(x, c)) && Plain(PutSec(x, c)) == Echoes.Put(Plain(x), c)
  {
  }

  lemma PlainBegun(m: Modes, x: State)
    requires StateOk(x) && x.raw != []
    ensures StateOk(Begun(m, x)) && Plain(Begun(m, x)) == Counted(m, Plain(x.(raw := x.raw[1..])), Mapped(m, x.raw[0]))
  {
  }

  /** What the echo of an ordinary byte comes to. */
  lemma {:induction false} QueueInStep(m: Modes, x: State)
    requires InStep(x) && x.raw != [] && Queues(m, x.raw[0])
    ensures InStep(TurnOf(m, x)) && Plain(TurnOf(m, x)) == Turn(m, Plain(x))
    decreases Sources(x.raw), Fuel(x), |x.raw|, 0
  {
    var c, y := Mapped(m, x.raw[0]), Begun(m, x);
    PlainBegun(m, x);
    TurnQueues(m, x);
    SourcesAnswered(y.raw);
    if m.echo && Answers(m, y.con, c) {
      AnsweredEcho(m, y, c);
      CookInStep(m, Spoken(y, [Z]).(raw := Responded(y.raw)));
    }
    EchoWorld(m, y, c);
    TurnPlainly(m, Plain(x));
    PlainPut(if m.echo then Echoed(m, y, EchoOf(m, c)) else y, c);
  }

  lemma TurnPlainly(m: Modes, w: World)
    requires WorldOk(w) && w.raw != [] && Queues(m, w.raw[0])
    ensures var c, v := Mapped(m, w.raw[0]), w.(raw := w.raw[1..]);
            Turn(m, w) == Echoes.Put(EchoedWorld(m, Counted(m, v, c), c), c)
  {
  }

  /** The echo of an ordinary byte, given what an answer to it comes to. */
  lemma EchoWorld(m: Modes, y: State, c: int)
    requires InStep(y)
    requires m.echo && Answers(m, y.con, c) ==>
               && c == Z && InStep(Spoken(y, [Z]))
               && Echoed(m, y, EchoOf(m, c)) == Cooking(m, Spoken(y, [Z]).(raw := Responded(y.raw)))
               && Plain(Spoken(y, [Z])) == Echoing(m, Plain(y), Z)
               && var a := Spoken(y, [Z]).(raw := Responded(y.raw));
                  InStep(Cooking(m, a)) && Plain(Cooking(m, a)) == CopyAll(m, Plain(a))
    ensures var z := if m.echo then Echoed(m, y, EchoOf(m, c)) else y;
            InStep(z) && Plain(z) == EchoedWorld(m, Plain(y), c)
  {
    if !m.echo {
      assert Fed(y.con, []) == y.con && y.echoed + [] == y.echoed;
    } else if !Answers(m, y.con, c) {
      UnansweredEcho(m, y, c);
    }
  }

  lemma AnsweredEcho(m: Modes, y: State, c: int)
    requires InStep(y) && Answers(m, y.con, c)
    ensures c == Z && EchoOf(m, c) == [Z] && InStep(Spoken(y, [Z]))
    ensures Echoed(m, y, [Z]) == Cooking(m, Spoken(y, [Z]).(raw := Responded(y.raw)))
    ensures Plain(Spoken(y, [Z])) == Echoing(m, Plain(y), Z)
  {
    SpokenIs(y, [Z]);
    EchoedInStep(m, y, [Z]);
    assert [Z][..0] == [];
  }

  lemma UnansweredEcho(m: Modes, y: State, c: int)
    requires InStep(y) && m.echo && !Answers(m, y.con, c)
    ensures Echoed(m, y, EchoOf(m, c)) == Spoken(y, EchoOf(m, c)) && InStep(Spoken(y, EchoOf(m, c)))
    ensures Plain(Spoken(y, EchoOf(m, c))) == Echoing(m, Plain(y), c)
  {
    EchoAsksLast(m, y.con, c);
    SpokenIs(y, EchoOf(m, c));
    EchoedInStep(m, y, EchoOf(m, c));
    EchoIsAnswered(m, y.con, c);
  }

  // ------------------------------------------------------------------ copy_to_cooked while bytes are being shown

  /** Cooking this raw byte makes copy_to_cooked call con_write, if anything is echoed at all. */
  predicate Loud(m: Modes, q: seq<int>, c0: int) {
    !Dropped(m, c0) && var c := Mapped(m, c0);
    if IsErase(m, c) then Erasable(m, q) else !IsFlow(m, c) && !IsInterrupt(m, c)
  }

  /** copy_to_cooked will call con_write. */
  ghost predicate Sounds(m: Modes, w: World) {
    m.echo && |w.line.cooked| < QUEUE && exists i :: 0 <= i < |w.raw| && Loud(m, w.line.cooked, w.raw[i])
  }

  lemma SoundsFirst(m: Modes, w: World)
    requires w.raw != [] && !Loud(m, w.line.cooked, w.raw[0])
    ensures Sounds(m, w) <==> Sounds(m, w.(raw := w.raw[1..]))
  {
    if Sounds(m, w) {
      var i :| 0 <= i < |w.raw| && Loud(m, w.line.cooked, w.raw[i]);
      assert w.raw[1..][i - 1] == w.raw[i];
    }
    if i :| 0 <= i < |w.raw[1..]| && Loud(m, w.line.cooked, w.raw[1..][i]) { assert w.raw[i + 1] == w.raw[1..][i]; }
  }

  /** A byte that is not loud changes neither queue. */
  lemma SilentTurn(m: Modes, x: State)
    requires StateOk(x) && x.raw != [] && !Loud(m, x.sec.q, x.raw[0])
    ensures var t := TurnOf(m, x); t == x.(raw := x.raw[1..], stopped := t.stopped, interrupts := t.interrupts)
    ensures Plain(TurnOf(m, x)) == Turn(m, Plain(x))
  {
    SilentPlain(m, Plain(x));
  }

  lemma SilentPlain(m: Modes, w: World)
    requires WorldOk(w) && w.raw != [] && !Loud(m, w.line.cooked, w.raw[0])
    ensures var c := Mapped(m, w.raw[0]);
            Turn(m, w) == w.(raw := w.raw[1..], line := w.line.(
              stopped :=
                if !Dropped(m, w.raw[0]) && !IsErase(m, c) && IsFlow(m, c) then c == m.stop else w.line.stopped,
              interrupts := w.line.interrupts +
                if !Dropped(m, w.raw[0]) && !IsErase(m, c) && !IsFlow(m, c) && IsInterrupt(m, c) then 1 else 0))
  {
    assert Fed(w.con, []) == w.con;
  }

  /** Without echo nothing is shown. */
  lemma MuteTurn(m: Modes, x: State)
    requires StateOk(x) && x.raw != [] && !m.echo
    ensures var t := TurnOf(m, x);
            t.raw == x.raw[1..] && t.out == x.out && t.over == x.over && Plain(t) == Turn(m, Plain(x))
  {
    if !Loud(m, x.sec.q, x.raw[0]) {
      SilentTurn(m, x);
    } else if IsErase(m, Mapped(m, x.raw[0])) {
      MuteErase(m, x);
    } else {
      MuteQueues(m, x);
    }
  }

  lemma MuteErase(m: Modes, x: State)
    requires StateOk(x) && x.raw != [] && !m.echo && Loud(m, x.sec.q, x.raw[0]) && IsErase(m, Mapped(m, x.raw[0]))
    ensures TurnOf(m, x) == x.(raw := x.raw[1..], sec := Unpushed(x.sec))
    ensures Plain(TurnOf(m, x)) == Turn(m, Plain(x))
  {
    assert Fed(x.con, []) == x.con && x.echoed + [] == x.echoed;
  }

  lemma MuteQueues(m: Modes, x: State)
    requires StateOk(x) && x.raw != [] && !m.echo && Queues(m, x.raw[0])
    ensures var t := TurnOf(m, x);
            t.raw == x.raw[1..] && t.out == x.out && t.over == x.over && Plain(t) == Turn(m, Plain(x))
  {
    assert Fed(x.con, []) == x.con && x.echoed + [] == x.echoed;
    TurnQueues(m, x);
    PlainBegun(m, x);
    TurnPlainly(m, Plain(x));
    PlainPut(Begun(m, x), Mapped(m, x.raw[0]));
  }

  lemma {:induction false} CookQuiet(m: Modes, x: State)
    requires StateOk(x) && !Sounds(m, Plain(x))
    ensures Cooking(m, x).out == x.out && Cooking(m, x).over == x.over && Plain(Cooking(m, x)) == CopyAll(m, Plain(x))
    decreases |x.raw|
  {
    if x.raw != [] && |x.sec.stale| > 1 {
      if !m.echo {
        MuteTurn(m, x);
      } else {
        assert !Loud(m, x.sec.q, x.raw[0]);
        SilentTurn(m, x);
        SoundsFirst(m, Plain(x));
        SameSounds(m, Plain(x.(raw := x.raw[1..])), Plain(TurnOf(m, x)));
      }
      CookQuiet(m, TurnOf(m, x));
    }
  }

  lemma SameSounds(m: Modes, v: World, w: World)
    requires v.raw == w.raw && v.line.cooked == w.line.cooked
    ensures Sounds(m, v) <==> Sounds(m, w)
  {
  }

  /** write_q has been shown to the end, or past it. */
  ghost predicate Drained(x: State) { StateOk(x) && (x.over || x.out.q == []) }

  /** con_write called in step shows all there is, whatever is answered. */
  lemma {:induction false} LoopDrains(m: Modes, x: State, n: nat)
    requires StateOk(x) && !x.over && n == |x.out.q|
    ensures Drained(ConLoop(m, x, n))
    decreases Sources(x.raw), Fuel(x), 0, n, 1
  {
    if n > 0 {
      TakenNext(x);
      TakenFuel(m, x);
      LoopOne(m, x, n - 1);
      var y := Taken(x);
      if Asks(x.con, x.out.q[0]) {
        SourcesAnswered(x.raw);
        var a := y.(raw := Responded(y.raw));
        if Sounds(m, Plain(a)) {
          CookLoud(m, a);
          DrainedStays(m, Cooking(m, a), n - 1);
        } else {
          CookQuiet(m, a);
          LoopDrains(m, Cooking(m, a), n - 1);
        }
      } else {
        LoopDrains(m, y, n - 1);
      }
    }
  }

  /** Going on from there takes bytes from the empty queue. */
  lemma DrainedStays(m: Modes, x: State, n: nat)
    requires Drained(x)
    ensures Drained(ConLoop(m, x, n)) && (n > 0 ==> ConLoop(m, x, n).over)
  {
    if n > 0 {
      assert ConTake(m, x).over;
      assert ConLoop(m, x, n) == ConLoop(m, ConTake(m, x), n - 1);
    }
  }

  lemma CookStaysDrained(m: Modes, x: State)
    requires Drained(x)
    ensures Drained(Cooking(m, x))
  {
    if !x.over { CookInStep(m, x); }
  }

  /** copy_to_cooked that echoes shows all of write_q. */
  lemma {:induction false} CookLoud(m: Modes, x: State)
    requires StateOk(x) && !x.over && Sounds(m, Plain(x))
    ensures Drained(Cooking(m, x))
    decreases Sources(x.raw), Fuel(x), 1, |x.raw|, 1
  {
    var c0 := x.raw[0];
    if Loud(m, x.sec.q, c0) {
      LoudTurn(m, x);
      CookStaysDrained(m, TurnOf(m, x));
    } else {
      SilentTurn(m, x);
      SoundsFirst(m, Plain(x));
      SameSounds(m, Plain(x.(raw := x.raw[1..])), Plain(TurnOf(m, x)));
      CookLoud(m, TurnOf(m, x));
    }
  }

  lemma {:induction false} LoudTurn(m: Modes, x: State)
    requires StateOk(x) && !x.over && x.raw != [] && m.echo && Loud(m, x.sec.q, x.raw[0])
    ensures Drained(TurnOf(m, x))
    decreases Sources(x.raw), Fuel(x), 1, |x.raw|, 0
  {
    var c := Mapped(m, x.raw[0]);
    if IsErase(m, c) {
      var s := LastErased(m, x);
      EchoShortens(m, x, s);
      EchoDrains(m, x, x, s);
    } else {
      EchoMay(m, x.raw[0]);
      EchoShortens(m, CountedIn(m, x, c), EchoOf(m, c));
      EchoDrains(m, x, CountedIn(m, x, c), EchoOf(m, c));
    }
  }

  lemma {:induction false} EchoDrains(m: Modes, x0: State, x: State, s: seq<int>)
    requires StateOk(x) && !x.over && x.raw != [] && MayEcho(m, x.raw[0], s) && m.echo
    requires x0.raw == x.raw && x0.out == x.out && x0.over == x.over
    ensures Drained(EchoedFor(m, x, s))
    decreases Sources(x0.raw), Fuel(x0), 1, |x0.raw|, 0, 0
  {
    EchoShortens(m, x, s);
    var e := Emitted(x.(raw := x.raw[1..]), s);
    LoopDrains(m, e, |e.out.q|);
  }
}

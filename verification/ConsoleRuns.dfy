/**
  Runs of the console's queues: keys and their interrupts, reads, and output of programs, which the interrupt of a
  key may come in between. A run stays in step, and then is one of module Echoes, exactly as long as no
  copy_to_cooked echoes while bytes of a program's output are still to be shown.
 */
module ConsoleRuns {
  import opened Rings
  import opened LineDiscipline
  import opened Echoes
  import opened Overruns
  import opened InSteps

  // ------------------------------------------------------------------ the events

  /** `Output(s, ks)` is one round of tty_write: as much of s as goes into write_q is put there and shown. Keys ks[i]
      are pressed, and cooked, when i bytes have been taken. */
  datatype Doing = Press(c: int) | Copy | Take(nr: nat) | Output(s: seq<int>, ks: seq<seq<int>>)

  function Pressed(x: State, c: int): State { if |x.raw| < QUEUE then x.(raw := x.raw + [c]) else x }

  ghost function Struck(m: Modes, x: State, k: seq<int>): (r: State)
    requires StateOk(x)
    ensures StateOk(r) && (x.over ==> r.over)
    decreases |k|
  {
    if k == [] then x else Struck(m, Cooking(m, Pressed(x, k[0])), k[1..])
  }

  function Now(ks: seq<seq<int>>): seq<int> { if ks == [] then [] else ks[0] }

  function Later(ks: seq<seq<int>>): seq<seq<int>> { if ks == [] then [] else ks[1..] }

  /** con_write with n bytes to go. */
  ghost function ShowLoop(m: Modes, x: State, n: nat, ks: seq<seq<int>>): (r: State)
    requires StateOk(x)
    ensures StateOk(r) && (x.over ==> r.over)
    decreases n
  {
    if n == 0 then x else ShowLoop(m, ConTake(m, Struck(m, x, Now(ks))), n - 1, Later(ks))
  }

  /** What of s goes into write_q before it is full. */
  function Chunk(out: Queue, s: seq<int>): seq<int>
    requires |out.stale| >= 1
  {
    s[..if |s| < |out.stale| then |s| else |out.stale| - 1]
  }

  /** A read of nr bytes: they stay where they are as old cells. */
  function TakeFrom(m: Modes, x: State, nr: nat): State
    requires StateOk(x)
  {
    var l := ReadFrom(m, LineOf(x), nr);
    var k := |x.sec.q| - |l.cooked|;
    x.(sec := Queue(l.cooked, x.sec.stale + x.sec.q[..k]), data := l.data)
  }

  ghost function Done(m: Modes, x: State, d: Doing): (r: State)
    requires StateOk(x)
    ensures StateOk(r)
  {
    match d
    case Press(c) => Pressed(x, c)
    case Copy => Cooking(m, x)
    case Take(nr) => TakeFrom(m, x, nr)
    case Output(s, ks) =>
      // tty_write sleeps on a full queue; nothing wakes it
      if s == [] || |x.out.stale| == 1 then x
      else
        var y := x.(out := PushedAll(x.out, Chunk(x.out, s)));
        ShowLoop(m, y, |y.out.q|, ks)
  }

  ghost function AllDone(m: Modes, x: State, ds: seq<Doing>): (r: State)
    requires StateOk(x)
    ensures StateOk(r)
    decreases |ds|
  {
    if ds == [] then x else Done(m, AllDone(m, x, ds[..|ds| - 1]), ds[|ds| - 1])
  }

  // ------------------------------------------------------------------ exactly when the tail passes the head

  ghost function AfterKeys(m: Modes, w: World, k: seq<int>): (r: World)
    requires WorldOk(w)
    ensures WorldOk(r)
    decreases |k|
  {
    if k == [] then w else AfterKeys(m, CopyAll(m, Keyed(w, k[0])), k[1..])
  }

  /** One of the keys k echoes, or something that waits before it. */
  ghost predicate Interrupts(m: Modes, w: World, k: seq<int>)
    requires WorldOk(w)
    decreases |k|
  {
    k != [] && (Sounds(m, Keyed(w, k[0])) || Interrupts(m, CopyAll(m, Keyed(w, k[0])), k[1..]))
  }

  /** Before the last byte of q has been taken, something is echoed: for a key, or for an answer. */
  ghost predicate Clash(m: Modes, w: World, q: seq<int>, ks: seq<seq<int>>)
    requires WorldOk(w)
    decreases |q|
  {
    q != [] &&
    (Interrupts(m, w, Now(ks)) ||
     var v := AfterKeys(m, w, Now(ks));
     (|q| > 1 && Asks(v.con, q[0]) && Sounds(m, v.(raw := Responded(v.raw)))) ||
     Clash(m, Shown(m, v, q[0]), q[1..], Later(ks)))
  }

  /** The same output in module Echoes. */
  ghost function PlainShow(m: Modes, w: World, q: seq<int>, ks: seq<seq<int>>): (r: World)
    requires WorldOk(w)
    ensures WorldOk(r)
    decreases |q|
  {
    if q == [] then w else PlainShow(m, Shown(m, AfterKeys(m, w, Now(ks)), q[0]), q[1..], Later(ks))
  }

  lemma {:induction false} StruckCases(m: Modes, x: State, k: seq<int>)
    requires StateOk(x) && !x.over
    ensures var r := Struck(m, x, k);
            if Interrupts(m, Plain(x), k) then Drained(r)
            else !r.over && r.out == x.out && Plain(r) == AfterKeys(m, Plain(x), k)
    decreases |k|
  {
    if k != [] {
      var y := Pressed(x, k[0]);
      assert Plain(y) == Keyed(Plain(x), k[0]);
      if Sounds(m, Plain(y)) {
        CookLoud(m, y);
        StruckDrained(m, Cooking(m, y), k[1..]);
      } else {
        CookQuiet(m, y);
        StruckCases(m, Cooking(m, y), k[1..]);
      }
    }
  }

  lemma {:induction false} StruckDrained(m: Modes, x: State, k: seq<int>)
    requires Drained(x)
    ensures Drained(Struck(m, x, k))
    decreases |k|
  {
    if k != [] {
      CookStaysDrained(m, Pressed(x, k[0]));
      StruckDrained(m, Cooking(m, Pressed(x, k[0])), k[1..]);
    }
  }

  lemma ShowFirst(m: Modes, x: State, n: nat, ks: seq<seq<int>>)
    requires StateOk(x) && n > 0
    ensures ShowLoop(m, x, n, ks) == ShowLoop(m, ConTake(m, Struck(m, x, Now(ks))), n - 1, Later(ks))
  {
  }

  lemma FirstPast(m: Modes, x: State, n: nat, ks: seq<seq<int>>) returns (t: State)
    requires Drained(x) && n > 0
    ensures StateOk(t) && t.over && ShowLoop(m, x, n, ks) == ShowLoop(m, t, n - 1, Later(ks))
  {
    StruckDrained(m, x, Now(ks));
    t := TakesPast(m, Struck(m, x, Now(ks)));
  }

  lemma TakesPast(m: Modes, y: State) returns (t: State)
    requires Drained(y)
    ensures t == ConTake(m, y) && t.over && StateOk(t)
  {
    t := ConTake(m, y);
  }

  /** Bytes still to show when write_q is empty: they are taken from it all the same. */
  lemma ShowsPast(m: Modes, x: State, n: nat, ks: seq<seq<int>>)
    requires Drained(x) && (x.over || n > 0)
    ensures ShowLoop(m, x, n, ks).over
  {
    if n > 0 {
      var t := FirstPast(m, x, n, ks);
    }
  }

  /** con_write of a program's output goes past the head of write_q if and only if, before its last byte has been
      taken, copy_to_cooked echoes; and otherwise the queues are those of module Echoes. */
  lemma {:induction false} OverrunIff(m: Modes, x: State, ks: seq<seq<int>>)
    requires StateOk(x) && !x.over
    ensures var r := ShowLoop(m, x, |x.out.q|, ks);
            && (r.over <==> Clash(m, Plain(x), x.out.q, ks))
            && (!r.over ==> InStep(r) && Plain(r) == PlainShow(m, Plain(x), x.out.q, ks))
    decreases |x.out.q|
  {
    if x.out.q != [] {
      StruckCases(m, x, Now(ks));
      var y := Struck(m, x, Now(ks));
      if Interrupts(m, Plain(x), Now(ks)) {
        InterruptedFirst(m, x, ks);
      } else {
        ShowOne(m, y);
        FirstShown(m, x, y, ks);
        if !ClashNow(m, y) { OverrunIff(m, ConTake(m, y), Later(ks)); }
      }
    }
  }

  lemma InterruptedFirst(m: Modes, x: State, ks: seq<seq<int>>)
    requires StateOk(x) && !x.over && x.out.q != [] && Interrupts(m, Plain(x), Now(ks))
    requires Drained(Struck(m, x, Now(ks)))
    ensures Clash(m, Plain(x), x.out.q, ks) && ShowLoop(m, x, |x.out.q|, ks).over
  {
    var t := TakesPast(m, Struck(m, x, Now(ks)));
  }

  /** Nothing is echoed for the keys: the first byte decides, or the others do. */
  lemma FirstShown(m: Modes, x: State, y: State, ks: seq<seq<int>>)
    requires StateOk(x) && !x.over && x.out.q != [] && !Interrupts(m, Plain(x), Now(ks)) && y == Struck(m, x, Now(ks))
    requires y.out == x.out && !y.over && Plain(y) == AfterKeys(m, Plain(x), Now(ks))
    requires ClashNow(m, y) ==> Drained(ConTake(m, y))
    ensures ShowLoop(m, x, |x.out.q|, ks) == ShowLoop(m, ConTake(m, y), |x.out.q| - 1, Later(ks))
    ensures ClashNow(m, y) ==> Clash(m, Plain(x), x.out.q, ks) && ShowLoop(m, x, |x.out.q|, ks).over
    ensures !ClashNow(m, y) ==>
              (Clash(m, Plain(x), x.out.q, ks) <==>
                Clash(m, Shown(m, Plain(y), x.out.q[0]), x.out.q[1..], Later(ks)))
    ensures PlainShow(m, Plain(x), x.out.q, ks) ==
            PlainShow(m, Shown(m, Plain(y), x.out.q[0]), x.out.q[1..], Later(ks))
  {
    if ClashNow(m, y) { ShowsPast(m, ConTake(m, y), |x.out.q| - 1, Later(ks)); }
  }

  ghost predicate ClashNow(m: Modes, y: State)
    requires StateOk(y) && y.out.q != []
  {
    |y.out.q| > 1 && Asks(y.con, y.out.q[0]) && Sounds(m, Plain(y).(raw := Responded(y.raw)))
  }

  /** One byte shown. */
  lemma ShowOne(m: Modes, y: State)
    requires StateOk(y) && !y.over && y.out.q != []
    ensures var t := ConTake(m, y);
            if ClashNow(m, y) then Drained(t)
            else !t.over && t.out.q == y.out.q[1..] && Plain(t) == Shown(m, Plain(y), y.out.q[0])
  {
    TakenNext(y);
    if Asks(y.con, y.out.q[0]) {
      var a := Taken(y).(raw := Responded(y.raw));
      SameSounds(m, Plain(a), Plain(y).(raw := Responded(y.raw)));
      if ClashNow(m, y) {
        CookLoud(m, a);
      } else if |y.out.q| == 1 {
        CookInStep(m, a);
      } else {
        CookQuiet(m, a);
      }
    }
  }

  /** The same for output that no key interrupts, from a console with echo: exactly when a byte but the last is
      answered. */
  lemma {:induction false} WriteClashes(m: Modes, w: World, q: seq<int>)
    requires WorldOk(w) && m.echo && PlainResponse(m) && |w.line.cooked| < QUEUE && |w.raw| + 6 != QUEUE
    ensures Clash(m, w, q, []) <==> exists i :: 0 <= i < |q| - 1 && Asks(Fed(w.con, q[..i]), q[i])
    decreases |q|
  {
    if |q| > 1 {
      assert q[..0] == [];
      if Asks(w.con, q[0]) {
        AnswerSounds(m, w);
      } else {
        var v := Shown(m, w, q[0]);
        WriteClashes(m, v, q[1..]);
        AsksLater(w.con, q);
      }
    } else if |q| == 1 {
      assert !Clash(m, Shown(m, w, q[0]), q[1..], []);
    }
  }

  lemma AnswerSounds(m: Modes, w: World)
    requires WorldOk(w) && m.echo && PlainResponse(m) && |w.line.cooked| < QUEUE && |w.raw| + 6 != QUEUE
    ensures Sounds(m, w.(raw := Responded(w.raw)))
  {
    var r := Responded(w.raw);
    assert r[|r| - 1] == Response()[6];
    assert Loud(m, w.line.cooked, r[|r| - 1]);
  }

  lemma AsksLater(p: Parser, q: seq<int>)
    requires q != [] && !Asks(p, q[0])
    ensures (exists i :: 0 <= i < |q| - 1 && Asks(Fed(p, q[..i]), q[i])) <==>
            (exists i :: 0 <= i < |q[1..]| - 1 && Asks(Fed(Next(p, q[0]), q[1..][..i]), q[1..][i]))
  {
    var t := q[1..];
    forall i | 0 <= i < |t| ensures Fed(p, q[..i + 1]) == Fed(Next(p, q[0]), t[..i]) && q[i + 1] == t[i] {
      assert q[..i + 1] == [q[0]] + t[..i];
      FedFirst(p, q[0], t[..i]);
    }
    assert q[..0] == [];
    if i :| 0 <= i < |q| - 1 && Asks(Fed(p, q[..i]), q[i]) {
      assert Asks(Fed(Next(p, q[0]), t[..i - 1]), t[i - 1]);
    }
    if i :| 0 <= i < |t| - 1 && Asks(Fed(Next(p, q[0]), t[..i]), t[i]) { assert Asks(Fed(p, q[..i + 1]), q[i + 1]); }
  }

  /** Without echo the tail never passes the head. */
  lemma {:induction false} MuteNeverClashes(m: Modes, w: World, q: seq<int>, ks: seq<seq<int>>)
    requires WorldOk(w) && !m.echo
    ensures !Clash(m, w, q, ks)
    decreases |q|
  {
    if q != [] {
      MuteKeys(m, w, Now(ks));
      MuteNeverClashes(m, Shown(m, AfterKeys(m, w, Now(ks)), q[0]), q[1..], Later(ks));
    }
  }

  lemma {:induction false} MuteKeys(m: Modes, w: World, k: seq<int>)
    requires WorldOk(w) && !m.echo
    ensures !Interrupts(m, w, k)
    decreases |k|
  {
    if k != [] { MuteKeys(m, CopyAll(m, Keyed(w, k[0])), k[1..]); }
  }

  // ------------------------------------------------------------------ runs

  function Strikes(k: seq<int>): seq<Event>
    decreases |k|
  {
    if k == [] then [] else [Key(k[0]), Cook] + Strikes(k[1..])
  }

  /** The events of module Echoes for output that stays in step: byte by byte, keys in between. */
  function ByByte(q: seq<int>, ks: seq<seq<int>>): seq<Event>
    decreases |q|
  {
    if q == [] then [] else Strikes(Now(ks)) + [Program([q[0]])] + ByByte(q[1..], Later(ks))
  }

  function PlainEvents(d: Doing): seq<Event> {
    match d
    case Press(c) => [Key(c)]
    case Copy => [Cook]
    case Take(nr) => [Read(nr)]
    case Output(s, ks) => ByByte(s[..if |s| < CELLS then |s| else CELLS - 1], ks)
  }

  function AllPlain(ds: seq<Doing>): seq<Event>
    decreases |ds|
  {
    if ds == [] then [] else AllPlain(ds[..|ds| - 1]) + PlainEvents(ds[|ds| - 1])
  }

  lemma {:induction false} AfterConcat(m: Modes, w: World, a: seq<Event>, b: seq<Event>)
    requires WorldOk(w)
    ensures After(m, w, a + b) == After(m, After(m, w, a), b)
    decreases |b|
  {
    if b == [] {
      assert a + b == a;
    } else {
      assert (a + b)[..|a + b| - 1] == a + b[..|b| - 1];
      AfterConcat(m, w, a, b[..|b| - 1]);
    }
  }

  lemma AfterOne(m: Modes, w: World, e: Event)
    requires WorldOk(w)
    ensures After(m, w, [e]) == Happens(m, w, e)
  {
    assert [e][..0] == [];
  }

  lemma {:induction false} KeysAreEvents(m: Modes, w: World, k: seq<int>)
    requires WorldOk(w)
    ensures After(m, w, Strikes(k)) == AfterKeys(m, w, k)
    decreases |k|
  {
    if k != [] {
      AfterConcat(m, w, [Key(k[0]), Cook], Strikes(k[1..]));
      AfterTwo(m, w, [], Key(k[0]), Cook);
      assert [] + [Key(k[0]), Cook] == [Key(k[0]), Cook];
      KeysAreEvents(m, CopyAll(m, Keyed(w, k[0])), k[1..]);
    }
  }

  lemma {:induction false} ShowIsEvents(m: Modes, w: World, q: seq<int>, ks: seq<seq<int>>)
    requires WorldOk(w)
    ensures After(m, w, ByByte(q, ks)) == PlainShow(m, w, q, ks)
    decreases |q|
  {
    if q != [] {
      var k := Strikes(Now(ks));
      AfterConcat(m, w, k + [Program([q[0]])], ByByte(q[1..], Later(ks)));
      AfterConcat(m, w, k, [Program([q[0]])]);
      KeysAreEvents(m, w, Now(ks));
      var v := AfterKeys(m, w, Now(ks));
      AfterOne(m, v, Program([q[0]]));
      WrittenOne(m, v, q[0]);
      ShowIsEvents(m, Shown(m, v, q[0]), q[1..], Later(ks));
    }
  }

  lemma WrittenOne(m: Modes, w: World, c: int)
    requires WorldOk(w)
    ensures Written(m, w, [c]) == Shown(m, w, c)
  {
    assert [c][..0] == [];
  }

  /** In state x this event takes the tail of write_q past its head. */
  ghost predicate GoesPast(m: Modes, x: State, d: Doing)
    requires StateOk(x)
  {
    !x.over && d.Output? && |x.out.stale| > 1 && Clash(m, Plain(x), Chunk(x.out, d.s), d.ks)
  }

  /** In step an event overruns, or it is the same as in module Echoes and stays in step. */
  lemma DoneInStep(m: Modes, x: State, d: Doing)
    requires InStep(x)
    ensures var r := Done(m, x, d);
            && (r.over <==> GoesPast(m, x, d))
            && (!r.over ==> InStep(r) && Plain(r) == After(m, Plain(x), PlainEvents(d)))
  {
    match d {
      case Press(c) => AfterOne(m, Plain(x), Key(c));
      case Copy =>
        CookInStep(m, x);
        AfterOne(m, Plain(x), Cook);
      case Take(nr) => AfterOne(m, Plain(x), Read(nr));
      case Output(s, ks) => OutputInStep(m, x, s, ks);
    }
  }

  lemma OutputInStep(m: Modes, x: State, s: seq<int>, ks: seq<seq<int>>)
    requires InStep(x)
    ensures var r, d := Done(m, x, Output(s, ks)), Output(s, ks);
            && (r.over <==> GoesPast(m, x, d))
            && (!r.over ==> InStep(r) && Plain(r) == After(m, Plain(x), PlainEvents(d)))
  {
    var q := Chunk(x.out, s);
    ShowIsEvents(m, Plain(x), q, ks);
    assert q == s[..if |s| < CELLS then |s| else CELLS - 1];
    if s != [] {
      var y := x.(out := PushedAll(x.out, q));
      PushedInto(x.out, q);
      assert y.out.q == q && Plain(y) == Plain(x);
      OverrunIff(m, y, ks);
      DoneOutput(m, x, s, ks);
    }
  }

  lemma DoneOutput(m: Modes, x: State, s: seq<int>, ks: seq<seq<int>>)
    requires StateOk(x) && s != [] && |x.out.stale| > 1
    ensures var y := x.(out := PushedAll(x.out, Chunk(x.out, s)));
            StateOk(y) && Done(m, x, Output(s, ks)) == ShowLoop(m, y, |y.out.q|, ks)
  {
  }

  lemma {:induction false} PushedInto(out: Queue, s: seq<int>)
    requires |s| < |out.stale|
    ensures PushedAll(out, s) == Queue(out.q + s, out.stale[|s|..])
    decreases |s|
  {
    if s != [] {
      PushedInto(Pushed(out, s[0]), s[1..]);
      assert out.q + [s[0]] + s[1..] == out.q + s;
      assert out.stale[1..][|s| - 1..] == out.stale[|s|..];
    } else {
      assert out.q + s == out.q && out.stale[0..] == out.stale;
    }
  }

  lemma {:induction false} OverStays(m: Modes, x: State, d: Doing)
    requires StateOk(x) && x.over
    ensures Done(m, x, d).over
  {
    if d.Output? && d.s != [] && |x.out.stale| > 1 {
      var y := x.(out := PushedAll(x.out, Chunk(x.out, d.s)));
      ShowsPast(m, y, |y.out.q|, d.ks);
    }
  }

  ghost predicate SomeGoesPast(m: Modes, x: State, ds: seq<Doing>)
    requires StateOk(x)
  {
    exists j :: 0 <= j < |ds| && PastAt(m, x, ds, j)
  }

  ghost predicate PastAt(m: Modes, x: State, ds: seq<Doing>, j: nat)
    requires StateOk(x) && j < |ds|
  {
    GoesPast(m, AllDone(m, x, ds[..j]), ds[j])
  }

  /** Over every run: the tail of write_q has passed its head if and only if some event took it there; and until
      then the run is one of module Echoes. */
  lemma {:induction false} RunIff(m: Modes, x: State, ds: seq<Doing>)
    requires InStep(x)
    ensures var r := AllDone(m, x, ds);
            && (r.over <==> SomeGoesPast(m, x, ds))
            && (!r.over ==> InStep(r) && Plain(r) == After(m, Plain(x), AllPlain(ds)))
    decreases |ds|
  {
    if ds != [] {
      var less, d := ds[..|ds| - 1], ds[|ds| - 1];
      var y := AllDone(m, x, less);
      RunIff(m, x, less);
      LastGoesPast(m, x, ds);
      if y.over {
        OverStays(m, y, d);
      } else {
        DoneInStep(m, y, d);
        AfterConcat(m, Plain(x), AllPlain(less), PlainEvents(d));
      }
    }
  }

  lemma LastGoesPast(m: Modes, x: State, ds: seq<Doing>)
    requires StateOk(x) && ds != []
    ensures var less := ds[..|ds| - 1];
            SomeGoesPast(m, x, ds) <==> SomeGoesPast(m, x, less) || GoesPast(m, AllDone(m, x, less), ds[|less|])
  {
    var less := ds[..|ds| - 1];
    forall j | 0 <= j < |less| ensures PastAt(m, x, less, j) <==> PastAt(m, x, ds, j) { assert less[..j] == ds[..j]; }
    assert PastAt(m, x, ds, |less|) <==> GoesPast(m, AllDone(m, x, less), ds[|less|]);
  }

  /** So while no event overruns, `data` counts the line ends of the cooked queue unless a byte has gone into the
      full queue, and none has when every cooking had room for all that could come. */
  lemma RunKept(m: Modes, x: State, ds: seq<Doing>)
    requires InStep(x) && Right(m, Plain(x))
    ensures var r := AllDone(m, x, ds);
            && (!r.over ==> Right(m, Plain(r)))
            && (!r.over && !x.lost && AllSafe(m, Plain(x), AllPlain(ds)) ==> !r.lost)
  {
    RunIff(m, x, ds);
    RunRight(m, Plain(x), AllPlain(ds));
    if !x.lost && AllSafe(m, Plain(x), AllPlain(ds)) { RunFits(m, Plain(x), AllPlain(ds)); }
  }

  /** Typing while a program writes is enough: an ordinary key that comes between two bytes of output. */
  lemma KeyGoesPast(m: Modes, x: State, a: int, b: int, c: int)
    requires InStep(x) && m.echo && |x.sec.q| < QUEUE && |x.raw| < QUEUE && Queues(m, c) && !Asks(x.con, a)
    ensures GoesPast(m, x, Output([a, b], [[], [c]]))
  {
    var w := Plain(x);
    var v := Shown(m, w, a);
    assert Chunk(x.out, [a, b]) == [a, b] && [a, b][1..] == [b];
    assert Later([[], [c]]) == [[c]];
    assert Keyed(v, c).raw[|v.raw|] == c;
    assert Loud(m, v.line.cooked, c);
    assert Interrupts(m, v, [c]);
    assert Clash(m, v, [b], [[c]]);
  }
}

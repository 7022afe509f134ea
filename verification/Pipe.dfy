/**
  Pipes (fs/pipe.c): a ring of one page between a reader and a writer that sleep on the same queue. The
  kernel is not preemptive, so a call runs undisturbed from its start, or from where it slept, to its
  return or its next sleep; one method below is one such stretch.
 */
module Pipes {
  import opened Rings

  const PAGE_SIZE := 4096

  /** Where a task stands: outside the call, asleep inside it, or woken and about to go on. */
  datatype Phase = Away | Asleep | Woken

  datatype Who = Nobody | Reader | Writer

  datatype Outcome = Returned | Slept | Broken

  datatype Event = CallRead(count: int) | ResumeRead | CallWrite(data: seq<int>) | ResumeWrite | CloseRead | CloseWrite

  /** What one stretch of a call asks of the ring. */
  datatype Stretch = Reads(count: int) | Writes(data: seq<int>)

  // ------------------------------------------------------------------ what the calls do

  /** A pipe: the bytes held, its open ends, its two tasks, and all bytes so far. */
  datatype Snap = Snap(held: seq<int>, readEnd: bool, writeEnd: bool, reader: Phase, writer: Phase,
                       wanted: int, pending: seq<int>, written: seq<int>, delivered: seq<int>)

  function Awake(p: Phase): Phase { if p == Asleep then Woken else p }

  function Least(a: int, b: int): int { if a < b then a else b }

  /** A stretch of read_pipe: it sleeps on an empty pipe with both ends open, and otherwise takes the oldest bytes,
      as many as asked for or held. */
  function ReadOf(s: Snap, count: int): (r: Snap)
    ensures |r.held| <= |s.held|
  {
    if s.held == [] && s.readEnd && s.writeEnd then
      s.(reader := Asleep, writer := Awake(s.writer), wanted := count)
    else
      var n := if count <= 0 then 0 else Least(count, |s.held|);
      s.(held := s.held[n..], delivered := s.delivered + s.held[..n], reader := Away, writer := Awake(s.writer))
  }

  /** A stretch of write_pipe: bytes in order until all are in, or the pipe is full; then it sleeps, unless the reader
      has gone. A call that finds the reader gone writes nothing. */
  function WriteOf(s: Snap, data: seq<int>, first: bool): (r: Snap)
    requires |s.held| < PAGE_SIZE
    ensures |r.held| < PAGE_SIZE
  {
    if first && !s.readEnd then s.(reader := Awake(s.reader), writer := Away)
    else
      var n := Least(|data|, PAGE_SIZE - 1 - |s.held|);
      var t := s.(held := s.held + data[..n], written := s.written + data[..n], reader := Awake(s.reader));
      if n < |data| && s.readEnd then t.(writer := Asleep, pending := data[n..]) else t.(writer := Away)
  }

  /** One event; those that the two tasks are not in a position to raise do nothing. */
  function Happens(s: Snap, e: Event): (r: Snap)
    requires |s.held| < PAGE_SIZE
    ensures |r.held| < PAGE_SIZE
  {
    match e
    case CallRead(count) => if s.readEnd && s.reader == Away then ReadOf(s, count) else s
    case ResumeRead => if s.reader == Woken then ReadOf(s, s.wanted) else s
    case CallWrite(data) => if s.writeEnd && s.writer == Away then WriteOf(s, data, true) else s
    case ResumeWrite => if s.writer == Woken then WriteOf(s, s.pending, false) else s
    case CloseRead =>
      if s.readEnd && s.reader == Away then s.(readEnd := false, writer := Awake(s.writer)) else s
    case CloseWrite =>
      if s.writeEnd && s.writer == Away then s.(writeEnd := false, reader := Awake(s.reader)) else s
  }

  function After(s: Snap, es: seq<Event>): (r: Snap)
    requires |s.held| < PAGE_SIZE
    ensures |r.held| < PAGE_SIZE
    decreases |es|
  {
    if es == [] then s else Happens(After(s, es[..|es| - 1]), es[|es| - 1])
  }

  class Pipe {
    const buf: array<int>
    var head: int
    var tail: int
    var iCount: int
    // the two ends, and the queue i_wait
    var readEnd: bool
    var writeEnd: bool
    var wait: Who
    var reader: Phase
    var writer: Phase
    // what the calls in progress still have to do
    var wanted: int
    var pending: seq<int>
    // every byte ever accepted, and every byte ever delivered
    ghost var written: seq<int>
    ghost var delivered: seq<int>

    ghost predicate Ring()
      reads this
    {
      buf.Length == PAGE_SIZE && InRange(PAGE_SIZE, head, tail)
    }

    ghost function Held(): (c: seq<int>)
      requires Ring()
      reads this, buf
    {
      Contents(buf[..], head, tail)
    }

    ghost function Now(): Snap
      requires Ring()
      reads this, buf
    {
      Snap(Held(), readEnd, writeEnd, reader, writer, wanted, pending, written, delivered)
    }

    /** First in, first out: what was written is what was delivered and what the ring still holds. */
    ghost predicate Fifo()
      reads this, buf
    {
      Ring() && written == delivered + Held()
    }

    /** The queue holds exactly the task that sleeps, and a task sleeps only while it has nothing to do and
        the other end is open. */
    ghost predicate Queue()
      reads this
    {
      && Links()
      && (reader == Asleep ==> head == tail && iCount == 2)
      && (writer == Asleep ==> Full(PAGE_SIZE, head, tail) && iCount == 2)
      && iCount == (if readEnd then 1 else 0) + (if writeEnd then 1 else 0)
      && (reader != Away ==> readEnd) && (writer != Away ==> writeEnd)
    }

    ghost predicate Links()
      reads this
    {
      (wait == Reader <==> reader == Asleep) && (wait == Writer <==> writer == Asleep)
    }

    ghost predicate Valid()
      reads this, buf
    {
      Fifo() && Queue()
    }

    /** get_pipe_inode (inode.c:202-216). */
    constructor ()
      ensures Valid() && fresh(buf) && written == [] && delivered == [] && iCount == 2
      ensures reader == Away && writer == Away
    {
      buf := new int[PAGE_SIZE](_ => 0);
      head, tail, iCount, readEnd, writeEnd, wait := 0, 0, 2, true, true, Nobody;
      reader, writer, wanted, pending, written, delivered := Away, Away, 0, [], [], [];
    }

    /** wake_up(&inode->i_wait) */
    method WakeUp()
      requires Links()
      modifies this`wait, this`reader, this`writer
      ensures Links() && wait == Nobody
      ensures reader == (if old(reader) == Asleep then Woken else old(reader))
      ensures writer == (if old(writer) == Asleep then Woken else old(writer))
    {
      if wait == Reader { reader := Woken; }
      if wait == Writer { writer := Woken; }
      wait := Nobody;
    }

    /** One byte out of the ring. */
    method Get() returns (c: int)
      requires Fifo() && head != tail
      modifies this`tail, this`delivered
      ensures Fifo() && delivered == old(delivered) + [c] && old(Held()) == [c] + Held()
    {
      GetContents(buf[..], head, tail);
      c := buf[tail];
      tail := Inc(tail, PAGE_SIZE);
      delivered := delivered + [c];
      assert old(delivered) + ([c] + Held()) == delivered + Held();
    }

    /** One byte into the ring. */
    method Put(c: int)
      requires Fifo() && !Full(PAGE_SIZE, head, tail)
      modifies this`head, this`written, buf
      ensures Fifo() && written == old(written) + [c] && Held() == old(Held()) + [c]
    {
      PutContents(buf[..], head, tail, c);
      ghost var b := buf[..];
      buf[head] := c;
      assert buf[..] == b[head := c];
      head := Inc(head, PAGE_SIZE);
      written := written + [c];
      assert delivered + (old(Held()) + [c]) == old(written) + [c];
    }

    /** The copying loop of read_pipe (pipe.c:17-21). */
    method Take(count: int) returns (data: seq<int>)
      requires Fifo()
      modifies this`tail, this`delivered
      ensures Fifo() && delivered == old(delivered) + data && old(Held()) == data + Held()
      ensures |data| == if count <= 0 then 0 else if count < |old(Held())| then count else |old(Held())|
    {
      data := [];
      var left := count;
      while left > 0 && head != tail
        invariant Fifo() && delivered == old(delivered) + data && old(Held()) == data + Held()
        invariant |data| == count - left && if count > 0 then left >= 0 else left == count
        decreases left
      {
        ghost var h := Held();
        var c := Get();
        assert data + h == (data + [c]) + Held();
        data := data + [c];
        left := left - 1;
      }
      assert |old(Held())| == |data| + |Held()| && (head == tail <==> |Held()| == 0);
    }

    /** read_pipe up to its return or its next sleep (pipe.c:7-24). Only a pipe that is empty and whose
        writer has gone gives end of file. */
    method ReadPipe(count: int) returns (data: seq<int>, o: Outcome)
      requires Valid() && reader != Asleep && readEnd
      modifies this`tail, this`delivered, this`wait, this`reader, this`writer, this`wanted
      ensures Valid() && delivered == old(delivered) + data && old(Held()) == data + Held()
      ensures o == Slept <==> old(head) == old(tail) && iCount == 2
      ensures o == Slept ==> reader == Asleep && wanted == count && data == []
      ensures o != Slept ==> o == Returned && reader == Away
      ensures o == Returned && data == [] && count > 0 ==> !writeEnd
      ensures o == Returned && old(Held()) != [] ==>
                |data| == if count <= 0 then 0 else if count < |old(Held())| then count else |old(Held())|
      ensures writer != Asleep
      ensures Now() == ReadOf(old(Now()), count)
    {
      if head == tail {
        WakeUp();
        if iCount != 2 {
          reader := Away;
          return [], Returned;
        }
        wanted := count;
        reader, wait := Asleep, Reader;
        return [], Slept;
      }
      data := TakeAndWake(count);
      assert data == old(Held())[..|data|] && Held() == old(Held())[|data|..];
      reader := Away;
      o := Returned;
    }

    method TakeAndWake(count: int) returns (data: seq<int>)
      requires Valid() && reader != Asleep && readEnd
      modifies this`tail, this`delivered, this`wait, this`reader, this`writer
      ensures Valid() && delivered == old(delivered) + data && old(Held()) == data + Held()
      ensures |data| == if count <= 0 then 0 else if count < |old(Held())| then count else |old(Held())|
      ensures reader == old(reader) && writer == Awake(old(writer))
    {
      data := Take(count);
      WakeUp();
    }

    /** The bytes of write_pipe (pipe.c:35-47). */
    method Store(data: seq<int>) returns (n: int, o: Outcome)
      requires Valid() && writer != Asleep && writeEnd
      modifies this`head, this`written, this`wait, this`reader, this`writer, buf
      ensures Valid() && 0 <= n <= |data| && written == old(written) + data[..n]
      ensures o == Returned ==> n == |data| && writer == old(writer) && wait == Nobody
      ensures o == Slept ==> n < |data| && writer == Asleep && iCount == 2
      ensures o == Broken ==> n < |data| && writer == old(writer) && iCount != 2 && wait == Nobody
      ensures reader == Awake(old(reader)) && Held() == old(Held()) + data[..n]
      ensures n == Least(|data|, PAGE_SIZE - 1 - |old(Held())|)
    {
      n := 0;
      while n < |data|
        invariant Valid() && 0 <= n <= |data| && written == old(written) + data[..n]
        invariant Held() == old(Held()) + data[..n]
        invariant writer == old(writer) && (n > 0 ==> wait == Nobody)
        invariant reader == if n > 0 then Awake(old(reader)) else old(reader)
      {
        if Full(PAGE_SIZE, head, tail) {
          WakeUp();
          if iCount != 2 { return n, Broken; }
          writer, wait := Asleep, Writer;
          return n, Slept;
        }
        PutAndWake(data[n]);
        assert data[..n + 1] == data[..n] + [data[n]];
        n := n + 1;
      }
      WakeUp();
      o := Returned;
    }

    method PutAndWake(c: int)
      requires Valid() && writer != Asleep && !Full(PAGE_SIZE, head, tail)
      modifies this`head, this`written, this`wait, this`reader, this`writer, buf
      ensures Valid() && written == old(written) + [c] && wait == Nobody && writer == old(writer)
      ensures Held() == old(Held()) + [c] && reader == Awake(old(reader))
    {
      Put(c);
      WakeUp();
    }

    /** write_pipe up to its return or its next sleep (pipe.c:26-50); `first` when it is being called. */
    method WritePipe(data: seq<int>, first: bool) returns (n: int, o: Outcome)
      requires Valid() && writer != Asleep && writeEnd
      modifies this`head, this`written, this`wait, this`reader, this`writer, this`pending, buf
      ensures Valid() && 0 <= n <= |data| && written == old(written) + data[..n]
      ensures o == Returned ==> n == |data|
      ensures o == Slept <==> writer == Asleep
      ensures o == Slept ==> n < |data| && pending == data[n..]
      ensures Held() == old(Held()) + data[..n]
      ensures first && !readEnd ==> o == Broken && n == 0
      ensures readEnd || !first ==>
                n == if |data| < PAGE_SIZE - 1 - |old(Held())| then |data| else PAGE_SIZE - 1 - |old(Held())|
      ensures o == Broken <==> !readEnd && (first || n < |data|)
      ensures reader != Asleep && readEnd == old(readEnd)
      ensures Now() == WriteOf(old(Now()), data, first)
    {
      if first {
        WakeUp();
        if iCount != 2 {
          writer := Away;
          return 0, Broken;
        }
      }
      n, o := WriteOn(data);
    }

    /** write_pipe after its first test, or from where it slept. */
    method WriteOn(data: seq<int>) returns (n: int, o: Outcome)
      requires Valid() && writer != Asleep && writeEnd
      modifies this`head, this`written, this`wait, this`reader, this`writer, this`pending, buf
      ensures Valid() && 0 <= n <= |data| && written == old(written) + data[..n]
      ensures o == Returned ==> n == |data|
      ensures o == Slept <==> writer == Asleep
      ensures o == Slept ==> n < |data| && pending == data[n..]
      ensures Held() == old(Held()) + data[..n] && n == Least(|data|, PAGE_SIZE - 1 - |old(Held())|)
      ensures o == Broken <==> !readEnd && n < |data|
      ensures reader != Asleep
      ensures Now() == WriteOf(old(Now()), data, false)
    {
      n, o := Store(data);
      if o == Slept { pending := data[n..]; } else { writer := Away; }
    }

    /** sys_close of one end: iput wakes the queue, then drops the count (inode.c:134-143). */
    method CloseEnd(who: Who)
      requires Valid() && who != Nobody
      requires if who == Reader then readEnd && reader == Away else writeEnd && writer == Away
      modifies this`wait, this`reader, this`writer, this`iCount, this`readEnd, this`writeEnd
      ensures Valid() && reader != Asleep && writer != Asleep
      ensures iCount == old(iCount) - 1
      ensures readEnd == (old(readEnd) && who != Reader) && writeEnd == (old(writeEnd) && who != Writer)
      ensures Now() == Happens(old(Now()), if who == Reader then CloseRead else CloseWrite)
    {
      WakeUp();
      iCount := iCount - 1;
      if who == Reader { readEnd := false; } else { writeEnd := false; }
    }

    /** One event; those that the two tasks are not in a position to raise do nothing. */
    method Step(e: Event)
      requires Valid()
      modifies this, buf
      ensures Valid() && old(delivered) <= delivered && old(written) <= written
      ensures Now() == Happens(old(Now()), e)
    {
      match e {
        case CallRead(count) => if readEnd && reader == Away { var d, o := ReadPipe(count); }
        case ResumeRead => if reader == Woken { var d, o := ReadPipe(wanted); }
        case CallWrite(data) => if writeEnd && writer == Away { var n, o := WritePipe(data, true); }
        case ResumeWrite => if writer == Woken { var n, o := WritePipe(pending, false); }
        case CloseRead => if readEnd && reader == Away { CloseEnd(Reader); }
        case CloseWrite => if writeEnd && writer == Away { CloseEnd(Writer); }
      }
    }

    /** Any interleaving: bytes come out in the order they went in, none lost or made up, at most 4095 are
        under way, and the two tasks are never both asleep; and every call does exactly what it should. */
    method Run(es: seq<Event>)
      requires Valid()
      modifies this, buf
      ensures Valid() && delivered <= written && |written| - |delivered| <= PAGE_SIZE - 1
      ensures Now() == After(old(Now()), es)
      ensures !(reader == Asleep && writer == Asleep)
      ensures reader == Asleep ==> delivered == written
    {
      for i := 0 to |es|
        invariant Valid() && Now() == After(old(Now()), es[..i])
      {
        assert es[..i + 1][..i] == es[..i];
        Step(es[i]);
      }
      assert es[..|es|] == es;
      assert Held() == [] <==> head == tail;
    }

    /** What a stretch of write_pipe by any task does to the ring: bytes in order until it is full. */
    method PutMost(data: seq<int>) returns (n: int)
      requires Fifo()
      modifies this`head, this`written, buf
      ensures Fifo() && 0 <= n <= |data| && written == old(written) + data[..n] && Held() == old(Held()) + data[..n]
      ensures n == |data| || |Held()| == PAGE_SIZE - 1
    {
      n := 0;
      while n < |data| && !Full(PAGE_SIZE, head, tail)
        invariant Fifo() && 0 <= n <= |data|
        invariant written == old(written) + data[..n] && Held() == old(Held()) + data[..n]
      {
        Put(data[n]);
        assert data[..n + 1] == data[..n] + [data[n]];
        n := n + 1;
      }
    }

    /** Any number of readers and writers, in any interleaving of their stretches: the bytes of all the writers
        come out once each, in the order they went in. */
    method AnyTasks(es: seq<Stretch>)
      requires Fifo()
      modifies this`head, this`tail, this`written, this`delivered, buf
      ensures Fifo() && delivered <= written && |written| - |delivered| <= PAGE_SIZE - 1
      ensures old(delivered) <= delivered && old(written) <= written
    {
      for i := 0 to |es|
        invariant Fifo() && old(delivered) <= delivered && old(written) <= written
      {
        match es[i] {
          case Reads(count) => var data := Take(count);
          case Writes(data) => var n := PutMost(data);
        }
      }
    }
  }
}

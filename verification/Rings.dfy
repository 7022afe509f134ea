/**
  The ring buffers of include/linux/fs.h (pipes, one page) and include/linux/tty.h (1024 bytes). One slot
  always stays free, so that head == tail means empty. Indices stay in range, where masking with the size
  minus one is a wrap from the end to 0.
 */
module Rings {

  predicate InRange(n: int, head: int, tail: int) { 0 <= head < n && 0 <= tail < n }

  function Inc(k: int, n: int): int { if k + 1 == n then 0 else k + 1 }

  function Dec(k: int, n: int): int { if k == 0 then n - 1 else k - 1 }

  /** PIPE_SIZE and CHARS: how many bytes the ring holds. */
  function Used(n: int, head: int, tail: int): int { if head >= tail then head - tail else head - tail + n }

  predicate Full(n: int, head: int, tail: int) { Used(n, head, tail) == n - 1 }

  function Slot(n: int, tail: int, i: int): int { if tail + i < n then tail + i else tail + i - n }

  /** The bytes of the ring, oldest first. */
  function Contents(buf: seq<int>, head: int, tail: int): (c: seq<int>)
    requires InRange(|buf|, head, tail)
    ensures |c| == Used(|buf|, head, tail)
  {
    seq(Used(|buf|, head, tail), i requires 0 <= i < Used(|buf|, head, tail) => buf[Slot(|buf|, tail, i)])
  }

  lemma PutContents(buf: seq<int>, head: int, tail: int, v: int)
    requires InRange(|buf|, head, tail) && !Full(|buf|, head, tail)
    ensures Contents(buf[head := v], Inc(head, |buf|), tail) == Contents(buf, head, tail) + [v]
  {
    var a, b := Contents(buf[head := v], Inc(head, |buf|), tail), Contents(buf, head, tail) + [v];
    assert |a| == |b|;
    forall i | 0 <= i < |a| ensures a[i] == b[i] { }
  }

  /** A byte put into a full ring makes it look empty: everything in it is lost. */
  lemma PutIntoFull(buf: seq<int>, head: int, tail: int, v: int)
    requires InRange(|buf|, head, tail) && Full(|buf|, head, tail)
    ensures Contents(buf[head := v], Inc(head, |buf|), tail) == []
  {
  }

  lemma GetContents(buf: seq<int>, head: int, tail: int)
    requires InRange(|buf|, head, tail) && head != tail
    ensures Contents(buf, head, tail) == [buf[tail]] + Contents(buf, head, Inc(tail, |buf|))
  {
    var a, b := Contents(buf, head, tail), [buf[tail]] + Contents(buf, head, Inc(tail, |buf|));
    assert |a| == |b|;
    forall i | 0 <= i < |a| ensures a[i] == b[i] { }
  }

  // ------------------------------------------------------------------ rings that are used without a check

  /** A ring by its contents and its other cells, both in the order in which they were written. */
  datatype Queue = Queue(q: seq<int>, stale: seq<int>)

  predicate QueueOk(n: int, x: Queue) { |x.q| + |x.stale| == n && |x.stale| >= 1 }

  /** All cells, from the oldest. */
  function Cells(x: Queue): seq<int> { x.stale + x.q }

  /** PUTCH, which looks at nothing: over a full ring it leaves an empty one. */
  function Pushed(x: Queue, c: int): (r: Queue)
    requires |x.stale| >= 1
    ensures |r.q| + |r.stale| == |x.q| + |x.stale| && |r.stale| >= 1 && Cells(r) == Cells(x)[1..] + [c]
  {
    if |x.stale| == 1 then Queue([], x.q + [c]) else Queue(x.q + [c], x.stale[1..])
  }

  /** The byte GETCH takes: on an empty ring the oldest one still lying in it. */
  function Oldest(x: Queue): int
    requires |x.stale| >= 1
  {
    if x.q != [] then x.q[0] else x.stale[0]
  }

  /** GETCH, which looks at nothing: on an empty ring the tail overtakes the head, and all but one of the cells
      count as contents. */
  function Pulled(x: Queue): (r: Queue)
    requires |x.stale| >= 1 && |x.q| + |x.stale| >= 2
    ensures |r.q| + |r.stale| == |x.q| + |x.stale| && |r.stale| >= 1 && Cells(r) == Cells(x)
  {
    if x.q != [] then Queue(x.q[1..], x.stale + [x.q[0]]) else Queue(x.stale[1..], [x.stale[0]])
  }

  /** DEC of the head: on an empty ring the head falls behind the tail. */
  function Unpushed(x: Queue): (r: Queue)
    requires |x.stale| >= 1 && |x.q| + |x.stale| >= 2
    ensures |r.q| + |r.stale| == |x.q| + |x.stale| && |r.stale| >= 1
  {
    var k, n := |x.q|, |x.stale|;
    if k > 0 then Queue(x.q[..k - 1], [x.q[k - 1]] + x.stale) else Queue(x.stale[..n - 1], [x.stale[n - 1]])
  }

  /** The other cells of the ring, oldest first. */
  function Unused(buf: seq<int>, head: int, tail: int): (c: seq<int>)
    requires InRange(|buf|, head, tail)
    ensures |c| == |buf| - Used(|buf|, head, tail)
  {
    var n := |buf| - Used(|buf|, head, tail);
    seq(n, i requires 0 <= i < n => buf[Slot(|buf|, head, i)])
  }

  /** The ring in an array. */
  function RingOf(buf: seq<int>, head: int, tail: int): (x: Queue)
    requires InRange(|buf|, head, tail)
    ensures QueueOk(|buf|, x)
  {
    Queue(Contents(buf, head, tail), Unused(buf, head, tail))
  }

  lemma PushedRing(buf: seq<int>, head: int, tail: int, v: int)
    requires InRange(|buf|, head, tail)
    ensures RingOf(buf[head := v], Inc(head, |buf|), tail) == Pushed(RingOf(buf, head, tail), v)
  {
    var a, b := RingOf(buf[head := v], Inc(head, |buf|), tail), Pushed(RingOf(buf, head, tail), v);
    assert |a.q| == |b.q| && |a.stale| == |b.stale|;
    forall i | 0 <= i < |a.q| ensures a.q[i] == b.q[i] { }
    forall i | 0 <= i < |a.stale| ensures a.stale[i] == b.stale[i] { }
  }

  lemma PulledRing(buf: seq<int>, head: int, tail: int)
    requires InRange(|buf|, head, tail) && |buf| >= 2
    ensures buf[tail] == Oldest(RingOf(buf, head, tail))
    ensures RingOf(buf, head, Inc(tail, |buf|)) == Pulled(RingOf(buf, head, tail))
  {
    var a, b := RingOf(buf, head, Inc(tail, |buf|)), Pulled(RingOf(buf, head, tail));
    assert |a.q| == |b.q| && |a.stale| == |b.stale|;
    forall i | 0 <= i < |a.q| ensures a.q[i] == b.q[i] { }
    forall i | 0 <= i < |a.stale| ensures a.stale[i] == b.stale[i] { }
  }

  lemma UnpushedRing(buf: seq<int>, head: int, tail: int)
    requires InRange(|buf|, head, tail) && |buf| >= 2
    ensures RingOf(buf, Dec(head, |buf|), tail) == Unpushed(RingOf(buf, head, tail))
    ensures head != tail ==> var q := Contents(buf, head, tail); q[|q| - 1] == buf[Dec(head, |buf|)]
  {
    var a, b := RingOf(buf, Dec(head, |buf|), tail), Unpushed(RingOf(buf, head, tail));
    assert |a.q| == |b.q| && |a.stale| == |b.stale|;
    forall i | 0 <= i < |a.q| ensures a.q[i] == b.q[i] { }
    forall i | 0 <= i < |a.stale| ensures a.stale[i] == b.stale[i] { }
  }
}

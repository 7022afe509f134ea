/**
  The reference for paging: a history of what tasks did, and what a word must then hold.

  `Recall` looks back through the history for the last thing that determined a word: the
  task's own store, the parent's word at the moment of the fork, or nothing (zero).  It is the
  flat per-task memory that fork copies eagerly, with no frames, tables or counts in it.
 */
module FlatMemory {

  const TASKS := 64
  const SPAN_DIRS := 16
  const WORDS := 1024
  /** Pages of low memory that task 0's child starts out with. */
  const BOOT_PAGES := 0xA0

  /** A word of a task's 64MB space: directory entry, page and word within it. */
  datatype Addr = Addr(k: int, i: int, w: int)

  predicate AddrOk(a: Addr) { 0 <= a.k < SPAN_DIRS && 0 <= a.i < WORDS && 0 <= a.w < WORDS }

  datatype Event =
    | Wrote(t: int, a: Addr, v: int)
    | Saw(t: int, a: Addr, v: int)
    | Forked(parent: int, child: int)
    | Vacated(t: int)                   // exit, exec or a fatal fault: the space is empty
    | Released(t: int)                  // the slot of a zombie is given back
    | Refused                           // an operation that did nothing

  /** Does this event itself determine words of task t? */
  predicate Touches(e: Event, t: int) {
    match e
    case Wrote(t', _, _) => t' == t
    case Forked(_, c) => c == t
    case Vacated(t') => t' == t
    case _ => false
  }

  function Recall(low: seq<seq<int>>, ev: seq<Event>, t: int, a: Addr): int
    decreases |ev|
  {
    if |ev| == 0 then
      if t == 0 && a.k == 0 && 0 <= a.i < BOOT_PAGES && a.i < |low| && 0 <= a.w < |low[a.i]| then low[a.i][a.w] else 0
    else
      var before := ev[..|ev| - 1];
      match ev[|ev| - 1]
      case Wrote(t', a', v) => if t' == t && a' == a then v else Recall(low, before, t, a)
      case Forked(p, c) => if c == t then Recall(low, before, p, a) else Recall(low, before, t, a)
      case Vacated(t') => if t' == t then 0 else Recall(low, before, t, a)
      case _ => Recall(low, before, t, a)
  }

  /** What other tasks do later never shows: only events that touch t change what t recalls. */
  lemma {:induction false} Isolation(low: seq<seq<int>>, ev: seq<Event>, more: seq<Event>, t: int, a: Addr)
    requires forall j :: 0 <= j < |more| ==> !Touches(more[j], t)
    ensures Recall(low, ev + more, t, a) == Recall(low, ev, t, a)
  {
    if more == [] {
      assert ev + more == ev;
    } else {
      var less := more[..|more| - 1];
      assert (ev + more)[..|ev + more| - 1] == ev + less;
      assert (ev + more)[|ev + more| - 1] == more[|more| - 1];
      assert !Touches(more[|more| - 1], t);
      Isolation(low, ev, less, t, a);
    }
  }

  /** A child keeps its parent's contents at fork time, whatever the parent does afterwards. */
  lemma ForkSnapshot(low: seq<seq<int>>, ev: seq<Event>, p: int, c: int, more: seq<Event>, a: Addr)
    requires forall j :: 0 <= j < |more| ==> !Touches(more[j], c)
    ensures Recall(low, ev + [Forked(p, c)] + more, c, a) == Recall(low, ev, p, a)
  {
    var forked := ev + [Forked(p, c)];
    Isolation(low, forked, more, c, a);
    assert forked[..|forked| - 1] == ev;
  }

  /** A task sees its own last store. */
  lemma OwnStore(low: seq<seq<int>>, ev: seq<Event>, t: int, a: Addr, v: int, more: seq<Event>)
    requires forall j :: 0 <= j < |more| ==> !Touches(more[j], t)
    ensures Recall(low, ev + [Wrote(t, a, v)] + more, t, a) == v
  {
    Isolation(low, ev + [Wrote(t, a, v)], more, t, a);
  }

  /** A space that has been vacated holds zeros until the task stores into it. */
  lemma VacatedIsZero(low: seq<seq<int>>, ev: seq<Event>, t: int, a: Addr, more: seq<Event>)
    requires forall j :: 0 <= j < |more| ==> !Touches(more[j], t)
    ensures Recall(low, ev + [Vacated(t)] + more, t, a) == 0
  {
    Isolation(low, ev + [Vacated(t)], more, t, a);
  }

  /** Every word a task was shown is the one the flat memory holds at that point of the history. */
  ghost predicate Consistent(low: seq<seq<int>>, ev: seq<Event>) {
    forall j :: 0 <= j < |ev| && ev[j].Saw? ==> ev[j].v == Recall(low, ev[..j], ev[j].t, ev[j].a)
  }

  lemma ConsistentExtend(low: seq<seq<int>>, ev: seq<Event>, e: Event)
    requires Consistent(low, ev) && (e.Saw? ==> e.v == Recall(low, ev, e.t, e.a))
    ensures Consistent(low, ev + [e])
  {
    forall j | 0 <= j < |ev + [e]| && (ev + [e])[j].Saw?
      ensures (ev + [e])[j].v == Recall(low, (ev + [e])[..j], (ev + [e])[j].t, (ev + [e])[j].a)
    {
      assert (ev + [e])[..j] == ev[..j];
      if j == |ev| { assert ev[..j] == ev; }
    }
  }

  lemma RecallStep(low: seq<seq<int>>, ev: seq<Event>, e: Event, t: int, a: Addr)
    ensures Recall(low, ev + [e], t, a) ==
              match e
              case Wrote(t', a', v) => if t' == t && a' == a then v else Recall(low, ev, t, a)
              case Forked(p, c) => if c == t then Recall(low, ev, p, a) else Recall(low, ev, t, a)
              case Vacated(t') => if t' == t then 0 else Recall(low, ev, t, a)
              case _ => Recall(low, ev, t, a)
  {
    assert (ev + [e])[..|ev + [e]| - 1] == ev;
  }
}

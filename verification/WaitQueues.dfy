/**
  sleep_on and wake_up (kernel/sched.c:114-128, 151-157).

  A wait queue is one task pointer; the rest of the queue is threaded through the local variable
  `tmp` of each sleeper, on its kernel stack.  The kernel is not preempted, so a task's code between
  two calls of schedule() is one step.  Queues here are used by sleep_on and wake_up only.
 */
module WaitQueues {

  const NONE := -1

  /** Where a task is: outside sleep_on, or inside with its saved queue pointer. */
  datatype Place = Outside | Inside(tmp: int)

  /** Who points at a sleeper: the head of a queue or the saved pointer of another task. */
  datatype Owner = Nobody | Head(q: int) | Saved(t: int)

  /** run, place and head are the kernel's; owner, stamp and clock only record who points where and
      in which order tasks went to sleep. */
  datatype State = State(run: seq<bool>, place: seq<Place>, head: seq<int>, owner: seq<Owner>, stamp: seq<int>,
    clock: int)

  datatype Label = Sleep(t: int, q: int) | Wake(q: int) | Resume(t: int)

  predicate IsTask(s: State, t: int) { 0 <= t < |s.run| && t < |s.place| && t < |s.owner| && t < |s.stamp| }

  predicate IsQueue(s: State, q: int) { 0 <= q < |s.head| }

  /** Task 0 may not sleep; a sleeping task does nothing; a woken one resumes inside sleep_on. */
  predicate Enabled(s: State, l: Label) {
    match l
    case Sleep(t, q) => IsTask(s, t) && t != 0 && IsQueue(s, q) && s.run[t] && s.place[t].Outside? &&
      IsSlot(s, s.head[q])
    case Wake(q) => IsQueue(s, q) && IsSlot(s, s.head[q])
    case Resume(t) => IsTask(s, t) && s.run[t] && s.place[t].Inside? && IsSlot(s, s.place[t].tmp)
  }

  predicate IsSlot(s: State, t: int) { t == NONE || IsTask(s, t) }

  function SetRun(s: State, t: int): State
    requires IsSlot(s, t)
  {
    if t == NONE then s else s.(run := s.run[t := true], owner := s.owner[t := Nobody])
  }

  function Apply(s: State, l: Label): State
    requires Enabled(s, l)
  {
    match l
    case Sleep(t, q) =>
      var was := s.head[q];
      var owner := if was == NONE then s.owner else s.owner[was := Saved(t)];
      State(s.run[t := false], s.place[t := Inside(was)], s.head[q := t], owner[t := Head(q)], s.stamp[t := s.clock],
        s.clock + 1)
    case Wake(q) => SetRun(s, s.head[q]).(head := s.head[q := NONE])
    case Resume(t) => SetRun(s, s.place[t].tmp).(place := s.place[t := Outside])
  }

  function Exec(s: State, ls: seq<Label>): State
    decreases |ls|
  {
    if ls == [] then s
    else
      var before := Exec(s, ls[..|ls| - 1]);
      if Enabled(before, ls[|ls| - 1]) then Apply(before, ls[|ls| - 1]) else before
  }

  // ------------------------------------------------------------------ no sleeper is lost

  predicate Sizes(s: State) { |s.run| == |s.place| == |s.owner| == |s.stamp| }

  /** A task that sleeps is pointed at from exactly one place; one that runs is pointed at from nowhere. */
  ghost predicate TaskOk(s: State, t: int)
    requires Sizes(s) && IsTask(s, t)
  {
    && (!s.run[t] ==> s.place[t].Inside? && s.owner[t] != Nobody)
    && (s.run[t] ==> s.owner[t] == Nobody)
    && s.stamp[t] < s.clock
    && (s.place[t].Inside? && s.place[t].tmp != NONE ==>
          IsTask(s, s.place[t].tmp) && s.owner[s.place[t].tmp] == Saved(t) && s.stamp[s.place[t].tmp] < s.stamp[t])
    && (match s.owner[t]
        case Nobody => true
        case Head(q) => IsQueue(s, q) && s.head[q] == t
        case Saved(u) => IsTask(s, u) && s.place[u] == Inside(t) && s.stamp[t] < s.stamp[u])
  }

  ghost predicate QueueOk(s: State, q: int)
    requires Sizes(s) && IsQueue(s, q)
  {
    s.head[q] != NONE ==> IsTask(s, s.head[q]) && s.owner[s.head[q]] == Head(q)
  }

  ghost predicate Inv(s: State) {
    && Sizes(s)
    && (forall t :: IsTask(s, t) ==> TaskOk(s, t))
    && (forall q :: IsQueue(s, q) ==> QueueOk(s, q))
  }

  lemma SleepKeeps(s: State, t: int, q: int)
    requires Inv(s) && Enabled(s, Sleep(t, q))
    ensures Inv(Apply(s, Sleep(t, q)))
  {
    var s' := Apply(s, Sleep(t, q));
    assert QueueOk(s, q) && TaskOk(s, t);
    forall u | IsTask(s', u) ensures TaskOk(s', u) { assert TaskOk(s, u); }
    forall p | IsQueue(s', p) ensures QueueOk(s', p) { assert QueueOk(s, p); }
  }

  lemma WakeKeeps(s: State, q: int)
    requires Inv(s) && Enabled(s, Wake(q))
    ensures Inv(Apply(s, Wake(q)))
  {
    var s' := Apply(s, Wake(q));
    assert QueueOk(s, q);
    forall u | IsTask(s', u) ensures TaskOk(s', u) { assert TaskOk(s, u); }
    forall p | IsQueue(s', p) ensures QueueOk(s', p) { assert QueueOk(s, p); }
  }

  lemma ResumeKeeps(s: State, t: int)
    requires Inv(s) && Enabled(s, Resume(t))
    ensures Inv(Apply(s, Resume(t)))
  {
    var s' := Apply(s, Resume(t));
    assert TaskOk(s, t);
    forall u | IsTask(s', u) ensures TaskOk(s', u) { assert TaskOk(s, u); }
    forall p | IsQueue(s', p) ensures QueueOk(s', p) { assert QueueOk(s, p); }
  }

  /** Every step keeps each sleeper reachable from exactly one place. */
  lemma StepKeeps(s: State, l: Label)
    requires Inv(s) && Enabled(s, l)
    ensures Inv(Apply(s, l))
  {
    match l
    case Sleep(t, q) => SleepKeeps(s, t, q);
    case Wake(q) => WakeKeeps(s, q);
    case Resume(t) => ResumeKeeps(s, t);
  }

  /** Nobody asleep, all queues empty. */
  function Initial(tasks: nat, queues: nat): (s: State)
    ensures |s.run| == |s.place| == |s.owner| == |s.stamp| == tasks && |s.head| == queues
    ensures forall t :: 0 <= t < tasks ==> s.run[t] && s.place[t] == Outside && s.owner[t] == Nobody && s.stamp[t] == 0
    ensures forall q :: 0 <= q < queues ==> s.head[q] == NONE
    ensures s.clock == 1
  {
    State(seq(tasks, _ => true), seq(tasks, _ => Outside), seq(queues, _ => NONE), seq(tasks, _ => Nobody),
      seq(tasks, _ => 0), 1)
  }

  lemma {:induction false} ExecKeeps(s: State, ls: seq<Label>)
    requires Inv(s)
    ensures Inv(Exec(s, ls))
    decreases |ls|
  {
    if ls != [] {
      ExecKeeps(s, ls[..|ls| - 1]);
      var before := Exec(s, ls[..|ls| - 1]);
      if Enabled(before, ls[|ls| - 1]) { StepKeeps(before, ls[|ls| - 1]); }
    }
  }

  // ------------------------------------------------------------------ following the links up

  /** The root of a sleeper's chain: the queue whose head it hangs from, or a woken task still inside sleep_on. */
  ghost function Root(s: State, t: int): Owner
    requires Inv(s) && IsTask(s, t)
    decreases s.clock - s.stamp[t]
  {
    assert TaskOk(s, t);
    match s.owner[t]
    case Nobody => Saved(t)
    case Head(q) => Head(q)
    case Saved(u) => assert TaskOk(s, u); Root(s, u)
  }

  /** How many links lie between a task and its root. */
  ghost function Links(s: State, t: int): nat
    requires Inv(s) && IsTask(s, t)
    decreases s.clock - s.stamp[t]
  {
    assert TaskOk(s, t);
    match s.owner[t]
    case Nobody => 0
    case Head(_) => 0
    case Saved(u) => assert TaskOk(s, u); 1 + Links(s, u)
  }

  /** Every sleeper hangs from a queue head or from a runnable task that is still inside sleep_on. */
  lemma {:induction false} SleeperHasRoot(s: State, t: int)
    requires Inv(s) && IsTask(s, t) && !s.run[t]
    ensures match Root(s, t)
            case Nobody => false
            case Head(q) => IsQueue(s, q) && s.head[q] != NONE
            case Saved(u) => IsTask(s, u) && s.run[u] && s.place[u].Inside? && u != t
    ensures Root(s, t).Saved? ==> Links(s, t) >= 1
    decreases s.clock - s.stamp[t]
  {
    assert TaskOk(s, t);
    match s.owner[t]
    case Nobody =>
    case Head(q) =>
    case Saved(u) =>
      assert TaskOk(s, u);
      if s.run[u] {
        assert Root(s, u) == Saved(u) && Links(s, u) == 0;
      } else {
        SleeperHasRoot(s, u);
        RootLater(s, u);
      }
  }

  /** The root task of a chain went to sleep after the tasks below it. */
  lemma {:induction false} RootLater(s: State, t: int)
    requires Inv(s) && IsTask(s, t)
    ensures Root(s, t).Saved? ==>
              IsTask(s, Root(s, t).t) && s.stamp[t] <= s.stamp[Root(s, t).t] && s.owner[Root(s, t).t] == Nobody
    decreases s.clock - s.stamp[t]
  {
    assert TaskOk(s, t);
    match s.owner[t]
    case Nobody =>
    case Head(q) =>
    case Saved(u) => assert TaskOk(s, u); RootLater(s, u);
  }

  /** Over every run: each uninterruptible sleeper is reached through saved pointers from one queue head or
      from one woken task that has yet to resume. */
  lemma NoneLost(tasks: nat, queues: nat, ls: seq<Label>, t: int)
    requires 0 <= t < tasks
    ensures var s := Exec(Initial(tasks, queues), ls);
            && Inv(s) && |s.run| == tasks
            && (!s.run[t] ==>
                  match Root(s, t)
                  case Nobody => false
                  case Head(q) => IsQueue(s, q) && s.head[q] != NONE
                  case Saved(u) => IsTask(s, u) && s.run[u] && s.place[u].Inside? && u != t)
  {
    var s0 := Initial(tasks, queues);
    ExecKeeps(s0, ls);
    ExecSize(s0, ls);
    var s := Exec(s0, ls);
    if !s.run[t] { SleeperHasRoot(s, t); }
  }

  lemma {:induction false} ExecSize(s: State, ls: seq<Label>)
    ensures |Exec(s, ls).run| == |s.run|
    decreases |ls|
  {
    if ls != [] { ExecSize(s, ls[..|ls| - 1]); }
  }

  // ------------------------------------------------------------------ waking up a whole queue

  /** wake_up turns the chain of its queue into one rooted at the woken head, with the same links. */
  lemma {:induction false} WakeMovesRoot(s: State, q: int, t: int)
    requires Inv(s) && Enabled(s, Wake(q)) && IsTask(s, t) && Root(s, t) == Head(q)
    ensures Inv(Apply(s, Wake(q))) && s.head[q] != NONE
    ensures IsTask(Apply(s, Wake(q)), t) && Root(Apply(s, Wake(q)), t) == Saved(s.head[q])
    ensures Links(Apply(s, Wake(q)), t) == Links(s, t)
    decreases s.clock - s.stamp[t]
  {
    StepKeeps(s, Wake(q));
    assert TaskOk(s, t) && QueueOk(s, q);
    match s.owner[t]
    case Nobody =>
    case Head(_) =>
    case Saved(u) => assert TaskOk(s, u); WakeMovesRoot(s, q, u);
  }

  /** A task in a woken chain comes one link closer with each resume of its root, and no other step by
      anyone moves it back: it stays in the chain of that root or is already running. */
  lemma {:induction false} WokenProgress(s: State, l: Label, t: int)
    requires Inv(s) && Enabled(s, l) && IsTask(s, t) && !s.run[t] && Root(s, t).Saved?
    ensures Inv(Apply(s, l)) && IsTask(Apply(s, l), t)
    ensures l == Resume(Root(s, t).t) && Links(s, t) == 1 ==> Apply(s, l).run[t]
    ensures l == Resume(Root(s, t).t) && Links(s, t) > 1 ==>
              !Apply(s, l).run[t] && Root(Apply(s, l), t).Saved? && Links(Apply(s, l), t) == Links(s, t) - 1
    ensures l != Resume(Root(s, t).t) ==>
              !Apply(s, l).run[t] && Root(Apply(s, l), t) == Root(s, t) && Links(Apply(s, l), t) == Links(s, t)
    decreases s.clock - s.stamp[t]
  {
    StepKeeps(s, l);
    SleeperHasRoot(s, t);
    assert TaskOk(s, t);
    var u := s.owner[t].t;
    assert TaskOk(s, u);
    var s' := Apply(s, l);
    assert TaskOk(s', t) && TaskOk(s', u);
    if !s.run[u] {
      SleeperHasRoot(s, u);
      WokenProgress(s, l, u);
      StillLinked(s, l, t, u);
    } else {
      assert Root(s, u) == Saved(u);
      RunningRoot(s, l, t, u);
    }
  }

  /** A link to a sleeper below a sleeping task is not touched by any step. */
  lemma StillLinked(s: State, l: Label, t: int, u: int)
    requires Inv(s) && Enabled(s, l) && IsTask(s, t) && IsTask(s, u) && s.owner[t] == Saved(u) && !s.run[u] && !s.run[t]
    ensures Apply(s, l).owner[t] == Saved(u) && !Apply(s, l).run[t] && Apply(s, l).stamp[t] == s.stamp[t]
  {
    assert TaskOk(s, t) && TaskOk(s, u);
    match l
    case Sleep(_, q) => assert QueueOk(s, q);
    case Wake(q) => assert QueueOk(s, q);
    case Resume(v) => assert TaskOk(s, v);
  }

  lemma RunningRoot(s: State, l: Label, t: int, u: int)
    requires Inv(s) && Enabled(s, l) && IsTask(s, t) && IsTask(s, u) && s.owner[t] == Saved(u) && s.run[u] && !s.run[t]
    ensures l == Resume(u) ==> Apply(s, l).run[t]
    ensures l != Resume(u) ==>
              && Apply(s, l).owner[t] == Saved(u) && !Apply(s, l).run[t]
              && Apply(s, l).run[u] && Apply(s, l).owner[u] == Nobody
  {
    assert TaskOk(s, t) && TaskOk(s, u);
    match l
    case Sleep(_, q) => assert QueueOk(s, q);
    case Wake(q) => assert QueueOk(s, q);
    case Resume(v) => assert TaskOk(s, v);
  }

  // ------------------------------------------------------------------ one resume per link

  function Next(s: State, l: Label): State { if Enabled(s, l) then Apply(s, l) else s }

  /** Task t stays asleep through the whole run. */
  predicate AsleepThrough(s: State, ls: seq<Label>, t: int)
    decreases |ls|
  {
    IsTask(s, t) && !s.run[t] && (ls == [] || AsleepThrough(Next(s, ls[0]), ls[1..], t))
  }

  /** How many steps of the run are resumes of the task t's chain hangs from at that moment. */
  ghost function RootResumes(s: State, ls: seq<Label>, t: int): nat
    decreases |ls|
  {
    if ls == [] then 0
    else (if Inv(s) && IsTask(s, t) && Enabled(s, ls[0]) && Root(s, t).Saved? && ls[0] == Resume(Root(s, t).t) then 1
      else 0)
         + RootResumes(Next(s, ls[0]), ls[1..], t)
  }

  /** A task whose chain has been woken sleeps through fewer resumes of its root than it has links: after
      one resume per link it is runnable, whatever else happens in between. */
  lemma {:induction false} AwakeAfterLinks(s: State, ls: seq<Label>, t: int)
    requires Inv(s) && IsTask(s, t) && Root(s, t).Saved? && AsleepThrough(s, ls, t)
    ensures RootResumes(s, ls, t) < Links(s, t)
    decreases |ls|
  {
    SleeperHasRoot(s, t);
    if ls != [] {
      var l := ls[0];
      if Enabled(s, l) {
        WokenProgress(s, l, t);
      }
      AwakeAfterLinks(Next(s, l), ls[1..], t);
    }
  }

  /** The promise of wake_up: any task then on the queue, at depth n, is runnable once its successive
      roots have resumed n times. */
  lemma WakeReachesAll(s: State, q: int, t: int, ls: seq<Label>)
    requires Inv(s) && Enabled(s, Wake(q)) && IsTask(s, t) && !s.run[t] && Root(s, t) == Head(q)
    requires RootResumes(Apply(s, Wake(q)), ls, t) >= Links(s, t)
    ensures !AsleepThrough(Apply(s, Wake(q)), ls, t)
  {
    WakeMovesRoot(s, q, t);
    var s' := Apply(s, Wake(q));
    if AsleepThrough(s', ls, t) { AwakeAfterLinks(s', ls, t); }
  }
}

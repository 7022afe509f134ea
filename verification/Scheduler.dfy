/**
  The scheduler of kernel/sched.c: counters count down under ticks, schedule() picks the largest, and
  when all runnable counters are used up every task is recharged from its priority.
 */
module Scheduler {

  const NR_TASKS := 64

  datatype Slot = Empty | Task(running: bool, counter: int, priority: int)

  predicate Table(ts: seq<Slot>) { |ts| == NR_TASKS }

  predicate Runnable(x: Slot) { x.Task? && x.running }

  // ------------------------------------------------------------------ choosing

  /** The choice among tasks lo..63, scanned from the last down: largest counter, then highest slot. */
  function Choose(ts: seq<Slot>, lo: int): (r: (int, int))
    requires Table(ts) && 1 <= lo <= NR_TASKS
    decreases NR_TASKS - lo
  {
    if lo == NR_TASKS then (-1, 0)
    else
      var r := Choose(ts, lo + 1);
      if Runnable(ts[lo]) && ts[lo].counter > r.0 then (ts[lo].counter, lo) else r
  }

  /** The choice is a runnable task of largest counter, the one in the highest slot among equals. */
  lemma {:induction false} ChooseIsLargest(ts: seq<Slot>, lo: int)
    requires Table(ts) && 1 <= lo <= NR_TASKS
    requires forall t :: lo <= t < NR_TASKS && Runnable(ts[t]) ==> ts[t].counter >= 0
    ensures var r := Choose(ts, lo);
            && (r.0 == -1 <==> forall t :: lo <= t < NR_TASKS ==> !Runnable(ts[t]))
            && (r.0 == -1 ==> r.1 == 0)
            && (r.0 != -1 ==> r.0 >= 0 && lo <= r.1 < NR_TASKS && Runnable(ts[r.1]) && ts[r.1].counter == r.0)
            && (forall t :: lo <= t < NR_TASKS && Runnable(ts[t]) ==> ts[t].counter <= r.0)
            && (forall t :: lo <= t < NR_TASKS && Runnable(ts[t]) && t > r.1 ==> ts[t].counter < r.0)
    decreases NR_TASKS - lo
  {
    if lo < NR_TASKS { ChooseIsLargest(ts, lo + 1); }
  }

  /** The choice among all tasks but task 0. */
  function Best(ts: seq<Slot>): (int, int)
    requires Table(ts)
  {
    // the table is never empty: the start is 1, not written as a literal so that Choose is not unrolled from it
    Choose(ts, if |ts| > 0 then 1 else 0)
  }

  lemma BestIsLargest(ts: seq<Slot>)
    requires Table(ts) && forall t :: 1 <= t < NR_TASKS && Runnable(ts[t]) ==> ts[t].counter >= 0
    ensures var r := Best(ts);
            && (r.0 == -1 <==> forall t :: 1 <= t < NR_TASKS ==> !Runnable(ts[t]))
            && (r.0 == -1 ==> r.1 == 0)
            && (r.0 != -1 ==> r.0 >= 0 && 1 <= r.1 < NR_TASKS && Runnable(ts[r.1]) && ts[r.1].counter == r.0)
            && (forall t :: 1 <= t < NR_TASKS && Runnable(ts[t]) ==> ts[t].counter <= r.0)
            && (forall t :: 1 <= t < NR_TASKS && Runnable(ts[t]) && t > r.1 ==> ts[t].counter < r.0)
  {
    ChooseIsLargest(ts, if |ts| > 0 then 1 else 0);
  }

  function RechargedSlot(x: Slot): Slot {
    if x.Task? then x.(counter := x.counter / 2 + x.priority) else x
  }

  /** Every task but task 0, runnable or not. */
  function Recharged(ts: seq<Slot>): (r: seq<Slot>)
    ensures |r| == |ts| && forall t :: 0 <= t < |ts| ==> r[t] == if t == 0 then ts[t] else RechargedSlot(ts[t])
  {
    seq(|ts|, t requires 0 <= t < |ts| => if t == 0 then ts[t] else RechargedSlot(ts[t]))
  }

  /** What a recharge gives a task: its priority on top of half of what it had left, an odd tick rounded down.
      Nothing else of the task changes, and an empty slot stays empty. */
  predicate Gains(x: Slot, y: Slot) {
    && SameTask(y, x)
    && (x.Task? ==> 2 * (y.counter - x.priority) == x.counter || 2 * (y.counter - x.priority) == x.counter - 1)
  }

  /** The tables before and after a recharge: task 0 is left out of it. */
  ghost predicate GainsAll(a: seq<Slot>, b: seq<Slot>) {
    Table(a) && Table(b) && b[0] == a[0] && forall t :: 1 <= t < NR_TASKS ==> Gains(a[t], b[t])
  }

  lemma RechargeGains(ts: seq<Slot>)
    requires Table(ts)
    ensures GainsAll(ts, Recharged(ts))
  {
    var r := Recharged(ts);
    forall t | 1 <= t < NR_TASKS ensures Gains(ts[t], r[t]) { assert r[t] == RechargedSlot(ts[t]); }
  }

  /** What sys_nice and fork keep: priorities at least 1, counters never negative. */
  predicate SlotOk(x: Slot) { x.Task? ==> x.priority >= 1 && 0 <= x.counter }

  ghost predicate Positive(ts: seq<Slot>) { Table(ts) && forall t :: 0 <= t < NR_TASKS ==> SlotOk(ts[t]) }

  predicate Within(x: Slot) { x.Task? ==> x.counter <= 2 * x.priority - 1 }

  /** From table a to table b no priority has changed, and no counter has left its bound. */
  ghost predicate KeepsBound(a: seq<Slot>, b: seq<Slot>) {
    && Table(a) && Table(b)
    && (forall t :: 0 <= t < NR_TASKS ==> SameTask(b[t], a[t]))
    && (forall t :: 0 <= t < NR_TASKS && Within(a[t]) ==> Within(b[t]))
  }

  predicate Exhausted(ts: seq<Slot>)
    requires Table(ts)
  {
    Best(ts).0 == 0
  }

  /** The task table after schedule(): recharged when every runnable counter was 0. */
  function Scheduled(ts: seq<Slot>): (r: seq<Slot>)
    requires Table(ts)
    ensures Table(r)
  {
    if Exhausted(ts) then Recharged(ts) else ts
  }

  /** A sleeping task's counter approaches twice its priority and never reaches it. */
  lemma ScheduleKeepsBound(ts: seq<Slot>)
    requires Positive(ts)
    ensures Positive(Scheduled(ts)) && KeepsBound(ts, Scheduled(ts))
  {
    var r := Recharged(ts);
    forall t | 0 <= t < NR_TASKS ensures SlotOk(r[t]) && SameTask(r[t], ts[t]) && (Within(ts[t]) ==> Within(r[t])) {
      assert r[t] == if t == 0 then ts[t] else RechargedSlot(ts[t]);
    }
  }

  /** One recharge is enough: afterwards the largest runnable counter is not 0, so the loop ends. */
  lemma RechargeOnce(ts: seq<Slot>)
    requires Positive(ts)
    ensures !Exhausted(Scheduled(ts)) && Positive(Scheduled(ts))
  {
    ScheduleKeepsBound(ts);
    BestIsLargest(ts);
    if Exhausted(ts) {
      var r := Recharged(ts);
      BestIsLargest(r);
      var t := Best(ts).1;
      assert Runnable(r[t]) && r[t].counter >= 1;
    }
  }

  // ------------------------------------------------------------------ the code

  class Machine {
    const task: array<Slot>
    var current: int

    ghost predicate Valid()
      reads this, task
    {
      Positive(task[..]) && task[0].Task? && 0 <= current < NR_TASKS && task[current].Task?
    }

    /** Task 0 alone. */
    constructor ()
      ensures Valid() && fresh(task) && current == 0
    {
      task := new Slot[NR_TASKS](t => if t == 0 then Task(true, 15, 15) else Empty);
      current := 0;
    }

    /** The selection loop (sched.c:88-97). */
    method Select() returns (c: int, next: int)
      requires task.Length == NR_TASKS
      ensures (c, next) == Best(task[..])
    {
      c, next := -1, 0;
      var i := NR_TASKS;
      while i > 1
        invariant 1 <= i <= NR_TASKS && (c, next) == Choose(task[..], i)
      {
        i := i - 1;
        if task[i].Task? && task[i].running && task[i].counter > c {
          c, next := task[i].counter, i;
        }
      }
    }

    /** The recharge loop (sched.c:99-102). */
    method Recharge()
      requires task.Length == NR_TASKS
      modifies task
      ensures task[..] == Recharged(old(task[..])) && GainsAll(old(task[..]), task[..])
    {
      RechargeGains(task[..]);
      var p := NR_TASKS - 1;
      while p > 0
        invariant 0 <= p < NR_TASKS
        invariant forall t :: 0 <= t < NR_TASKS ==> task[t] == if t > p then RechargedSlot(old(task[..])[t])
                  else old(task[..])[t]
      {
        if task[p].Task? {
          task[p] := task[p].(counter := task[p].counter / 2 + task[p].priority);
        }
        p := p - 1;
      }
    }

    /** schedule(): its loop recharges at most once (sched.c:87-104). */
    method Schedule() returns (recharges: int)
      requires Valid()
      modifies this, task
      ensures Valid() && 0 <= recharges <= 1
      ensures recharges == 1 <==> Exhausted(old(task[..]))
      ensures task[..] == Scheduled(old(task[..])) && current == NextTask(task[..])
      ensures if recharges == 1 then GainsAll(old(task[..]), task[..]) else task[..] == old(task[..])
      ensures KeepsBound(old(task[..]), task[..])
    {
      ghost var ts := task[..];
      RechargeGains(ts);
      ScheduleKeepsBound(ts);
      RechargeOnce(ts);
      recharges := 0;
      var c, next := Select();
      while c == 0
        invariant 0 <= recharges <= 1 && task[..] == (if recharges == 0 then ts else Recharged(ts))
        invariant (c, next) == Best(task[..]) && (recharges == 1 ==> Exhausted(ts))
        decreases 1 - recharges
      {
        Recharge();
        recharges := recharges + 1;
        c, next := Select();
      }
      BestIsLargest(task[..]);
      current := next;
    }

    /** do_timer (sched.c:159-169); the accounting of user and system time is left out. */
    method DoTimer(userMode: bool) returns (recharges: int)
      requires Valid()
      modifies this, task
      ensures Valid() && 0 <= recharges <= 1
      ensures !userMode || old(task[current]).counter > 1 ==>
                recharges == 0 && current == old(current) && task[..] == CountDown(old(task[..]), current)
      ensures userMode && old(task[current]).counter <= 1 ==>
                && task[..] == Scheduled(CountDown(old(task[..]), old(current)))
                && current == NextTask(task[..])
                && (recharges == 1 <==> Exhausted(CountDown(old(task[..]), old(current))))
      ensures KeepsBound(old(task[..]), task[..])
    {
      recharges := 0;
      var x := task[current];
      var counter := x.counter - 1;
      task[current] := x.(counter := counter);
      if counter > 0 {
        assert task[..] == CountDown(old(task[..]), current);
        return;
      }
      task[current] := x.(counter := 0);
      assert task[..] == CountDown(old(task[..]), current);
      if !userMode { return; }
      recharges := Schedule();
    }

    /** sys_nice: the priority stays at least 1 (sched.c:207-212). */
    method SysNice(increment: int)
      requires Valid()
      modifies task
      ensures Valid()
      ensures task[current] == (var x := old(task[current]);
                if x.priority - increment > 0 then x.(priority := x.priority - increment) else x)
      ensures forall t :: 0 <= t < NR_TASKS && t != current ==> task[t] == old(task[t])
    {
      var x := task[current];
      if x.priority - increment > 0 {
        task[current] := x.(priority := x.priority - increment);
      }
    }
  }

  /** The task switch_to goes to: task 0 when nothing is runnable. */
  function NextTask(ts: seq<Slot>): int
    requires Table(ts)
  {
    Best(ts).1
  }

  /** One tick on the current task. */
  function CountDown(ts: seq<Slot>, cur: int): (r: seq<Slot>)
    requires Table(ts) && 0 <= cur < NR_TASKS && ts[cur].Task?
    ensures Table(r)
  {
    ts[cur := ts[cur].(counter := if ts[cur].counter - 1 > 0 then ts[cur].counter - 1 else 0)]
  }

  // ------------------------------------------------------------------ proportional share

  /** The machine under user-mode ticks, with how often each task ran and how often all were recharged. */
  datatype Run = Run(ts: seq<Slot>, cur: int, ran: seq<int>, recharges: int)

  ghost predicate RunOk(r: Run) {
    Positive(r.ts) && r.ts[0].Task? && |r.ran| == NR_TASKS && 0 <= r.cur < NR_TASKS && r.ts[r.cur].Task?
  }

  /** do_timer in user mode, as DoTimer above computes it. */
  ghost function Tick(r: Run): Run
    requires RunOk(r)
  {
    var down := CountDown(r.ts, r.cur);
    var ran := r.ran[r.cur := r.ran[r.cur] + 1];
    if r.ts[r.cur].counter > 1 then Run(down, r.cur, ran, r.recharges)
    else Run(Scheduled(down), NextTask(Scheduled(down)), ran, r.recharges + (if Exhausted(down) then 1 else 0))
  }

  /** The counters left to runnable tasks below k. */
  ghost function Left(ts: seq<Slot>, k: int): int
    requires Table(ts) && 1 <= k <= NR_TASKS
  {
    if k == 1 then 0 else Left(ts, k - 1) + (if Runnable(ts[k - 1]) then ts[k - 1].counter else 0)
  }

  lemma {:induction false} LeftNonNegative(ts: seq<Slot>, k: int)
    requires Positive(ts) && 1 <= k <= NR_TASKS
    ensures Left(ts, k) >= 0
    ensures Left(ts, k) == 0 <==> forall t :: 1 <= t < k && Runnable(ts[t]) ==> ts[t].counter == 0
  {
    if k > 1 { LeftNonNegative(ts, k - 1); }
  }

  lemma {:induction false} LeftAfterTick(ts: seq<Slot>, cur: int, k: int)
    requires Positive(ts) && 1 <= cur < NR_TASKS && Runnable(ts[cur]) && ts[cur].counter >= 1 && 1 <= k <= NR_TASKS
    ensures Left(CountDown(ts, cur), k) == Left(ts, k) - (if cur < k then 1 else 0)
  {
    if k > 1 { LeftAfterTick(ts, cur, k - 1); }
  }

  /** Within an epoch: the current task still has time, and what a runnable task ran plus what it has left
      is its priority. */
  ghost predicate InEpoch(r: Run, start: seq<Slot>) {
    && RunOk(r) && Table(start)
    && 1 <= r.cur && Runnable(r.ts[r.cur]) && r.ts[r.cur].counter >= 1
    && (forall t :: 1 <= t < NR_TASKS ==> SameTask(r.ts[t], start[t]))
    && (forall t :: 1 <= t < NR_TASKS && Runnable(start[t]) ==> r.ran[t] + r.ts[t].counter == start[t].priority)
  }

  predicate SameTask(x: Slot, y: Slot) {
    x.Task? == y.Task? && (x.Task? ==> x.running == y.running && x.priority == y.priority)
  }

  /** The state just after schedule() recharged a table whose runnable counters were all 0. */
  ghost predicate EpochStart(r: Run, before: seq<Slot>) {
    && Positive(before) && before[0].Task? && Exhausted(before)
    && r == Run(Recharged(before), NextTask(Recharged(before)), seq(NR_TASKS, _ => 0), 0)
  }

  lemma StartInEpoch(r: Run, before: seq<Slot>)
    requires EpochStart(r, before)
    ensures InEpoch(r, r.ts)
  {
    RechargeOnce(before);
    BestIsLargest(before);
    BestIsLargest(r.ts);
    forall t | 1 <= t < NR_TASKS && Runnable(r.ts[t]) ensures r.ts[t].counter == r.ts[t].priority {
      assert Runnable(before[t]) && before[t].counter == 0;
    }
  }

  /** The table after the tick's countdown. */
  lemma DownInEpoch(r: Run, start: seq<Slot>)
    requires InEpoch(r, start)
    ensures var down := CountDown(r.ts, r.cur);
            && Positive(down) && Left(down, |down|) == Left(r.ts, |r.ts|) - 1 >= 0
            && (Exhausted(down) <==> Left(down, |down|) == 0)
            && (forall t :: 1 <= t < NR_TASKS ==> SameTask(down[t], start[t]))
            && (forall t :: 1 <= t < NR_TASKS && Runnable(start[t]) ==>
                  r.ran[r.cur := r.ran[r.cur] + 1][t] + down[t].counter == start[t].priority)
  {
    var down := CountDown(r.ts, r.cur);
    LeftAfterTick(r.ts, r.cur, |r.ts|);
    assert Positive(down);
    LeftNonNegative(down, |down|);
    BestIsLargest(down);
    assert Runnable(down[r.cur]);
  }

  /** A tick that leaves time to somebody recharges nothing and stays in the epoch. */
  lemma TickInEpoch(r: Run, start: seq<Slot>)
    requires InEpoch(r, start) && Left(r.ts, |r.ts|) > 1
    ensures InEpoch(Tick(r), start) && Tick(r).recharges == r.recharges
    ensures Left(Tick(r).ts, |r.ts|) == Left(r.ts, |r.ts|) - 1
  {
    var down := CountDown(r.ts, r.cur);
    DownInEpoch(r, start);
    BestIsLargest(down);
  }

  /** The last tick of the epoch recharges, and then every runnable task has run exactly its priority. */
  lemma LastTick(r: Run, start: seq<Slot>)
    requires InEpoch(r, start) && Left(r.ts, |r.ts|) == 1
    ensures Tick(r).recharges == r.recharges + 1
    ensures forall t :: 1 <= t < NR_TASKS && Runnable(start[t]) ==> Tick(r).ran[t] == start[t].priority
  {
    var down := CountDown(r.ts, r.cur);
    DownInEpoch(r, start);
    BestIsLargest(down);
    assert Runnable(down[r.cur]) && down[r.cur].counter == 0;
  }

  ghost function Ticks(r: Run, n: nat): Run
    requires RunOk(r)
    ensures RunOk(Ticks(r, n))
    decreases n
  {
    if n == 0 then r else (TickOk(Ticks(r, n - 1)); Tick(Ticks(r, n - 1)))
  }

  lemma TickOk(r: Run)
    requires RunOk(r)
    ensures RunOk(Tick(r)) && KeepsBound(r.ts, Tick(r).ts)
  {
    var down := CountDown(r.ts, r.cur);
    assert KeepsBound(r.ts, down);
    ScheduleKeepsBound(down);
    KeepsBoundChain(r.ts, down, Scheduled(down));
    RechargeOnce(down);
    BestIsLargest(Scheduled(down));
  }

  lemma KeepsBoundChain(a: seq<Slot>, b: seq<Slot>, c: seq<Slot>)
    requires KeepsBound(a, b) && KeepsBound(b, c)
    ensures KeepsBound(a, c)
  {
    forall t | 0 <= t < NR_TASKS ensures SameTask(c[t], a[t]) && (Within(a[t]) ==> Within(c[t])) {
      assert SameTask(b[t], a[t]) && SameTask(c[t], b[t]);
    }
  }

  /** Over any number of ticks, a counter that is at most 2 * priority - 1 stays so. */
  lemma {:induction false} BoundKept(r: Run, n: nat)
    requires RunOk(r)
    ensures KeepsBound(r.ts, Ticks(r, n).ts)
    decreases n
  {
    if n > 0 {
      BoundKept(r, n - 1);
      TickOk(Ticks(r, n - 1));
      KeepsBoundChain(r.ts, Ticks(r, n - 1).ts, Ticks(r, n).ts);
    }
  }

  /** State q, n ticks into the epoch that r begins. */
  ghost predicate AtTick(r: Run, q: Run, n: nat) {
    && RunOk(r) && InEpoch(q, r.ts) && q.recharges == 0
    && Left(q.ts, |q.ts|) == Left(r.ts, |r.ts|) - n
  }

  lemma AtNextTick(r: Run, q: Run, n: nat)
    requires AtTick(r, q, n) && n + 1 < Left(r.ts, |r.ts|)
    ensures AtTick(r, Tick(q), n + 1)
  {
    TickInEpoch(q, r.ts);
  }

  lemma {:induction false} EpochTicks(r: Run, n: nat)
    requires AtTick(r, r, 0) && n < Left(r.ts, |r.ts|)
    ensures AtTick(r, Ticks(r, n), n)
    decreases n
  {
    if n > 0 {
      EpochTicks(r, n - 1);
      AtNextTick(r, Ticks(r, n - 1), n - 1);
    }
  }

  /** The tick after q ends the epoch that r began: it recharges, and every runnable task has by then run
      exactly its priority. */
  ghost predicate EpochEnds(r: Run, q: Run) {
    && RunOk(r) && RunOk(q) && q.recharges == 1
    && forall t :: 1 <= t < NR_TASKS && Runnable(r.ts[t]) ==> q.ran[t] == r.ts[t].priority
  }

  lemma LastEnds(r: Run, q: Run, n: nat)
    requires n >= 1 && AtTick(r, q, n - 1) && n == Left(r.ts, |r.ts|)
    ensures EpochEnds(r, Tick(q))
  {
    LastTick(q, r.ts);
    TickOk(q);
  }

  lemma StartAtTick(r: Run, before: seq<Slot>)
    requires EpochStart(r, before)
    ensures AtTick(r, r, 0) && Left(r.ts, |r.ts|) >= 1
  {
    StartInEpoch(r, before);
    DownInEpoch(r, r.ts);
  }

  lemma AllTicks(r: Run, n: nat)
    requires AtTick(r, r, 0) && n == Left(r.ts, |r.ts|) && n >= 1
    ensures forall k: nat :: k < n ==> Ticks(r, k).recharges == 0
    ensures EpochEnds(r, Ticks(r, n))
  {
    forall k: nat | k < n ensures Ticks(r, k).recharges == 0 { NoRecharge(r, k); }
    EndReached(r, n - 1);
  }

  lemma NoRecharge(r: Run, k: nat)
    requires AtTick(r, r, 0) && k < Left(r.ts, |r.ts|)
    ensures Ticks(r, k).recharges == 0
  {
    EpochTicks(r, k);
  }

  lemma TicksNext(r: Run, k: nat)
    requires RunOk(r)
    ensures Ticks(r, k + 1) == Tick(Ticks(r, k))
  {
  }

  lemma EndReached(r: Run, k: nat)
    requires AtTick(r, r, 0) && k + 1 == Left(r.ts, |r.ts|)
    ensures EpochEnds(r, Ticks(r, k + 1))
  {
    TicksNext(r, k);
    EpochTicks(r, k);
    var q := Ticks(r, k);
    LastEnds(r, q, k + 1);
  }

  /** Between two consecutive recharges, with the same tasks runnable throughout, each runnable task runs
      exactly `priority` ticks; the epoch lasts as many ticks as their priorities add up to. */
  lemma ProportionalShare(r: Run, before: seq<Slot>)
    requires EpochStart(r, before)
    ensures RunOk(r) && Left(r.ts, |r.ts|) >= 1
    ensures var n := Left(r.ts, |r.ts|);
            && (forall k: nat :: k < n ==> Ticks(r, k).recharges == 0)
            && EpochEnds(r, Ticks(r, n))
  {
    StartAtTick(r, before);
    AllTicks(r, Left(r.ts, |r.ts|));
  }

  // ------------------------------------------------------------------ tasks that sleep

  /** d halved m times. */
  function Halved(d: nat, m: nat): nat
    decreases m
  {
    if m == 0 then d else Halved(d, m - 1) / 2
  }

  function Power(m: nat): (p: nat)
    ensures p >= 1
  {
    if m == 0 then 1 else 2 * Power(m - 1)
  }

  lemma {:induction false} HalvedFirst(d: nat, m: nat)
    requires m > 0
    ensures Halved(d, m) == Halved(d / 2, m - 1)
    decreases m
  {
    if m > 1 { HalvedFirst(d, m - 1); }
  }

  lemma {:induction false} HalvedAway(d: nat, m: nat)
    ensures Halved(d, m) == 0 <==> d < Power(m)
    decreases m
  {
    if m > 0 {
      HalvedFirst(d, m);
      HalvedAway(d / 2, m - 1);
    }
  }

  /** A task that sleeps is never the current one, and it lacks so many ticks to twice its priority less one. */
  ghost predicate Sleeps(r: Run, t: int) {
    && RunOk(r) && 1 <= t < NR_TASKS && t != r.cur
    && r.ts[t].Task? && !r.ts[t].running && Within(r.ts[t])
  }

  function Lacks(x: Slot): int
    requires x.Task?
  {
    2 * x.priority - 1 - x.counter
  }

  lemma GainHalves(x: Slot, y: Slot)
    requires x.Task? && Gains(x, y)
    ensures Lacks(y) == Lacks(x) / 2
  {
  }

  /** Through one tick a sleeping task changes only when all tasks are recharged, and then what it lacks halves. */
  lemma SleeperTick(r: Run, t: int)
    requires Sleeps(r, t)
    ensures Sleeps(Tick(r), t) && SameTask(Tick(r).ts[t], r.ts[t])
    ensures r.recharges <= Tick(r).recharges <= r.recharges + 1
    ensures Lacks(Tick(r).ts[t]) == if Tick(r).recharges == r.recharges then Lacks(r.ts[t]) else Lacks(r.ts[t]) / 2
  {
    TickOk(r);
    var down := CountDown(r.ts, r.cur);
    assert down[t] == r.ts[t];
    RechargeGains(down);
    GainHalves(down[t], Recharged(down)[t]);
    NextRuns(Scheduled(down));
  }

  lemma NextRuns(ts: seq<Slot>)
    requires Positive(ts)
    ensures NextTask(ts) == 0 || (1 <= NextTask(ts) < NR_TASKS && Runnable(ts[NextTask(ts)]))
  {
    BestIsLargest(ts);
  }

  /** Over any run, what a sleeping task lacks has been halved once for every recharge, rounded down. */
  lemma {:induction false} SleeperRun(r: Run, n: nat, t: int)
    requires Sleeps(r, t)
    ensures SleptOn(r, Ticks(r, n), t)
    decreases n
  {
    if n > 0 {
      SleeperRun(r, n - 1, t);
      SleptNext(r, Ticks(r, n - 1), t);
    }
  }

  /** From r to q task t has slept, and what it lacks has been halved once for every recharge. */
  ghost predicate SleptOn(r: Run, q: Run, t: int) {
    && Sleeps(r, t) && Sleeps(q, t) && SameTask(q.ts[t], r.ts[t]) && q.recharges >= r.recharges
    && Lacks(q.ts[t]) == Halved(Lacks(r.ts[t]), q.recharges - r.recharges)
  }

  lemma SleptNext(r: Run, q: Run, t: int)
    requires SleptOn(r, q, t)
    ensures SleptOn(r, Tick(q), t)
  {
    SleeperTick(q, t);
  }

  /** From r to q, m recharges later: the counter has risen unless m is 0 or it was twice the priority less one,
      and it is that exactly when two to the power m is more than what the task lacked. */
  ghost predicate Filled(r: Run, q: Run, t: int) {
    && 1 <= t < |r.ts| && t < |q.ts| && q.recharges >= r.recharges
    && var x, y, m := r.ts[t], q.ts[t], q.recharges - r.recharges;
    && x.Task? && y.Task? && y.priority == x.priority && x.counter <= y.counter <= 2 * x.priority - 1
    && (y.counter == x.counter <==> m == 0 || x.counter == 2 * x.priority - 1)
    && (y.counter == 2 * x.priority - 1 <==> 2 * x.priority - 1 - x.counter < Power(m))
  }

  lemma SleeperFills(r: Run, n: nat, t: int)
    requires Sleeps(r, t)
    ensures Filled(r, Ticks(r, n), t)
  {
    SleeperRun(r, n, t);
    FilledLater(r, Ticks(r, n), t);
  }

  lemma FilledLater(r: Run, q: Run, t: int)
    requires SleptOn(r, q, t)
    ensures Filled(r, q, t)
  {
    FillsSlot(r.ts[t], q.ts[t], q.recharges - r.recharges);
  }

  lemma FillsSlot(x: Slot, y: Slot, m: nat)
    requires x.Task? && SameTask(y, x) && Lacks(x) >= 0 && Lacks(y) == Halved(Lacks(x), m)
    ensures x.counter <= y.counter <= 2 * x.priority - 1
    ensures y.counter == x.counter <==> m == 0 || x.counter == 2 * x.priority - 1
    ensures y.counter == 2 * x.priority - 1 <==> 2 * x.priority - 1 - x.counter < Power(m)
  {
    HalvedAway(Lacks(x), m);
    HalvedFalls(Lacks(x), m);
  }

  lemma {:induction false} HalvedFalls(d: nat, m: nat)
    ensures Halved(d, m) <= d && (Halved(d, m) == d <==> m == 0 || d == 0)
    decreases m
  {
    if m > 0 { HalvedFalls(d, m - 1); }
  }
}

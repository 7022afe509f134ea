/**
  Tasks over the memory manager: fork, exec, exit and release (kernel/fork.c, kernel/exit.c,
  fs/exec.c), and whole runs of them.  The copy-on-write implementation answers every load as the
  flat memory of FlatMemory does.
 */
module TaskMemory {
  import opened Paging
  import opened PagingSteps
  import opened PageManagers
  import opened FlatMemory

  const TASK_BYTES := 0x4000000
  const BOOT_LIMIT := 0xA0000

  datatype Task = NoTask | Live(page: int, codeLimit: int, dataLimit: int) | Zombie(page: int)

  datatype Op =
    | Fork(t: int)
    | Load(t: int, a: Addr)
    | Store(t: int, a: Addr, v: int)
    | KernelStore(t: int, a: Addr, v: int)
    | Exec(t: int, textSize: int)
    | Exit(t: int, orphan: bool)
    | Release(t: int)

  /** Memory and tasks before an operation. */
  datatype Snap = Snap(m: Mem, task: seq<Task>)

  predicate CanFork(task: seq<Task>, t: int)
    requires |task| == TASKS
  {
    0 <= t < TASKS && (t == 0 || task[t].Live?)
  }

  function LimitOf(task: seq<Task>, t: int): int
    requires |task| == TASKS && 0 <= t < TASKS
  {
    if t == 0 then BOOT_LIMIT else if task[t].Live? then task[t].dataLimit else 0
  }

  /** The segment limit lets task t reach address a. */
  predicate Reaches(task: seq<Task>, t: int, a: Addr)
    requires |task| == TASKS
  {
    1 <= t < TASKS && task[t].Live? && AddrOk(a) && a.k * DIR_SPAN + a.i * 4096 + a.w * 4 < task[t].dataLimit
  }

  /** In pages: a task reaches exactly the pages below its limit, a child of task 0 the first 160. */
  lemma ReachesPages(task: seq<Task>, t: int, a: Addr)
    requires |task| == TASKS && 1 <= t < TASKS && task[t].Live? && task[t].dataLimit % 4096 == 0 && AddrOk(a)
    ensures Reaches(task, t, a) <==> 4096 * (1024 * a.k + a.i + 1) <= task[t].dataLimit
    ensures task[t].dataLimit == 0xA0000 ==> (Reaches(task, t, a) <==> a.k == 0 && a.i < 160)
  {
  }

  /** Slot c is the one find_empty_process gives. */
  ghost predicate FirstSlot(task: seq<Task>, c: int)
    requires |task| == TASKS
  {
    1 <= c < TASKS && task[c].NoTask? && forall t :: 1 <= t < c ==> !task[t].NoTask?
  }

  ghost predicate SnapOk(s: Snap) {
    Shape(s.m) && |s.task| == TASKS && forall t :: 1 <= t < TASKS ==> TaskShape(s.task[t])
  }

  lemma DirsInRange(task: seq<Task>, t: int)
    requires |task| == TASKS && 0 <= t < TASKS && forall u :: 1 <= u < TASKS ==> TaskShape(task[u])
    ensures 0 <= PagesToDirs(LimitOf(task, t)) <= 16 && 16 * t + PagesToDirs(LimitOf(task, t)) <= ENTRIES
  {
  }

  /** The frames a fork of t needs: the task structure and a table for each of the parent's. */
  ghost function FramesToFork(s: Snap, t: int): nat
    requires SnapOk(s) && 0 <= t < TASKS
  {
    DirsInRange(s.task, t);
    1 + Tables(s.m.dir, 16 * t, PagesToDirs(LimitOf(s.task, t)))
  }

  /** The event an operation leaves in the history: an operation is refused if and only if it does not apply,
      or is a fork without a free slot or with too few free frames; a load or store is fatal only without
      two free frames. */
  ghost predicate Outcome(op: Op, s: Snap, e: Event)
    requires SnapOk(s)
  {
    match op
    case Fork(t) =>
      if CanFork(s.task, t) && FreeFrames(s.m) >= FramesToFork(s, t) && exists c :: FirstSlot(s.task, c)
      then e.Forked? && e.parent == t && FirstSlot(s.task, e.child) else e == Refused
    case Load(t, a) =>
      if Reaches(s.task, t, a) then (e.Saw? && e.t == t && e.a == a) || (e == Vacated(t) && !TwoFree(s.m))
      else e == Refused
    case Store(t, a, v) =>
      if Reaches(s.task, t, a) then e == Wrote(t, a, v) || (e == Vacated(t) && !TwoFree(s.m)) else e == Refused
    case KernelStore(t, a, v) =>
      if Reaches(s.task, t, a) then e == Wrote(t, a, v) || (e == Vacated(t) && !TwoFree(s.m)) else e == Refused
    case Exec(t, textSize) =>
      e == if 1 <= t < TASKS && s.task[t].Live? && 0 <= textSize <= TASK_BYTES then Vacated(t) else Refused
    case Exit(t, _) => e == if 1 <= t < TASKS && s.task[t].Live? then Vacated(t) else Refused
    case Release(t) => e == if 1 <= t < TASKS && s.task[t].Zombie? then Released(t) else Refused
  }

  /** What an operation makes of the task table, given the event it left. A child has its parent's limits, or those of
      task 0, 640 kB; a task that has called exec has all of its 64 MB, and the least whole number of pages of code that
      holds its text. Every other slot stays. */
  ghost predicate TableAfter(op: Op, task: seq<Task>, e: Event, task': seq<Task>)
    requires |task| == TASKS == |task'|
  {
    match op
    case Fork(t) =>
      if e.Forked? then
        && 0 <= t < TASKS && 1 <= e.child < TASKS && task' == task[e.child := task'[e.child]] && task'[e.child].Live?
        && (t == 0 ==> task'[e.child].codeLimit == task'[e.child].dataLimit == 0xA0000)
        && (t != 0 ==> task[t].Live? && task'[e.child] == task[t].(page := task'[e.child].page))
      else task' == task
    case Load(t, _) => AfterAccess(t, task, e, task')
    case Store(t, _, _) => AfterAccess(t, task, e, task')
    case KernelStore(t, _, _) => AfterAccess(t, task, e, task')
    case Exec(t, textSize) =>
      if e.Refused? then task' == task
      else
        && 1 <= t < TASKS && task' == task[t := task'[t]] && task[t].Live? && task'[t].Live?
        && task'[t].page == task[t].page && (forall a :: AddrOk(a) ==> Reaches(task', t, a))
        && task'[t].codeLimit % 4096 == 0 && textSize <= task'[t].codeLimit < textSize + 4096
    case Exit(t, orphan) =>
      if e.Refused? then task' == task
      else 1 <= t < TASKS && task[t].Live? && task' == task[t := if orphan then NoTask else Zombie(task[t].page)]
    case Release(t) => if e.Refused? then task' == task else 1 <= t < TASKS && task' == task[t := NoTask]
  }

  /** A fatal access leaves a zombie, any other changes no slot. */
  predicate AfterAccess(t: int, task: seq<Task>, e: Event, task': seq<Task>)
    requires |task| == TASKS == |task'|
  {
    if e.Vacated? then 1 <= t < TASKS && task[t].Live? && task' == task[t := Zombie(task[t].page)] else task' == task
  }

  /** Event base + k is the outcome of operation k, between states k and k + 1. */
  ghost predicate Follows(ops: seq<Op>, ev: seq<Event>, base: int, states: seq<Snap>, n: int) {
    && 0 <= base && 0 <= n <= |ops| && base + n <= |ev| && |states| == n + 1
    && forall k :: 0 <= k < n ==> OutcomeAt(ops, ev, base, states, k)
  }

  ghost predicate OutcomeAt(ops: seq<Op>, ev: seq<Event>, base: nat, states: seq<Snap>, k: nat) {
    && k < |ops| && base + k < |ev| && k + 1 < |states|
    && SnapOk(states[k]) && SnapOk(states[k + 1]) && Outcome(ops[k], states[k], ev[base + k])
    && TableAfter(ops[k], states[k].task, ev[base + k], states[k + 1].task)
  }

  lemma FollowsExtend(ops: seq<Op>, ev: seq<Event>, e: Event, base: int, states: seq<Snap>, s: Snap, n: int)
    requires Follows(ops, ev, base, states, n) && n < |ops| && |ev| == base + n
    requires SnapOk(states[n]) && SnapOk(s) && Outcome(ops[n], states[n], e)
    requires TableAfter(ops[n], states[n].task, e, s.task)
    ensures Follows(ops, ev + [e], base, states + [s], n + 1)
  {
    var ev', states' := ev + [e], states + [s];
    forall k | 0 <= k < n + 1 ensures OutcomeAt(ops, ev', base, states', k) {
      if k < n { assert OutcomeAt(ops, ev, base, states, k); }
    }
  }

  function Dirs(task: Task): int {
    if task.Live? then PagesToDirs(task.dataLimit) else 0
  }

  predicate TaskShape(task: Task) {
    match task
    case NoTask => true
    case Zombie(page) => High(page)
    case Live(page, code, data) => High(page) && 0 <= code <= data <= TASK_BYTES
  }

  function PageOf(task: Task): int {
    match task case NoTask => 0 case Zombie(p) => p case Live(p, _, _) => p
  }

  /** Each task's struct page is held for it alone, and it has no table beyond its segment limit. */
  ghost predicate TasksOk(m: Mem, role: seq<Role>, task: seq<Task>)
    requires Shape(m) && |role| == FRAMES
  {
    && |task| == TASKS
    && (forall t :: 1 <= t < TASKS ==> TaskShape(task[t]))
    && (forall t :: 1 <= t < TASKS && !task[t].NoTask? ==> role[PageOf(task[t])] == Held)
    && (forall t, t' :: 1 <= t < TASKS && 1 <= t' < TASKS && t != t' && !task[t].NoTask? ==>
          PageOf(task[t]) != PageOf(task[t']))
    && (forall d :: UserDir(d) && d % 16 >= Dirs(task[d / 16]) ==> m.dir[d] == 0)
  }

  /** Memory shows every task what the history says. */
  ghost predicate Agrees(m: Mem, low: seq<Page>, ev: seq<Event>) {
    && Shape(m) && DirRange(m) && |low| == LOW_FRAMES
    && (forall f :: 0 <= f < LOW_FRAMES ==> m.phys[f] == low[f])
    && (forall d, i, w :: UserSlot(d, i) && 0 <= w < ENTRIES ==>
          View(m, d, i)[w] == Recall(low, ev, d / 16, Addr(d % 16, i, w)))
    && (forall a :: AddrOk(a) ==> Recall(low, ev, 0, a) == BootWord(low, a))
  }

  /** Task 0 never writes to its low pages here, so it keeps what was there at boot. */
  function BootWord(low: seq<Page>, a: Addr): int {
    if a.k == 0 && 0 <= a.i < BOOT_PAGES && a.i < |low| && 0 <= a.w < |low[a.i]| then low[a.i][a.w] else 0
  }

  /** A fork that failed and was undone leaves every count as it was. */
  lemma CountsRestored(m: Mem, role: seq<Role>, m': Mem, role': seq<Role>, lo: int, hi: int)
    requires Inv(m, role) && Inv(m', role') && OnlyRange(m, m', lo, hi) && SameHeld(role, role')
    requires forall d :: UserDir(d) && lo <= d < hi ==> m.dir[d] == 0 && m'.dir[d] == 0
    ensures m'.count == m.count
  {
    forall f | High(f) ensures Count(m', f) == Count(m, f) {
      CountIsReferences(m, role, f);
      CountIsReferences(m', role', f);
      SameMappers(m, role, m', role', lo, hi, f);
      assert TableUsers(m', f) == TableUsers(m, f);
    }
    forall k | 0 <= k < |m.count| ensures m'.count[k] == m.count[k] {
      assert Count(m', k + LOW_FRAMES) == Count(m, k + LOW_FRAMES);
    }
  }

  lemma SameMappers(m: Mem, role: seq<Role>, m': Mem, role': seq<Role>, lo: int, hi: int, f: int)
    requires Inv(m, role) && Inv(m', role') && OnlyRange(m, m', lo, hi)
    requires forall d :: UserDir(d) && lo <= d < hi ==> m.dir[d] == 0 && m'.dir[d] == 0
    ensures Mappers(m', f) == Mappers(m, f)
  {
    forall d, i | UserSlot(d, i) ensures Names(Pte(m', d, i), f) <==> Names(Pte(m, d, i), f) {
      assert SlotOk(m, role, d, i) && SlotOk(m', role', d, i);
      if !(lo <= d < hi) { SameStripped(Pte(m, d, i), Pte(m', d, i)); }
    }
  }

  lemma SameStripped(w: int, w': int)
    requires ClearWrite(w) == ClearWrite(w') && PteOk(w) && PteOk(w')
    ensures Present(w) <==> Present(w')
    ensures Present(w) ==> Frame(w) == Frame(w')
  {
    if Present(w) { ClearWriteDecodes(w); }
    if Present(w') { ClearWriteDecodes(w'); }
  }

  // ------------------------------------------------------------------ one event at a time

  lemma AgreesQuiet(m: Mem, m': Mem, low: seq<Page>, ev: seq<Event>, e: Event)
    requires Agrees(m, low, ev) && SameViews(m, m') && SameLow(m, m') && (e.Saw? || e.Released? || e.Refused?)
    ensures Agrees(m', low, ev + [e])
  {
    forall t, a ensures Recall(low, ev + [e], t, a) == Recall(low, ev, t, a) { RecallStep(low, ev, e, t, a); }
  }

  lemma AgreesWrote(m: Mem, m': Mem, low: seq<Page>, ev: seq<Event>, d0: int, t: int, a: Addr, v: int)
    requires Agrees(m, low, ev) && 1 <= t < TASKS && AddrOk(a) && SameLow(m, m') && d0 == 16 * t + a.k
    requires SameViewsBut(m, m', d0, a.i) && View(m', d0, a.i) == View(m, d0, a.i)[a.w := v]
    ensures Agrees(m', low, ev + [Wrote(t, a, v)])
  {
    var e := Wrote(t, a, v);
    forall u, b ensures Recall(low, ev + [e], u, b) == if u == t && b == a then v else Recall(low, ev, u, b) {
      RecallStep(low, ev, e, u, b);
    }
    forall d, i, w | UserSlot(d, i) && 0 <= w < ENTRIES
      ensures View(m', d, i)[w] == Recall(low, ev + [e], d / 16, Addr(d % 16, i, w))
    {
      Split16(d, t, a.k);
      assert View(m, d, i)[w] == Recall(low, ev, d / 16, Addr(d % 16, i, w));
      if d == d0 && i == a.i {
        assert View(m', d, i)[w] == if w == a.w then v else View(m, d, i)[w];
      }
    }
  }

  lemma Split16(d: int, t: int, k: int)
    requires 0 <= k < 16
    ensures d == 16 * t + k <==> d / 16 == t && d % 16 == k
  {
  }

  lemma AgreesVacated(m: Mem, m': Mem, low: seq<Page>, ev: seq<Event>, t: int)
    requires Agrees(m, low, ev) && 1 <= t < TASKS && SameLow(m, m') && OnlyRange(m, m', 16 * t, 16 * t + 16)
    requires forall d :: 16 * t <= d < 16 * t + 16 ==> m'.dir[d] == 0
    ensures Agrees(m', low, ev + [Vacated(t)])
  {
    forall u, b ensures Recall(low, ev + [Vacated(t)], u, b) == if u == t then 0 else Recall(low, ev, u, b) {
      RecallStep(low, ev, Vacated(t), u, b);
    }
    forall d, i, w | UserSlot(d, i) && 0 <= w < ENTRIES
      ensures View(m', d, i)[w] == Recall(low, ev + [Vacated(t)], d / 16, Addr(d % 16, i, w))
    {
      assert d / 16 == t <==> 16 * t <= d < 16 * t + 16;
      if d / 16 != t { assert View(m, d, i)[w] == Recall(low, ev, d / 16, Addr(d % 16, i, w)); }
    }
  }

  /** What a fork copies from word a of task p is what p recalls. */
  lemma SourceRecalled(m: Mem, low: seq<Page>, ev: seq<Event>, p: int, d: int, i: int, w: int)
    requires Agrees(m, low, ev) && 0 <= p < TASKS && 16 * p <= d < 16 * p + 16 && 0 <= i < ENTRIES && 0 <= w < ENTRIES
    requires p == 0 ==> d == 0
    ensures Source(m, d, i)[w] == Recall(low, ev, p, Addr(d - 16 * p, i, w))
  {
    if p == 0 {
      assert Recall(low, ev, 0, Addr(0, i, w)) == BootWord(low, Addr(0, i, w));
    } else {
      assert d / 16 == p && d % 16 == d - 16 * p;
    }
  }

  lemma AgreesForked(m: Mem, m': Mem, low: seq<Page>, ev: seq<Event>, p: int, c: int, n: int)
    requires Agrees(m, low, ev) && 0 <= p < TASKS && 1 <= c < TASKS && p != c && 0 <= n <= 16 && SameLow(m, m')
    requires OnlyRange(m, m', 16 * c, 16 * c + n) && Copied(m, m', 16 * p, 16 * c, n)
    requires forall d :: 16 * c <= d < 16 * c + 16 ==> m.dir[d] == 0
    requires p == 0 ==> n == 1
    requires p != 0 ==> forall d :: 16 * p + n <= d < 16 * p + 16 ==> m.dir[d] == 0
    ensures Agrees(m', low, ev + [Forked(p, c)])
  {
    forall u, b
      ensures Recall(low, ev + [Forked(p, c)], u, b) == if u == c then Recall(low, ev, p, b) else Recall(low, ev, u, b)
    {
      RecallStep(low, ev, Forked(p, c), u, b);
    }
    forall d, i, w | UserSlot(d, i) && 0 <= w < ENTRIES
      ensures View(m', d, i)[w] == Recall(low, ev + [Forked(p, c)], d / 16, Addr(d % 16, i, w))
    {
      assert View(m, d, i)[w] == Recall(low, ev, d / 16, Addr(d % 16, i, w));
      assert d / 16 == c <==> 16 * c <= d < 16 * c + 16;
      if d / 16 == c {
        assert d % 16 == d - 16 * c;
        ForkedWord(m, m', low, ev, p, c, n, d, i, w);
      }
    }
  }

  lemma ForkedWord(m: Mem, m': Mem, low: seq<Page>, ev: seq<Event>, p: int, c: int, n: int, d: int, i: int, w: int)
    requires Agrees(m, low, ev) && 0 <= p < TASKS && 1 <= c < TASKS && p != c && 0 <= n <= 16
    requires OnlyRange(m, m', 16 * c, 16 * c + n) && Copied(m, m', 16 * p, 16 * c, n)
    requires forall d :: 16 * c <= d < 16 * c + 16 ==> m.dir[d] == 0
    requires p == 0 ==> n == 1
    requires p != 0 ==> forall d :: 16 * p + n <= d < 16 * p + 16 ==> m.dir[d] == 0
    requires 16 * c <= d < 16 * c + 16 && 0 <= i < ENTRIES && 0 <= w < ENTRIES
    ensures View(m', d, i)[w] == Recall(low, ev, p, Addr(d - 16 * c, i, w))
  {
    var e := d - 16 * c + 16 * p;
    if d < 16 * c + n {
      assert View(m', d, i) == Source(m, e, i);
      SourceRecalled(m, low, ev, p, e, i, w);
    } else {
      assert View(m', d, i) == View(m, d, i) == ZeroPage();
      if p == 0 {
        assert Recall(low, ev, 0, Addr(d - 16 * c, i, w)) == BootWord(low, Addr(d - 16 * c, i, w));
      } else {
        assert View(m, e, i) == ZeroPage();
        SourceRecalled(m, low, ev, p, e, i, w);
      }
    }
  }

  // ------------------------------------------------------------------ the kernel's task table

  class Kernel {
    const mm: PageManager
    ghost const low: seq<Page>
    var task: seq<Task>
    /** What has happened so far. */
    ghost var ev: seq<Event>

    ghost predicate Valid()
      reads this, mm, mm.memMap, mm.pgDir, mm.phys
    {
      mm.Valid() && TasksOk(mm.S(), mm.role, task) && Agrees(mm.S(), low, ev) && Consistent(low, ev)
    }

    constructor (low: seq<Page>)
      requires |low| == LOW_FRAMES && forall f :: 0 <= f < LOW_FRAMES ==> |low[f]| == ENTRIES
      requires forall i :: 0 <= i < KERNEL_COPY ==> low[1][i] == Word(i, 7)
      ensures Valid() && ev == [] && this.low == low
      ensures fresh(mm) && fresh(mm.memMap) && fresh(mm.pgDir) && fresh(mm.phys)
    {
      mm := new PageManager(low);
      this.low := low;
      task := seq(TASKS, _ => NoTask);
      ev := [];
      new;
      assert forall d, i :: UserSlot(d, i) ==> View(mm.S(), d, i) == ZeroPage();
    }

    /** find_empty_process: the first free slot from 1 on (fork.c:136-139). */
    method FindEmptyProcess() returns (nr: int)
      requires |task| == TASKS
      ensures nr == -1 ==> forall t :: 1 <= t < TASKS ==> !task[t].NoTask?
      ensures nr != -1 ==> 1 <= nr < TASKS && task[nr].NoTask? && forall t :: 1 <= t < nr ==> !task[t].NoTask?
    {
      for i := 1 to TASKS
        invariant forall t :: 1 <= t < i ==> !task[t].NoTask?
      {
        if task[i].NoTask? { return i; }
      }
      return -1;
    }

    function DataLimit(p: int): int
      requires |task| == TASKS && 0 <= p < TASKS
      reads this
    {
      LimitOf(task, p)
    }

    ghost function Now(): (s: Snap)
      reads this, mm, mm.memMap, mm.pgDir, mm.phys
      requires mm.Valid() && TasksOk(mm.S(), mm.role, task)
      ensures SnapOk(s)
    {
      Snap(mm.S(), task)
    }

    function CodeLimit(p: int): int
      requires |task| == TASKS && 0 <= p < TASKS
      reads this
    {
      if p == 0 then BOOT_LIMIT else if task[p].Live? then task[p].codeLimit else 0
    }

    /** copy_mem: shares the parent's space with slot nr, or undoes what it did (fork.c:33-54). */
    method CopyMem(p: int, nr: int) returns (ok: bool)
      requires mm.Valid() && TasksOk(mm.S(), mm.role, task) && 0 <= p < TASKS && 1 <= nr < TASKS && p != nr
      requires p == 0 || task[p].Live?
      requires task[nr].NoTask?
      modifies mm`role, mm.memMap, mm.pgDir, mm.phys
      ensures mm.Valid() && SameLow(old(mm.S()), mm.S()) && SameHeld(old(mm.role), mm.role)
      ensures OnlyRange(old(mm.S()), mm.S(), 16 * nr, 16 * nr + PagesToDirs(DataLimit(p)))
      ensures ok ==> Copied(old(mm.S()), mm.S(), 16 * p, 16 * nr, PagesToDirs(DataLimit(p)))
      ensures !ok ==> mm.S().count == old(mm.S()).count
      ensures !ok ==> SameUserDirs(old(mm.S()), mm.S()) && SameViews(old(mm.S()), mm.S())
      ensures ok <==> FreeFrames(old(mm.S())) + 1 >= FramesToFork(old(Now()), p)
    {
      ghost var m := mm.S();
      DirsInRange(task, p);
      var base, limit := nr * TASK_BYTES, DataLimit(p);
      var n := PagesToDirs(limit);
      SlotDirs(m, mm.role, task, nr);
      if p != 0 { SlotDirs(m, mm.role, task, p); }
      BaseDirs(p);
      BaseDirs(nr);
      var r := mm.CopyPageTables(p * TASK_BYTES, base, limit);
      if r == 0 { return true; }
      mm.FreePageTables(base, limit);
      CountsRestored(m, old(mm.role), mm.S(), mm.role, 16 * nr, 16 * nr + n);
      DirsRestored(m, mm.S(), 16 * nr, 16 * nr + n);
      return false;
    }

    /** fork: a new slot whose space is the parent's, or no change at all but the write permissions. */
    method DoFork(p: int) returns (r: int)
      requires Valid() && 0 <= p < TASKS && (p == 0 || task[p].Live?)
      modifies this`task, this`ev, mm`role, mm.memMap, mm.pgDir, mm.phys
      ensures Valid()
      ensures r == -1 || (1 <= r < TASKS && r != p && old(task)[r].NoTask?)
      ensures r == -1 ==> task == old(task) && ev == old(ev) + [Refused]
      ensures r == -1 ==> mm.S().count == old(mm.S()).count && SameViews(old(mm.S()), mm.S())
      ensures r != -1 ==> ev == old(ev) + [Forked(p, r)] && task[r].Live? && task == old(task)[r := task[r]]
      ensures Outcome(Fork(p), old(Now()), ev[|old(ev)|])
      ensures TableAfter(Fork(p), old(task), ev[|old(ev)|], task)
    {
      var nr := FindEmptyProcess();
      if nr == -1 {
        Quiet(mm.S(), Refused);
        return -1;
      }
      r := CopyProcess(p, nr);
    }

    /** copy_process (fork.c:61-126).  On failure every reference count is what it was before the call. */
    method CopyProcess(p: int, nr: int) returns (r: int)
      requires Valid() && 0 <= p < TASKS && (p == 0 || task[p].Live?)
      requires 1 <= nr < TASKS && task[nr].NoTask?
      modifies this`task, this`ev, mm`role, mm.memMap, mm.pgDir, mm.phys
      ensures Valid()
      ensures r == -1 || r == nr
      ensures r == -1 ==> task == old(task) && ev == old(ev) + [Refused]
      ensures r == -1 ==> mm.S().count == old(mm.S()).count && SameViews(old(mm.S()), mm.S())
      ensures r != -1 ==> ev == old(ev) + [Forked(p, r)] && task[r].Live? && task == old(task)[r := task[r]]
      ensures r != -1 && p == 0 ==> task[r].codeLimit == task[r].dataLimit == 0xA0000
      ensures r != -1 && p != 0 ==> task[r] == old(task)[p].(page := task[r].page)
      ensures r != -1 <==> FreeFrames(old(mm.S())) >= FramesToFork(old(Now()), p)
    {
      ghost var m0, role0 := mm.S(), mm.role;
      var page := mm.GetFreePage();
      if page == 0 {
        NoneFreeIsZero(m0);
        Quiet(m0, Refused);
        return -1;
      }
      var f := page / 4096;
      ghost var m1, role1 := mm.S(), mm.role;
      assert TasksOk(m1, role1, task);
      OneTaken(m0, role0, m1, role1, f);
      AgreesSame(m0, m1, low, ev);
      var ok := CopyMem(p, nr);
      if ok {
        Launch(p, nr, f, m1, role1);
        return nr;
      }
      ViewsChain(m0, m1, mm.S());
      Abandon(page, m0);
      return -1;
    }

    /** The task structure of a fork that failed is given back (fork.c:111-114). */
    method Abandon(page: int, ghost m0: Mem)
      requires mm.Valid() && TasksOk(mm.S(), mm.role, task) && Agrees(m0, low, ev) && Consistent(low, ev)
      requires page % 4096 == 0 && High(page / 4096) && mm.role[page / 4096] == Held
      requires forall t :: 1 <= t < TASKS && !task[t].NoTask? ==> PageOf(task[t]) != page / 4096
      requires SameViews(m0, mm.S()) && SameLow(m0, mm.S())
      requires Shape(m0) && mm.S().count == SetCount(m0, page / 4096, 1).count && Count(m0, page / 4096) == 0
      modifies this`ev, mm`role, mm.memMap
      ensures Valid() && ev == old(ev) + [Refused] && mm.S().count == m0.count && SameViews(m0, mm.S())
    {
      ghost var m2 := mm.S();
      mm.FreeHeldPage(page);
      assert mm.S().count == m0.count;
      ViewsChain(m0, m2, mm.S());
      Quiet(m0, Refused);
    }

    /** The new task enters the table (fork.c:115-125). */
    method Launch(p: int, nr: int, f: int, ghost m1: Mem, ghost role1: seq<Role>)
      requires mm.Valid() && |role1| == FRAMES && Agrees(m1, low, ev) && TasksOk(m1, role1, task) && Consistent(low, ev)
      requires 0 <= p < TASKS && (p == 0 || task[p].Live?) && 1 <= nr < TASKS && task[nr].NoTask? && p != nr
      requires High(f) && role1[f] == Held && forall t :: 1 <= t < TASKS ==> PageOf(task[t]) != f
      requires SameLow(m1, mm.S()) && SameHeld(role1, mm.role)
      requires OnlyRange(m1, mm.S(), 16 * nr, 16 * nr + PagesToDirs(DataLimit(p)))
      requires Copied(m1, mm.S(), 16 * p, 16 * nr, PagesToDirs(DataLimit(p)))
      modifies this`task, this`ev
      ensures Valid() && ev == old(ev) + [Forked(p, nr)] && task[nr].Live? && task == old(task)[nr := task[nr]]
      ensures p == 0 ==> task[nr].codeLimit == task[nr].dataLimit == 0xA0000
      ensures p != 0 ==> task[nr] == old(task)[p].(page := task[nr].page)
    {
      CopiedAgrees(m1, role1, mm.S(), p, nr);
      ConsistentExtend(low, ev, Forked(p, nr));
      TasksForked(m1, role1, mm.S(), mm.role, task, nr, f, CodeLimit(p), DataLimit(p));
      ev := ev + [Forked(p, nr)];
      task := task[nr := Live(f, CodeLimit(p), DataLimit(p))];
    }

    lemma CopiedAgrees(m: Mem, role: seq<Role>, m': Mem, p: int, nr: int)
      requires Agrees(m, low, ev) && |role| == FRAMES && TasksOk(m, role, task)
      requires 0 <= p < TASKS && (p == 0 || task[p].Live?) && 1 <= nr < TASKS && task[nr].NoTask? && p != nr
      requires SameLow(m, m') && OnlyRange(m, m', 16 * nr, 16 * nr + PagesToDirs(DataLimit(p)))
      requires Copied(m, m', 16 * p, 16 * nr, PagesToDirs(DataLimit(p)))
      ensures Agrees(m', low, ev + [Forked(p, nr)])
    {
      SlotDirs(m, role, task, nr);
      if p != 0 { SlotDirs(m, role, task, p); }
      AgreesForked(m, m', low, ev, p, nr, PagesToDirs(DataLimit(p)));
    }

    /** Frees the code range, then the data range, of task t (exit.c:68-69, exec.c:437-438). */
    method FreeSpace(t: int)
      requires mm.Valid() && TasksOk(mm.S(), mm.role, task) && 1 <= t < TASKS && task[t].Live?
      modifies mm`role, mm.memMap, mm.pgDir, mm.phys
      ensures mm.Valid() && SameLow(old(mm.S()), mm.S()) && SameHeld(old(mm.role), mm.role)
      ensures OnlyRange(old(mm.S()), mm.S(), 16 * t, 16 * t + 16)
      ensures forall d :: 16 * t <= d < 16 * t + 16 ==> mm.S().dir[d] == 0
    {
      ghost var m := mm.S();
      SlotDirs(m, mm.role, task, t);
      BaseDirs(t);
      mm.FreePageTables(t * TASK_BYTES, task[t].codeLimit);
      ghost var m1 := mm.S();
      mm.FreePageTables(t * TASK_BYTES, task[t].dataLimit);
      OnlyRangeChain(m, m1, mm.S(), 16 * t, 16 * t + PagesToDirs(task[t].dataLimit), 16 * t,
        16 * t + PagesToDirs(task[t].dataLimit));
    }

    /** do_exit: the space is freed; an orphan's slot too, others stay as zombies (exit.c:64-92). */
    method DoExit(t: int, orphan: bool)
      requires Valid() && 1 <= t < TASKS && task[t].Live?
      modifies this`task, this`ev, mm`role, mm.memMap, mm.pgDir, mm.phys
      ensures Valid() && ev == old(ev) + [Vacated(t)]
      ensures task == old(task)[t := if orphan then NoTask else Zombie(old(task)[t].page)]
    {
      Vacate(t, Zombie(task[t].page));
      if orphan { FreeSlot(t); }
    }

    /** Frees the space of t and gives it the limits of `next`. */
    method Vacate(t: int, next: Task)
      requires Valid() && 1 <= t < TASKS && task[t].Live?
      requires TaskShape(next) && !next.NoTask? && PageOf(next) == task[t].page
      modifies this`task, this`ev, mm`role, mm.memMap, mm.pgDir, mm.phys
      ensures Valid() && ev == old(ev) + [Vacated(t)] && task == old(task)[t := next]
    {
      ghost var m, role0 := mm.S(), mm.role;
      FreeSpace(t);
      AgreesVacated(m, mm.S(), low, ev, t);
      ConsistentExtend(low, ev, Vacated(t));
      TasksVacated(m, role0, mm.S(), mm.role, task, t, next);
      ev := ev + [Vacated(t)];
      task := task[t := next];
    }

    /** release: the zombie's page and slot (exit.c:13-27). */
    method FreeSlot(t: int)
      requires Valid() && 1 <= t < TASKS && task[t].Zombie?
      modifies this`task, mm`role, mm.memMap
      ensures Valid() && task == old(task)[t := NoTask] && SameViews(old(mm.S()), mm.S())
    {
      ghost var m := mm.S();
      mm.FreeHeldPage(4096 * task[t].page);
      AgreesSame(m, mm.S(), low, ev);
      task := task[t := NoTask];
    }

    /** exec: an empty space under new limits (exec.c:437-438, 143-151). */
    method DoExec(t: int, textSize: int)
      requires Valid() && 1 <= t < TASKS && task[t].Live? && 0 <= textSize <= TASK_BYTES
      modifies this`task, this`ev, mm`role, mm.memMap, mm.pgDir, mm.phys
      ensures Valid() && ev == old(ev) + [Vacated(t)] && TableAfter(Exec(t, textSize), old(task), Vacated(t), task)
    {
      var codeLimit := (textSize + 4095) / 4096 * 4096;
      assert codeLimit <= TASK_BYTES;
      Vacate(t, Live(task[t].page, codeLimit, TASK_BYTES));
    }

    /** A load: the word the history holds for the task, or death when memory has run out. */
    method DoLoad(t: int, a: Addr) returns (v: int)
      requires Valid() && Reaches(task, t, a)
      modifies this`task, this`ev, mm`role, mm.memMap, mm.pgDir, mm.phys
      ensures Valid()
      ensures ev == old(ev) + [Saw(t, a, v)] || (ev == old(ev) + [Vacated(t)] && !TwoFree(old(mm.S())))
      ensures ev == old(ev) + [Saw(t, a, v)] ==> v == Recall(low, old(ev), t, a)
      ensures AfterAccess(t, old(task), ev[|old(ev)|], task)
    {
      ghost var m, role0 := mm.S(), mm.role;
      var d := 16 * t + a.k;
      Split16(d, t, a.k);
      var ok;
      ok, v := mm.Load(d, a.i, a.w);
      TasksAccessed(m, role0, mm.S(), mm.role, task, t, d);
      if ok {
        assert View(m, d, a.i)[a.w] == Recall(low, ev, t, Addr(a.k, a.i, a.w));
        Quiet(m, Saw(t, a, v));
      } else {
        AgreesSame(m, mm.S(), low, ev);
        DoExit(t, false);
      }
    }

    /** A store, by the task itself or by the kernel on its behalf. */
    method DoStore(t: int, a: Addr, v: int, byKernel: bool) returns (ok: bool)
      requires Valid() && Reaches(task, t, a)
      modifies this`task, this`ev, mm`role, mm.memMap, mm.pgDir, mm.phys
      ensures Valid()
      ensures ok ==> ev == old(ev) + [Wrote(t, a, v)]
      ensures !ok ==> ev == old(ev) + [Vacated(t)] && !TwoFree(old(mm.S()))
      ensures AfterAccess(t, old(task), ev[|old(ev)|], task)
    {
      ghost var m, role0 := mm.S(), mm.role;
      var d := 16 * t + a.k;
      Split16(d, t, a.k);
      if byKernel {
        ok := mm.KernelStore(d, a.i, a.w, v);
      } else {
        ok := mm.Store(d, a.i, a.w, v);
      }
      TasksAccessed(m, role0, mm.S(), mm.role, task, t, d);
      if ok {
        AgreesWrote(m, mm.S(), low, ev, d, t, a, v);
        ConsistentExtend(low, ev, Wrote(t, a, v));
        ev := ev + [Wrote(t, a, v)];
      } else {
        AgreesSame(m, mm.S(), low, ev);
        DoExit(t, false);
      }
    }

    /** One operation; what does not apply (no such task, beyond the segment) does nothing. */
    method Step(op: Op)
      requires Valid()
      modifies this`task, this`ev, mm`role, mm.memMap, mm.pgDir, mm.phys
      ensures Valid() && |ev| == |old(ev)| + 1 && ev == old(ev) + [ev[|old(ev)|]]
      ensures Outcome(op, old(Now()), ev[|old(ev)|])
      ensures TableAfter(op, old(task), ev[|old(ev)|], task)
    {
      match op {
        case Fork(t) =>
          if 0 <= t < TASKS && (t == 0 || task[t].Live?) { var _ := DoFork(t); return; }
        case Load(t, a) =>
          if Reaches(task, t, a) { var _ := DoLoad(t, a); return; }
        case Store(t, a, v) =>
          if Reaches(task, t, a) { var _ := DoStore(t, a, v, false); return; }
        case KernelStore(t, a, v) =>
          if Reaches(task, t, a) { var _ := DoStore(t, a, v, true); return; }
        case Exec(t, textSize) =>
          if 1 <= t < TASKS && task[t].Live? && 0 <= textSize <= TASK_BYTES { DoExec(t, textSize); return; }
        case Exit(t, orphan) =>
          if 1 <= t < TASKS && task[t].Live? { DoExit(t, orphan); return; }
        case Release(t) =>
          if 1 <= t < TASKS && task[t].Zombie? { FreeSlot(t); Quiet(mm.S(), Released(t)); return; }
      }
      Quiet(mm.S(), Refused);
    }

    /** Any run of operations: every operation that applies is carried out, every load in it is answered as
        the flat memory answers it, and in the state it ends in the counting and sharing invariant holds. */
    method Run(ops: seq<Op>) returns (ghost states: seq<Snap>)
      requires Valid()
      modifies this`task, this`ev, mm`role, mm.memMap, mm.pgDir, mm.phys
      ensures Valid() && Consistent(low, ev)
      ensures |ev| == |old(ev)| + |ops| && old(ev) <= ev
      ensures |states| == |ops| + 1 && states[0] == old(Now()) && states[|ops|] == Now()
      ensures Follows(ops, ev, |old(ev)|, states, |ops|)
    {
      states := [Now()];
      for n := 0 to |ops|
        invariant Valid() && |ev| == |old(ev)| + n && old(ev) <= ev
        invariant |states| == n + 1 && states[0] == old(Now()) && states[n] == Now()
        invariant Follows(ops, ev, |old(ev)|, states, n)
      {
        ghost var was := ev;
        Step(ops[n]);
        FollowsExtend(ops, was, ev[|was|], |old(ev)|, states, Now(), n);
        states := states + [Now()];
      }
    }

    /** An operation that changed no view. */
    ghost method Quiet(m: Mem, e: Event)
      requires mm.Valid() && TasksOk(mm.S(), mm.role, task) && Agrees(m, low, ev) && Consistent(low, ev)
      requires SameViews(m, mm.S()) && SameLow(m, mm.S())
      requires e.Released? || e.Refused? || (e.Saw? && e.v == Recall(low, ev, e.t, e.a))
      modifies this`ev
      ensures Valid() && ev == old(ev) + [e]
    {
      AgreesQuiet(m, mm.S(), low, ev, e);
      ConsistentExtend(low, ev, e);
      ev := ev + [e];
    }
  }

  lemma BaseDirs(p: int)
    ensures (p * TASK_BYTES) / DIR_SPAN == 16 * p && (p * TASK_BYTES) % DIR_SPAN == 0
    ensures (16 * p) % 16 == 0
  {
    assert p * TASK_BYTES == (16 * p) * DIR_SPAN;
  }

  /** A slot's directory entries beyond its limit are empty; a free slot's all are. */
  lemma SlotDirs(m: Mem, role: seq<Role>, task: seq<Task>, t: int)
    requires Shape(m) && |role| == FRAMES && TasksOk(m, role, task) && 1 <= t < TASKS
    ensures 0 <= Dirs(task[t]) <= 16
    ensures forall d :: 16 * t + Dirs(task[t]) <= d < 16 * t + 16 ==> m.dir[d] == 0
  {
    forall d | 16 * t + Dirs(task[t]) <= d < 16 * t + 16 ensures m.dir[d] == 0 {
      Split16(d, t, d - 16 * t);
      assert UserDir(d);
    }
  }

  lemma ViewsChain(m: Mem, m1: Mem, m2: Mem)
    requires SameViews(m, m1) && SameViews(m1, m2) && SameLow(m, m1) && SameLow(m1, m2)
    ensures SameViews(m, m2) && SameLow(m, m2)
  {
  }

  lemma AgreesSame(m: Mem, m': Mem, low: seq<Page>, ev: seq<Event>)
    requires Agrees(m, low, ev) && SameViews(m, m') && SameLow(m, m')
    ensures Agrees(m', low, ev)
  {
  }

  lemma TasksForked(m: Mem, role: seq<Role>, m': Mem, role': seq<Role>, task: seq<Task>, nr: int, f: int, code: int,
    data: int)
    requires Shape(m) && |role| == FRAMES && TasksOk(m, role, task) && 1 <= nr < TASKS && task[nr].NoTask?
    requires High(f) && role[f] == Held && forall t :: 1 <= t < TASKS ==> PageOf(task[t]) != f
    requires 0 <= code <= data <= TASK_BYTES
    requires Shape(m') && SameHeld(role, role') && OnlyRange(m, m', 16 * nr, 16 * nr + PagesToDirs(data))
    ensures TasksOk(m', role', task[nr := Live(f, code, data)])
  {
    var task' := task[nr := Live(f, code, data)];
    forall d | UserDir(d) && d % 16 >= Dirs(task'[d / 16]) ensures m'.dir[d] == 0 {
      Split16(d, d / 16, d % 16);
      assert m'.dir[d] == m.dir[d];
    }
  }

  lemma TasksVacated(m: Mem, role: seq<Role>, m': Mem, role': seq<Role>, task: seq<Task>, t: int, next: Task)
    requires Shape(m) && |role| == FRAMES && TasksOk(m, role, task) && 1 <= t < TASKS && task[t].Live?
    requires TaskShape(next) && !next.NoTask? && PageOf(next) == task[t].page
    requires Shape(m') && SameHeld(role, role') && OnlyRange(m, m', 16 * t, 16 * t + 16)
    requires forall d :: 16 * t <= d < 16 * t + 16 ==> m'.dir[d] == 0
    ensures TasksOk(m', role', task[t := next])
  {
    var task' := task[t := next];
    forall d | UserDir(d) && d % 16 >= Dirs(task'[d / 16]) ensures m'.dir[d] == 0 {
      Split16(d, d / 16, d % 16);
      if d / 16 != t { assert m'.dir[d] == m.dir[d]; }
    }
  }

  lemma TasksAccessed(m: Mem, role: seq<Role>, m': Mem, role': seq<Role>, task: seq<Task>, t: int, d: int)
    requires Shape(m) && |role| == FRAMES && TasksOk(m, role, task) && 1 <= t < TASKS && task[t].Live?
    requires 0 <= d - 16 * t < Dirs(task[t]) <= 16
    requires Shape(m') && StillHeld(role, role', 0) && forall d' :: UserDir(d') && d' != d ==> m'.dir[d'] == m.dir[d']
    ensures TasksOk(m', role', task)
  {
    Split16(d, t, d - 16 * t);
  }

  lemma DirsRestored(m: Mem, m': Mem, lo: int, hi: int)
    requires OnlyRange(m, m', lo, hi)
    requires forall d :: UserDir(d) && lo <= d < hi ==> m.dir[d] == 0 && m'.dir[d] == 0
    ensures SameUserDirs(m, m') && SameViews(m, m')
  {
  }

  ghost predicate SameUserDirs(m: Mem, m': Mem)
    requires Shape(m) && Shape(m')
  {
    forall d :: UserDir(d) ==> m'.dir[d] == m.dir[d]
  }
}

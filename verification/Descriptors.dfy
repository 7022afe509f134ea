/**
  Descriptors and the system file table (fs/open.c, fs/fcntl.c, fs/pipe.c, and the loops over filp in
  kernel/fork.c, kernel/exit.c and fs/exec.c). Descriptor fd of task t is slot t * NR_OPEN + fd.
 */
module Descriptors {

  const NR_TASKS := 64
  const NR_OPEN := 20
  const NR_FILE := 64
  const NR_INODE := 32
  const SLOTS := 1280
  const NONE := -1

  const EPERM := 1
  const EBADF := 9
  const EINVAL := 22
  const EMFILE := 24

  /** f_count of every file slot is the number of descriptors, over all tasks, that point at it. */
  ghost predicate Counted(filp: seq<int>, count: seq<int>) {
    && |filp| == SLOTS && |count| == NR_FILE
    && (forall i :: 0 <= i < SLOTS ==> NONE <= filp[i] < NR_FILE)
    && (forall f :: 0 <= f < NR_FILE ==> count[f] == multiset(filp)[f])
  }

  /** How many file slots in use below k refer to inode v. */
  ghost function Refs(count: seq<int>, inode: seq<int>, v: int, k: nat): int
    requires k <= |count| && k <= |inode|
  {
    if k == 0 then 0 else Refs(count, inode, v, k - 1) + Ref(count[k - 1], inode[k - 1], v)
  }

  ghost function Ref(count: int, inode: int, v: int): int { if count > 0 && inode == v then 1 else 0 }

  /** One file slot changed. */
  lemma {:induction false} RefsUpdate(count: seq<int>, inode: seq<int>, f: int, c: int, x: int, v: int, k: nat)
    requires |count| == |inode| && 0 <= f < |count| && k <= |count|
    ensures Refs(count[f := c], inode[f := x], v, k) ==
            Refs(count, inode, v, k) + (if f < k then Ref(c, x, v) - Ref(count[f], inode[f], v) else 0)
    decreases k
  {
    if k > 0 { RefsUpdate(count, inode, f, c, x, v, k - 1); }
  }

  /** Every inode is held once for each file slot in use that refers to it. */
  ghost predicate Held(count: seq<int>, inode: seq<int>, held: seq<int>) {
    && |count| == |inode| == NR_FILE && |held| == NR_INODE
    && (forall f :: 0 <= f < NR_FILE && count[f] > 0 ==> 0 <= inode[f] < NR_INODE)
    && (forall v :: 0 <= v < NR_INODE ==> held[v] == Refs(count, inode, v, |count|))
  }

  lemma HeldOpened(count: seq<int>, inode: seq<int>, held: seq<int>, f: int, v: int)
    requires Held(count, inode, held) && 0 <= f < NR_FILE && count[f] == 0 && 0 <= v < NR_INODE
    ensures Held(count[f := 1], inode[f := v], held[v := held[v] + 1])
  {
    var held', count', inode' := held[v := held[v] + 1], count[f := 1], inode[f := v];
    forall w | 0 <= w < NR_INODE ensures held'[w] == Refs(count', inode', w, |count'|)
    {
      RefsUpdate(count, inode, f, 1, v, w, |count|);
    }
  }

  lemma HeldClosed(count: seq<int>, inode: seq<int>, held: seq<int>, f: int)
    requires Held(count, inode, held) && 0 <= f < NR_FILE && count[f] == 1
    ensures Held(count[f := 0], inode, held[inode[f] := held[inode[f]] - 1])
  {
    var v := inode[f];
    var held', count' := held[v := held[v] - 1], count[f := 0];
    forall w | 0 <= w < NR_INODE ensures held'[w] == Refs(count', inode, w, |count'|)
    {
      RefsUpdate(count, inode, f, 0, v, w, |count|);
      assert inode[f := v] == inode;
    }
  }

  /** While it stays in use, the number of descriptors of a slot does not matter to its inode. */
  lemma HeldCounted(count: seq<int>, inode: seq<int>, held: seq<int>, f: int, c: int)
    requires Held(count, inode, held) && 0 <= f < NR_FILE && count[f] > 0 && c > 0
    ensures Held(count[f := c], inode, held)
  {
    forall w | 0 <= w < NR_INODE ensures held[w] == Refs(count[f := c], inode, w, |count|) {
      RefsUpdate(count, inode, f, c, inode[f], w, |count|);
      assert inode[f := inode[f]] == inode;
    }
  }

  /** A slot set in the descriptor table, and the count that goes with it. */
  lemma Attached(filp: seq<int>, count: seq<int>, i: int, f: int)
    requires Counted(filp, count) && 0 <= i < SLOTS && filp[i] == NONE && 0 <= f < NR_FILE
    ensures Counted(filp[i := f], count[f := count[f] + 1])
  {
    assert multiset(filp[i := f]) == multiset(filp) - multiset{NONE} + multiset{f};
  }

  lemma Detached(filp: seq<int>, count: seq<int>, i: int)
    requires Counted(filp, count) && 0 <= i < SLOTS && filp[i] != NONE
    ensures count[filp[i]] >= 1 && Counted(filp[i := NONE], count[filp[i] := count[filp[i]] - 1])
  {
    var f := filp[i];
    assert f in multiset(filp);
    assert multiset(filp[i := NONE]) == multiset(filp) - multiset{f} + multiset{NONE};
  }

  /** A file slot is free exactly when no descriptor points at it. */
  lemma FreeIsUnreferenced(filp: seq<int>, count: seq<int>, f: int)
    requires Counted(filp, count) && 0 <= f < NR_FILE
    ensures count[f] == 0 <==> forall i :: 0 <= i < SLOTS ==> filp[i] != f
    ensures 0 <= count[f] <= SLOTS
  {
    if count[f] == 0 {
      assert f !in multiset(filp);
      forall i | 0 <= i < SLOTS ensures filp[i] != f { assert filp[i] in multiset(filp); }
    } else {
      assert f in multiset(filp);
      assert f in filp;
    }
    assert multiset(filp)[f] <= |multiset(filp)|;
  }

  /** What open_namei and the checks on ttys come to: the inode has been taken unless nothing was found. */
  datatype Found = NotFound(error: int) | Refused(inode: int) | Opened(inode: int)

  datatype Call = Open(found: Found) | Dup(fd: nat) | Dup2(oldfd: nat, newfd: nat) | Close(fd: nat)
                | SetMark(fd: nat, on: bool) | MakePipe(inode: int) | Fork(nr: int) | Exec | Exit

  function Slot(t: int, fd: int): int { t * NR_OPEN + fd }

  predicate Task(t: int) { 0 <= t < NR_TASKS }

  /** Task slots that are not in use have no descriptors. */
  ghost predicate DeadEmpty(filp: seq<int>, live: seq<bool>) {
    && |filp| == SLOTS && |live| == NR_TASKS
    && forall t, fd {:trigger Slot(t, fd)} :: Task(t) && !live[t] && 0 <= fd < NR_OPEN ==> filp[Slot(t, fd)] == NONE
  }

  /** fd is the lowest free descriptor of task t. */
  ghost predicate LowestFd(filp: seq<int>, t: int, fd: int) {
    && |filp| == SLOTS && Task(t) && 0 <= fd < NR_OPEN && filp[Slot(t, fd)] == NONE
    && forall k :: 0 <= k < fd ==> filp[Slot(t, k)] != NONE
  }

  /** The lowest free descriptor of task t, if there is one, has lost its mark, and no other. */
  ghost predicate LowestCleared(filp: seq<int>, t: int, marks: seq<bool>, marks': seq<bool>) {
    && |filp| == |marks| == |marks'| == SLOTS && Task(t)
    && (NoFd(filp, t) ==> marks' == marks)
    && (forall fd :: LowestFd(filp, t, fd) ==> marks' == marks[Slot(t, fd) := false])
  }

  lemma ClearsLowest(filp: seq<int>, t: int, marks: seq<bool>, fd: int)
    requires LowestFd(filp, t, fd) && |marks| == SLOTS
    ensures LowestCleared(filp, t, marks, marks[Slot(t, fd) := false]) && !NoFd(filp, t)
  {
  }

  ghost predicate NoFd(filp: seq<int>, t: int) {
    |filp| == SLOTS && Task(t) && forall k :: 0 <= k < NR_OPEN ==> filp[Slot(t, k)] != NONE
  }

  /** f is the lowest free file slot. */
  ghost predicate LowestFile(count: seq<int>, f: int) {
    0 <= f < |count| && count[f] == 0 && forall k :: 0 <= k < f ==> count[k] != 0
  }

  ghost predicate NoFile(count: seq<int>) { forall k :: 0 <= k < |count| ==> count[k] != 0 }

  ghost predicate TwoFiles(count: seq<int>) { exists a, b :: 0 <= a < b < |count| && count[a] == 0 && count[b] == 0 }

  /** The lowest two free file slots, and the lowest two free descriptors of task t. */
  ghost predicate LowestTwoFiles(count: seq<int>, f: int, g: int) {
    0 <= f < g < |count| && forall k :: 0 <= k <= g ==> (count[k] == 0 <==> k == f || k == g)
  }

  lemma LowestTwo(count: seq<int>, taken: seq<int>, f: int, g: int)
    requires LowestFile(count, f) && f < g < |count| && count[g] == 0
    requires taken == count[f := 1] && forall k :: f < k < g ==> taken[k] != 0
    ensures LowestTwoFiles(count, f, g)
  {
    forall k | f < k < g ensures count[k] != 0 { assert taken[k] == count[k]; }
  }

  ghost predicate LowestTwoFds(filp: seq<int>, t: int, a: int, b: int) {
    && |filp| == SLOTS && Task(t) && 0 <= a < b < NR_OPEN
    && forall k :: 0 <= k <= b ==> (filp[Slot(t, k)] == NONE <==> k == a || k == b)
  }

  ghost predicate TwoFds(filp: seq<int>, t: int) {
    && |filp| == SLOTS && Task(t)
    && exists a, b :: 0 <= a < b < NR_OPEN && filp[Slot(t, a)] == NONE && filp[Slot(t, b)] == NONE
  }

  // ------------------------------------------------------------------ what a call comes to

  datatype Tables = Tables(filp: seq<int>, count: seq<int>, inode: seq<int>, held: seq<int>, live: seq<bool>,
                           marks: seq<bool>)

  predicate TablesOk(s: Tables) {
    && |s.filp| == SLOTS == |s.marks| && |s.count| == NR_FILE == |s.inode| && |s.held| == NR_INODE
    && |s.live| == NR_TASKS
  }

  predicate FoundOk(found: Found) {
    if found.NotFound? then found.error < 0 else 0 <= found.inode < NR_INODE
  }

  /** What the call c of task t, with result r, makes of the tables; calls that do not apply change nothing. */
  ghost predicate Outcome(t: int, c: Call, s: Tables, r: int, s': Tables) {
    && TablesOk(s) && TablesOk(s')
    && if !Task(t) || !s.live[t] then s' == s
       else
         match c
         case Open(found) => if FoundOk(found) then OpenDone(t, found, s, r, s') else s' == s
         case Dup(fd) => DupDone(t, fd, s, r, s')
         case Dup2(oldfd, newfd) => Dup2Done(t, oldfd, newfd, s, r, s')
         case Close(fd) => CloseDone(t, fd, s, r, s')
         case SetMark(fd, on) => MarkDone(t, fd, on, s, r, s')
         case MakePipe(inode) =>
           if inode == NONE || (0 <= inode < NR_INODE && s.held[inode] == 0) then PipeDone(t, inode, s, r, s')
           else s' == s
         case Fork(nr) => if Task(nr) && !s.live[nr] then ForkDone(t, nr, s, s') else s' == s
         case Exec => s'.live == s.live && ClosedDone(t, true, s, s') && MarksDone(t, true, s, s')
         case Exit =>
           if t == 0 then s' == s
           else s'.live == s.live[t := false] && ClosedDone(t, false, s, s') && MarksDone(t, false, s, s')
  }

  ghost predicate OpenDone(t: int, found: Found, s: Tables, r: int, s': Tables)
    requires TablesOk(s) && TablesOk(s') && Task(t) && FoundOk(found)
  {
    && s'.live == s.live && (r < 0 <==> !found.Opened? || NoFd(s.filp, t) || NoFile(s.count))
    && (r < 0 ==> s'.filp == s.filp && s'.held == s.held)
    && LowestCleared(s.filp, t, s.marks, s'.marks)
    && (r >= 0 ==>
          && LowestFd(s.filp, t, r) && LowestFile(s.count, s'.filp[Slot(t, r)])
          && s'.filp == s.filp[Slot(t, r) := s'.filp[Slot(t, r)]]
          && s'.inode[s'.filp[Slot(t, r)]] == found.inode
          && s'.held == s.held[found.inode := s.held[found.inode] + 1])
  }

  ghost predicate DupDone(t: int, fd: nat, s: Tables, r: int, s': Tables)
    requires TablesOk(s) && TablesOk(s') && Task(t)
  {
    && s'.live == s.live && s'.held == s.held
    && (r == -EBADF <==> fd >= NR_OPEN || s.filp[Slot(t, fd)] == NONE)
    && (r == -EMFILE <==> r != -EBADF && NoFd(s.filp, t))
    && (r < 0 ==> (r == -EBADF || r == -EMFILE) && s'.filp == s.filp && s'.marks == s.marks)
    && (r >= 0 ==> LowestFd(s.filp, t, r) && fd < NR_OPEN && s'.filp == s.filp[Slot(t, r) := s.filp[Slot(t, fd)]])
    && (r >= 0 ==> s'.marks == s.marks[Slot(t, r) := false])
  }

  ghost predicate Dup2Done(t: int, oldfd: nat, newfd: nat, s: Tables, r: int, s': Tables)
    requires TablesOk(s) && TablesOk(s') && Task(t)
  {
    && s'.live == s.live
    && (r >= 0 <==> oldfd < NR_OPEN && s.filp[Slot(t, oldfd)] != NONE && newfd < NR_OPEN && oldfd != newfd)
    && (r >= 0 ==> r == newfd && s'.filp == s.filp[Slot(t, newfd) := s.filp[Slot(t, oldfd)]])
    && (r < 0 ==> s'.filp == if newfd < NR_OPEN then s.filp[Slot(t, newfd) := NONE] else s.filp)
    && s'.marks == if newfd < NR_OPEN then s.marks[Slot(t, newfd) := false] else s.marks
  }

  ghost predicate CloseDone(t: int, fd: nat, s: Tables, r: int, s': Tables)
    requires TablesOk(s) && TablesOk(s') && Task(t)
  {
    && s'.live == s.live && (r == 0 || r == -EINVAL)
    && (r == 0 <==> fd < NR_OPEN && s.filp[Slot(t, fd)] != NONE)
    && s'.filp == (if r == 0 && fd < NR_OPEN then s.filp[Slot(t, fd) := NONE] else s.filp)
    && s'.marks == if fd < NR_OPEN then s.marks[Slot(t, fd) := false] else s.marks
  }

  ghost predicate MarkDone(t: int, fd: nat, on: bool, s: Tables, r: int, s': Tables)
    requires TablesOk(s) && TablesOk(s') && Task(t)
  {
    && (r == 0 || r == -EBADF) && (r == 0 <==> fd < NR_OPEN && s.filp[Slot(t, fd)] != NONE)
    && s' == if r == 0 && fd < NR_OPEN then s.(marks := s.marks[Slot(t, fd) := on]) else s
  }

  ghost predicate PipeDone(t: int, inode: int, s: Tables, r: int, s': Tables)
    requires TablesOk(s) && TablesOk(s') && Task(t) && (inode == NONE || 0 <= inode < NR_INODE)
  {
    && s'.live == s.live && s'.marks == s.marks && (r == 0 || r == -1)
    && (r == 0 <==> inode != NONE && TwoFiles(s.count) && TwoFds(s.filp, t))
    && (r == -1 ==> s'.filp == s.filp && s'.count == s.count && s'.held == s.held)
    && (r == 0 ==> s'.held == s.held[inode := 2] && exists a, b :: PipeAt(t, inode, s, s', a, b))
  }

  /** Descriptors a and b are the ends of the new pipe. */
  ghost predicate PipeAt(t: int, inode: int, s: Tables, s': Tables, a: nat, b: nat)
    requires TablesOk(s) && TablesOk(s') && Task(t)
  {
    && a < b < NR_OPEN && LowestTwoFds(s.filp, t, a, b)
    && var f, g := s'.filp[Slot(t, a)], s'.filp[Slot(t, b)];
    && LowestTwoFiles(s.count, f, g) && s'.inode[f] == inode == s'.inode[g]
    && s'.count[f] == 1 == s'.count[g] && s'.filp == s.filp[Slot(t, a) := f][Slot(t, b) := g]
  }

  ghost predicate ForkDone(t: int, nr: int, s: Tables, s': Tables)
    requires TablesOk(s) && TablesOk(s') && Task(t) && Task(nr)
  {
    && s'.live == s.live[nr := true]
    && (forall fd :: 0 <= fd < NR_OPEN ==>
          s'.filp[Slot(nr, fd)] == s.filp[Slot(t, fd)] && s'.marks[Slot(nr, fd)] == s.marks[Slot(t, fd)])
    && (forall u, fd {:trigger Slot(u, fd)} :: Task(u) && u != nr && 0 <= fd < NR_OPEN ==>
          s'.filp[Slot(u, fd)] == s.filp[Slot(u, fd)] && s'.marks[Slot(u, fd)] == s.marks[Slot(u, fd)])
  }

  /** The descriptors of t are closed, or those marked. */
  ghost predicate ClosedDone(t: int, marked: bool, s: Tables, s': Tables)
    requires TablesOk(s) && TablesOk(s') && Task(t)
  {
    forall u, fd {:trigger Slot(u, fd)} :: Task(u) && 0 <= fd < NR_OPEN ==>
      s'.filp[Slot(u, fd)] == if u == t && !(marked && !s.marks[Slot(u, fd)]) then NONE else s.filp[Slot(u, fd)]
  }

  /** exec leaves task t without marks; exit takes the mark with each descriptor it closes. */
  ghost predicate MarksDone(t: int, marked: bool, s: Tables, s': Tables)
    requires TablesOk(s) && TablesOk(s') && Task(t)
  {
    forall u, fd {:trigger Slot(u, fd)} :: Task(u) && 0 <= fd < NR_OPEN ==>
      s'.marks[Slot(u, fd)] == (s.marks[Slot(u, fd)] && (u != t || (!marked && s.filp[Slot(u, fd)] == NONE)))
  }

  // ------------------------------------------------------------------ close-on-exec

  /** Only open descriptors are marked. */
  ghost predicate MarksOpen(s: Tables) {
    && TablesOk(s)
    && forall u, fd {:trigger Slot(u, fd)} :: Task(u) && 0 <= fd < NR_OPEN && s.marks[Slot(u, fd)] ==>
         s.filp[Slot(u, fd)] != NONE
  }

  /** No call marks a closed descriptor: sys_pipe, which clears no mark, hands out unmarked ones all the same. */
  lemma OutcomeKeepsMarks(t: int, c: Call, s: Tables, r: int, s': Tables)
    requires Outcome(t, c, s, r, s') && MarksOpen(s)
    ensures MarksOpen(s')
  {
    forall u, fd {:trigger Slot(u, fd)} | Task(u) && 0 <= fd < NR_OPEN && s'.marks[Slot(u, fd)]
      ensures s'.filp[Slot(u, fd)] != NONE
    {
      MarkedStaysOpen(t, c, s, r, s', u, fd);
    }
  }

  lemma MarkedStaysOpen(t: int, c: Call, s: Tables, r: int, s': Tables, u: int, fd: int)
    requires Outcome(t, c, s, r, s') && MarksOpen(s) && Task(u) && 0 <= fd < NR_OPEN && s'.marks[Slot(u, fd)]
    ensures s'.filp[Slot(u, fd)] != NONE
  {
    match c {
      case Fork(nr) => ForkKeepsMark(t, nr, s, r, s', u, fd);
      case Exec =>
      case Exit =>
      case Dup2(_, _) => Dup2KeepsMark(t, c, s, r, s', u, fd);
      case Open(_) => OpenKeepsMark(t, c, s, r, s', u, fd);
      case _ => OneKeepsMark(t, c, s, r, s', u, fd);
    }
  }

  lemma ForkKeepsMark(t: int, nr: int, s: Tables, r: int, s': Tables, u: int, fd: int)
    requires Outcome(t, Fork(nr), s, r, s') && MarksOpen(s) && Task(u) && 0 <= fd < NR_OPEN && s'.marks[Slot(u, fd)]
    ensures s'.filp[Slot(u, fd)] != NONE
  {
  }

  lemma Dup2KeepsMark(t: int, c: Call, s: Tables, r: int, s': Tables, u: int, fd: int)
    requires Outcome(t, c, s, r, s') && MarksOpen(s) && Task(u) && 0 <= fd < NR_OPEN && s'.marks[Slot(u, fd)]
    requires c.Dup2?
    ensures s'.filp[Slot(u, fd)] != NONE
  {
  }

  lemma OpenKeepsMark(t: int, c: Call, s: Tables, r: int, s': Tables, u: int, fd: int)
    requires Outcome(t, c, s, r, s') && MarksOpen(s) && Task(u) && 0 <= fd < NR_OPEN && s'.marks[Slot(u, fd)]
    requires c.Open?
    ensures s'.filp[Slot(u, fd)] != NONE
  {
  }

  lemma OneKeepsMark(t: int, c: Call, s: Tables, r: int, s': Tables, u: int, fd: int)
    requires Outcome(t, c, s, r, s') && MarksOpen(s) && Task(u) && 0 <= fd < NR_OPEN && s'.marks[Slot(u, fd)]
    requires c.Dup? || c.Close? || c.SetMark? || c.MakePipe?
    ensures s'.filp[Slot(u, fd)] != NONE
  {
  }

  /** Call k, with its result, led from state k to state k + 1. */
  ghost predicate Follows(cs: seq<(int, Call)>, rs: seq<int>, states: seq<Tables>, n: nat) {
    n <= |cs| && |rs| == n && |states| == n + 1 && forall k :: 0 <= k < n ==> CallAt(cs, rs, states, k)
  }

  ghost predicate CallAt(cs: seq<(int, Call)>, rs: seq<int>, states: seq<Tables>, k: nat) {
    k < |cs| && k < |rs| && k + 1 < |states| && Outcome(cs[k].0, cs[k].1, states[k], rs[k], states[k + 1])
  }

  lemma FollowsNext(cs: seq<(int, Call)>, rs: seq<int>, states: seq<Tables>, n: nat, r: int, s: Tables)
    requires Follows(cs, rs, states, n) && n < |cs| && Outcome(cs[n].0, cs[n].1, states[n], r, s)
    ensures Follows(cs, rs + [r], states + [s], n + 1)
  {
    var rs', states' := rs + [r], states + [s];
    forall k | 0 <= k < n + 1 ensures CallAt(cs, rs', states', k) { if k < n { assert CallAt(cs, rs, states, k); } }
  }

  /** Over every run: marks stay on open descriptors. */
  lemma {:induction false} RunKeepsMarks(cs: seq<(int, Call)>, rs: seq<int>, states: seq<Tables>, n: nat, k: nat)
    requires Follows(cs, rs, states, n) && k <= n && MarksOpen(states[0])
    ensures MarksOpen(states[k])
  {
    if k > 0 {
      RunKeepsMarks(cs, rs, states, n, k - 1);
      assert CallAt(cs, rs, states, k - 1);
      OutcomeKeepsMarks(cs[k - 1].0, cs[k - 1].1, states[k - 1], rs[k - 1], states[k]);
    }
  }

  /** Call c of task t has made descriptor fd: it was closed before, or dup2 has just given it another file. */
  ghost predicate Made(t: int, c: Call, s: Tables, r: int, s': Tables, fd: nat) {
    && Task(t) && TablesOk(s) && TablesOk(s') && s.live[t] && fd < NR_OPEN && Outcome(t, c, s, r, s')
    && s'.filp[Slot(t, fd)] != NONE
    && match c
       case Open(found) => FoundOk(found) && r == fd
       case Dup(_) => r == fd
       case Dup2(_, _) => r == fd
       case MakePipe(_) => r == 0 && s.filp[Slot(t, fd)] == NONE
       case _ => false
  }

  /** A new descriptor survives an exec; a descriptor survives it exactly when it is not marked. */
  lemma NewSurvivesExec(t: int, c: Call, s: Tables, r: int, s': Tables, fd: nat, x: int, s'': Tables)
    requires MarksOpen(s) && Made(t, c, s, r, s', fd) && Outcome(t, Exec, s', x, s'')
    ensures s''.filp[Slot(t, fd)] == s'.filp[Slot(t, fd)] != NONE
    ensures forall k :: 0 <= k < NR_OPEN && s'.filp[Slot(t, k)] != NONE ==>
              (s''.filp[Slot(t, k)] == NONE <==> s'.marks[Slot(t, k)])
    ensures forall k :: 0 <= k < NR_OPEN ==> !s''.marks[Slot(t, k)]
  {
    MadeUnmarked(t, c, s, r, s', fd);
  }

  lemma MadeUnmarked(t: int, c: Call, s: Tables, r: int, s': Tables, fd: nat)
    requires MarksOpen(s) && Made(t, c, s, r, s', fd)
    ensures !s'.marks[Slot(t, fd)] && s'.live[t]
  {
  }

  class FileTable {
    const filp: array<int>
    const fCount: array<int>
    const fInode: array<int>
    // i_count of the inodes, as far as files hold them
    const iCount: array<int>
    const closeOnExec: array<bool>
    const live: array<bool>

    ghost predicate Shape()
      reads this
    {
      && filp.Length == SLOTS && closeOnExec.Length == SLOTS && live.Length == NR_TASKS
      && fCount.Length == NR_FILE && fInode.Length == NR_FILE && iCount.Length == NR_INODE
      && filp != fCount && filp != fInode && filp != iCount
      && fCount != fInode && fCount != iCount && fInode != iCount && closeOnExec != live
    }

    ghost predicate Valid()
      reads this, filp, fCount, fInode, iCount, live
    {
      && Shape() && Counted(filp[..], fCount[..])
      && Held(fCount[..], fInode[..], iCount[..])
      && DeadEmpty(filp[..], live[..])
    }

    ghost function Now(): (s: Tables)
      requires Shape()
      reads this, filp, fCount, fInode, iCount, live, closeOnExec
      ensures TablesOk(s)
    {
      Tables(filp[..], fCount[..], fInode[..], iCount[..], live[..], closeOnExec[..])
    }

    /** Nothing open, task 0 alone. */
    constructor ()
      ensures Valid() && fresh(filp) && fresh(fCount) && fresh(fInode) && fresh(iCount) && fresh(closeOnExec) &&
              fresh(live)
      ensures MarksOpen(Now())
    {
      filp := new int[SLOTS](_ => NONE);
      fCount, fInode, iCount := new int[NR_FILE](_ => 0), new int[NR_FILE](_ => 0), new int[NR_INODE](_ => 0);
      closeOnExec, live := new bool[SLOTS](_ => false), new bool[NR_TASKS](t => t == 0);
      new;
      NothingHeld(fCount[..], fInode[..], NR_FILE);
    }

    /** sys_close (open.c:175-191): the inode is released exactly when the last descriptor goes. */
    method SysClose(t: int, fd: nat) returns (r: int)
      requires Valid() && Task(t)
      modifies filp, fCount, iCount, closeOnExec
      ensures Valid()
      ensures r == 0 <==> fd < NR_OPEN && old(filp[Slot(t, fd)]) != NONE
      ensures closeOnExec[..] ==
              if fd < NR_OPEN then old(closeOnExec[..])[Slot(t, fd) := false] else old(closeOnExec[..])
      ensures r != 0 ==> r == -EINVAL && filp[..] == old(filp[..]) && iCount[..] == old(iCount[..])
      ensures r == 0 ==> filp[..] == old(filp[..])[Slot(t, fd) := NONE]
      ensures r == 0 ==> var f := old(filp[Slot(t, fd)]);
                (if forall i :: 0 <= i < SLOTS && i != Slot(t, fd) ==> filp[i] != f
                 then iCount[..] == old(iCount[..])[fInode[f] := old(iCount[fInode[f]]) - 1]
                 else iCount[..] == old(iCount[..]))
    {
      if fd >= NR_OPEN { return -EINVAL; }
      var i := Slot(t, fd);
      closeOnExec[i] := false;
      var f := filp[i];
      if f == NONE { return -EINVAL; }
      filp[i] := NONE;
      fCount[f] := fCount[f] - 1;
      if fCount[f] == 0 { iCount[fInode[f]] := iCount[fInode[f]] - 1; }
      r := 0;
      ClosedKeeps(old(filp[..]), old(fCount[..]), fInode[..], old(iCount[..]), live[..], t, fd,
        filp[..], fCount[..], iCount[..]);
    }

    /** The lowest free descriptor of task t from `from` on, or NR_OPEN. */
    method FreeFd(t: int, from: nat) returns (fd: nat)
      requires Shape() && Task(t) && from <= NR_OPEN
      ensures from <= fd <= NR_OPEN && (fd < NR_OPEN ==> filp[Slot(t, fd)] == NONE)
      ensures forall k :: from <= k < fd ==> filp[Slot(t, k)] != NONE
    {
      fd := from;
      while fd < NR_OPEN && filp[Slot(t, fd)] != NONE
        invariant from <= fd <= NR_OPEN && forall k :: from <= k < fd ==> filp[Slot(t, k)] != NONE
      {
        fd := fd + 1;
      }
    }

    /** The lowest free file slot from `from` on, or NR_FILE. */
    method FreeFile(from: nat) returns (f: nat)
      requires Shape() && from <= NR_FILE
      ensures from <= f <= NR_FILE && (f < NR_FILE ==> fCount[f] == 0)
      ensures forall k :: from <= k < f ==> fCount[k] != 0
    {
      f := from;
      while f < NR_FILE && fCount[f] != 0
        invariant from <= f <= NR_FILE && forall k :: from <= k < f ==> fCount[k] != 0
      {
        f := f + 1;
      }
    }

    /** The lowest free descriptor loses its mark (open.c:130-135); NR_OPEN when there is none. */
    method FreshFd(t: int) returns (fd: nat)
      requires Shape() && Task(t)
      modifies closeOnExec
      ensures if fd < NR_OPEN then LowestFd(filp[..], t, fd) && !NoFd(filp[..], t) else NoFd(filp[..], t)
      ensures LowestCleared(filp[..], t, old(closeOnExec[..]), closeOnExec[..])
    {
      fd := FreeFd(t, 0);
      if fd >= NR_OPEN { return; }
      ClearsLowest(filp[..], t, closeOnExec[..], fd);
      closeOnExec[Slot(t, fd)] := false;
      assert closeOnExec[..] == old(closeOnExec[..])[Slot(t, fd) := false];
    }

    /** sys_open (open.c:123-167); `found` is what open_namei gives and has taken the inode. */
    method SysOpen(t: int, found: Found) returns (r: int)
      requires Valid() && Task(t) && live[t]
      requires found.NotFound? ==> found.error < 0
      requires !found.NotFound? ==> 0 <= found.inode < NR_INODE
      modifies filp, fCount, fInode, iCount, closeOnExec
      ensures Valid()
      ensures r < 0 <==> !found.Opened? || NoFd(old(filp[..]), t) || NoFile(old(fCount[..]))
      ensures r < 0 ==> filp[..] == old(filp[..]) && iCount[..] == old(iCount[..])
      ensures r >= 0 ==> LowestFd(old(filp[..]), t, r)
      ensures LowestCleared(old(filp[..]), t, old(closeOnExec[..]), closeOnExec[..])
      ensures r >= 0 ==> var f := filp[Slot(t, r)];
                && LowestFile(old(fCount[..]), f) && fCount[f] == 1 && fInode[f] == found.inode
                && filp[..] == old(filp[..])[Slot(t, r) := f]
                && iCount[..] == old(iCount[..])[found.inode := old(iCount[found.inode]) + 1]
    {
      var fd := FreshFd(t);
      if fd >= NR_OPEN { return -EINVAL; }
      var f := FreeFile(0);
      if f >= NR_FILE { return -EINVAL; }
      r := OpenAt(t, fd, f, found);
    }

    /** The rest of sys_open: the descriptor is taken first and given back when the file cannot be opened. */
    method OpenAt(t: int, fd: nat, f: nat, found: Found) returns (r: int)
      requires Valid() && Task(t) && live[t] && fd < NR_OPEN && f < NR_FILE && filp[Slot(t, fd)] == NONE &&
               fCount[f] == 0
      requires found.NotFound? ==> found.error < 0
      requires !found.NotFound? ==> 0 <= found.inode < NR_INODE
      modifies filp, fCount, fInode, iCount
      ensures Valid()
      ensures !found.Opened? ==> r < 0 && filp[..] == old(filp[..]) && iCount[..] == old(iCount[..])
      ensures found.Opened? ==>
                && r == fd && fCount[f] == 1 && fInode[f] == found.inode
                && filp[..] == old(filp[..])[Slot(t, fd) := f]
                && iCount[..] == old(iCount[..])[found.inode := old(iCount[found.inode]) + 1]
    {
      filp[Slot(t, fd)] := f;
      fCount[f] := fCount[f] + 1;
      if found.Opened? {
        iCount[found.inode] := iCount[found.inode] + 1;
        fCount[f] := 1;
        fInode[f] := found.inode;
        OpenedKeeps(old(filp[..]), old(fCount[..]), old(fInode[..]), old(iCount[..]), live[..], t, fd, f, found.inode);
        assert filp[..] == old(filp[..])[Slot(t, fd) := f];
        assert fCount[..] == old(fCount[..])[f := 1];
        assert fInode[..] == old(fInode[..])[f := found.inode];
        assert iCount[..] == old(iCount[..])[found.inode := old(iCount[..])[found.inode] + 1];
        return fd;
      }
      // a refused inode is given back by iput
      filp[Slot(t, fd)] := NONE;
      fCount[f] := 0;
      assert filp[..] == old(filp[..]) && fCount[..] == old(fCount[..]);
      r := if found.NotFound? then found.error else -EPERM;
    }

    /** dupfd (fcntl.c:12-28): the lowest free descriptor from `arg` on becomes another name of the file. */
    method DupFd(t: int, fd: nat, arg: nat) returns (r: int)
      requires Valid() && Task(t) && live[t]
      modifies filp, fCount, closeOnExec
      ensures Valid()
      ensures r == -EBADF <==> fd >= NR_OPEN || old(filp[Slot(t, fd)]) == NONE
      ensures r == -EINVAL <==> r != -EBADF && arg >= NR_OPEN
      ensures r == -EMFILE <==>
                r != -EBADF && arg < NR_OPEN && forall k :: arg <= k < NR_OPEN ==> old(filp[Slot(t, k)]) != NONE
      ensures r < 0 ==> (r == -EBADF || r == -EINVAL || r == -EMFILE) && filp[..] == old(filp[..])
      ensures r >= 0 ==> arg <= r < NR_OPEN && old(filp[Slot(t, r)]) == NONE
      ensures r >= 0 ==> filp[..] == old(filp[..])[Slot(t, r) := old(filp[Slot(t, fd)])]
      ensures r >= 0 ==> forall k :: arg <= k < r ==> old(filp[Slot(t, k)]) != NONE
      ensures closeOnExec[..] == if r >= 0 then old(closeOnExec[..])[Slot(t, r) := false] else old(closeOnExec[..])
    {
      if fd >= NR_OPEN || filp[Slot(t, fd)] == NONE { return -EBADF; }
      if arg >= NR_OPEN { return -EINVAL; }
      var k := FreeFd(t, arg);
      if k >= NR_OPEN { return -EMFILE; }
      closeOnExec[Slot(t, k)] := false;
      var f := filp[Slot(t, fd)];
      filp[Slot(t, k)] := f;
      fCount[f] := fCount[f] + 1;
      r := k;
      SharedKeeps(old(filp[..]), old(fCount[..]), fInode[..], iCount[..], live[..], t, k, f);
      assert filp[..] == old(filp[..])[Slot(t, k) := f];
      assert fCount[..] == old(fCount[..])[f := old(fCount[..])[f] + 1];
    }

    /** sys_dup (fcntl.c:36-39). */
    method SysDup(t: int, fd: nat) returns (r: int)
      requires Valid() && Task(t) && live[t]
      modifies filp, fCount, closeOnExec
      ensures Valid()
      ensures r == -EBADF <==> fd >= NR_OPEN || old(filp[Slot(t, fd)]) == NONE
      ensures r == -EMFILE <==> r != -EBADF && NoFd(old(filp[..]), t)
      ensures r >= 0 ==> LowestFd(old(filp[..]), t, r)
      ensures r >= 0 ==> filp[..] == old(filp[..])[Slot(t, r) := old(filp[Slot(t, fd)])]
      ensures r < 0 ==> (r == -EBADF || r == -EMFILE) && filp[..] == old(filp[..])
      ensures closeOnExec[..] == if r >= 0 then old(closeOnExec[..])[Slot(t, r) := false] else old(closeOnExec[..])
    {
      r := DupFd(t, fd, 0);
    }

    /** sys_dup2 (fcntl.c:30-34) closes newfd first: it gives newfd exactly when oldfd is open, newfd is in
        range and the two differ, and dup2 of a descriptor onto itself closes it. */
    method SysDup2(t: int, oldfd: nat, newfd: nat) returns (r: int)
      requires Valid() && Task(t) && live[t]
      modifies filp, fCount, iCount, closeOnExec
      ensures Valid()
      ensures r >= 0 <==> oldfd < NR_OPEN && old(filp[Slot(t, oldfd)]) != NONE && newfd < NR_OPEN && oldfd != newfd
      ensures r >= 0 ==> r == newfd && filp[..] == old(filp[..])[Slot(t, newfd) := old(filp[Slot(t, oldfd)])]
      ensures r < 0 && newfd < NR_OPEN ==> filp[..] == old(filp[..])[Slot(t, newfd) := NONE]
      ensures r < 0 && newfd >= NR_OPEN ==> filp[..] == old(filp[..])
      ensures closeOnExec[..] ==
              if newfd < NR_OPEN then old(closeOnExec[..])[Slot(t, newfd) := false] else old(closeOnExec[..])
    {
      ghost var p, m := filp[..], closeOnExec[..];
      var c := SysClose(t, newfd);
      assert newfd < NR_OPEN ==> filp[..] == p[Slot(t, newfd) := NONE];
      assert closeOnExec[..] == if newfd < NR_OPEN then m[Slot(t, newfd) := false] else m;
      r := DupFd(t, oldfd, newfd);
    }

    /** sys_fcntl with F_SETFD (fcntl.c:45-57). */
    method SetFd(t: int, fd: nat, on: bool) returns (r: int)
      requires Valid() && Task(t)
      modifies closeOnExec
      ensures Valid() && (r == 0 || r == -EBADF) && (r == 0 <==> fd < NR_OPEN && filp[Slot(t, fd)] != NONE)
      ensures closeOnExec[..] ==
              if r == 0 && fd < NR_OPEN then old(closeOnExec[..])[Slot(t, fd) := on] else old(closeOnExec[..])
    {
      if fd >= NR_OPEN || filp[Slot(t, fd)] == NONE { return -EBADF; }
      closeOnExec[Slot(t, fd)] := on;
      r := 0;
    }

    /** Two file slots for a pipe; a single one is given back (pipe.c:60-67). */
    method TakeFiles() returns (ok: bool, f0: nat, f1: nat)
      requires Shape()
      modifies fCount
      ensures !ok ==> fCount[..] == old(fCount[..])
      ensures ok ==> f0 < f1 < NR_FILE && old(fCount[f0]) == 0 == old(fCount[f1])
      ensures ok ==> fCount[..] == old(fCount[..])[f0 := 1][f1 := 1]
      ensures ok ==> LowestTwoFiles(old(fCount[..]), f0, f1)
      ensures ok <==> TwoFiles(old(fCount[..]))
    {
      ok, f1 := false, 0;
      f0 := FreeFile(0);
      if f0 >= NR_FILE { return; }
      ghost var was := fCount[..];
      assert forall k :: 0 <= k < f0 ==> was[k] != 0;
      fCount[f0] := fCount[f0] + 1;
      assert fCount[..] == was[f0 := 1];
      f1 := FreeFile(f0 + 1);
      ghost var now := fCount[..];
      assert forall k :: f0 < k < f1 ==> now[k] != 0;
      if f1 >= NR_FILE {
        fCount[f0] := 0;
        return;
      }
      LowestTwo(was, now, f0, f1);
      fCount[f1] := fCount[f1] + 1;
      ok := true;
    }

    /** Two descriptors for it (pipe.c:68-79). */
    method TakeFds(t: int, f0: nat, f1: nat) returns (ok: bool, fd0: nat, fd1: nat)
      requires Shape() && Task(t) && f0 < NR_FILE && f1 < NR_FILE
      modifies filp
      ensures !ok ==> filp[..] == old(filp[..])
      ensures ok ==> fd0 < fd1 < NR_OPEN && old(filp[Slot(t, fd0)]) == NONE == old(filp[Slot(t, fd1)])
      ensures ok ==> filp[..] == old(filp[..])[Slot(t, fd0) := f0][Slot(t, fd1) := f1]
      ensures ok ==> LowestTwoFds(old(filp[..]), t, fd0, fd1)
      ensures ok <==> TwoFds(old(filp[..]), t)
    {
      ok, fd1 := false, 0;
      fd0 := FreeFd(t, 0);
      if fd0 >= NR_OPEN { return; }
      filp[Slot(t, fd0)] := f0;
      fd1 := FreeFd(t, fd0 + 1);
      if fd1 >= NR_OPEN {
        filp[Slot(t, fd0)] := NONE;
        return;
      }
      filp[Slot(t, fd1)] := f1;
      ok := true;
    }

    /** sys_pipe (pipe.c:52-92); `inode` is a free inode, or NONE when there is none. A failure at any stage
        leaves everything as it was. */
    method SysPipe(t: int, inode: int) returns (r: int, fd0: nat, fd1: nat)
      requires Valid() && Task(t) && live[t] && (inode == NONE || (0 <= inode < NR_INODE && iCount[inode] == 0))
      modifies filp, fCount, fInode, iCount
      ensures Valid() && (r == 0 || r == -1)
      ensures r == 0 <==> inode != NONE && TwoFiles(old(fCount[..])) && TwoFds(old(filp[..]), t)
      ensures r == -1 ==> filp[..] == old(filp[..]) && fCount[..] == old(fCount[..]) && iCount[..] == old(iCount[..])
      ensures r == 0 ==> LowestTwoFds(old(filp[..]), t, fd0, fd1)
      ensures r == 0 ==> inode != NONE && iCount[..] == old(iCount[..])[inode := 2]
      ensures r == 0 ==> var f0, f1 := filp[Slot(t, fd0)], filp[Slot(t, fd1)];
                && LowestTwoFiles(old(fCount[..]), f0, f1)
                && fCount[f0] == 1 == fCount[f1] && fInode[f0] == inode == fInode[f1]
                && filp[..] == old(filp[..])[Slot(t, fd0) := f0][Slot(t, fd1) := f1]
    {
      r, fd0, fd1 := -1, 0, 0;
      var ok, f0, f1 := TakeFiles();
      if !ok { return; }
      ok, fd0, fd1 := TakeFds(t, f0, f1);
      if ok && inode != NONE {
        FinishPipe(t, fd0, fd1, f0, f1, inode, old(filp[..]), old(fCount[..]));
        return 0, fd0, fd1;
      }
      if ok { DropFds(t, fd0, fd1, old(filp[..])); }
      DropFiles(f0, f1, old(fCount[..]));
    }

    /** No inode: the two descriptors are given back (pipe.c:80-83). */
    method DropFds(t: int, fd0: nat, fd1: nat, ghost was: seq<int>)
      requires Shape() && Task(t) && fd0 < NR_OPEN && fd1 < NR_OPEN && |was| == SLOTS
      requires was[Slot(t, fd0)] == NONE == was[Slot(t, fd1)]
      requires forall i :: 0 <= i < SLOTS && i != Slot(t, fd0) && i != Slot(t, fd1) ==> filp[i] == was[i]
      modifies filp
      ensures filp[..] == was
    {
      filp[Slot(t, fd0)] := NONE;
      filp[Slot(t, fd1)] := NONE;
    }

    /** No descriptors or no inode: the two file slots are given back. */
    method DropFiles(f0: nat, f1: nat, ghost was: seq<int>)
      requires Shape() && f0 < NR_FILE && f1 < NR_FILE && |was| == NR_FILE && was[f0] == 0 == was[f1]
      requires fCount[..] == was[f0 := 1][f1 := 1]
      modifies fCount
      ensures fCount[..] == was
    {
      fCount[f0] := 0;
      fCount[f1] := 0;
    }

    /** The end of sys_pipe (pipe.c:86-92): both files name the new inode, whose count is 2. */
    method FinishPipe(t: int, fd0: nat, fd1: nat, f0: nat, f1: nat, inode: nat, ghost p: seq<int>, ghost c: seq<int>)
      requires Shape() && Counted(p, c) && Held(c, fInode[..], iCount[..]) && DeadEmpty(p, live[..])
      requires Task(t) && live[t] && fd0 < fd1 < NR_OPEN && p[Slot(t, fd0)] == NONE == p[Slot(t, fd1)]
      requires f0 < f1 < NR_FILE && c[f0] == 0 == c[f1] && inode < NR_INODE && iCount[inode] == 0
      requires filp[..] == p[Slot(t, fd0) := f0][Slot(t, fd1) := f1] && fCount[..] == c[f0 := 1][f1 := 1]
      modifies fInode, iCount
      ensures Valid() && fInode[f0] == inode == fInode[f1] && iCount[..] == old(iCount[..])[inode := 2]
    {
      PipeKeeps(p, c, fInode[..], iCount[..], live[..], t, fd0, fd1, f0, f1, inode);
      iCount[inode] := 2;
      fInode[f0] := inode;
      fInode[f1] := inode;
      assert fInode[..] == old(fInode[..])[f0 := inode][f1 := inode];
      assert iCount[..] == old(iCount[..])[inode := 2];
    }

    /** The descriptor loop of copy_process (fork.c:115-117): the child shares every open file. */
    method CopyFiles(t: int, nr: int)
      requires Valid() && Task(t) && live[t] && Task(nr) && !live[nr]
      modifies filp, fCount, live, closeOnExec
      ensures Valid() && live[..] == old(live[..])[nr := true]
      ensures forall fd :: 0 <= fd < NR_OPEN ==>
                filp[Slot(nr, fd)] == old(filp[Slot(t, fd)]) &&
                  closeOnExec[Slot(nr, fd)] == old(closeOnExec[Slot(t, fd)])
      ensures forall u, fd {:trigger Slot(u, fd)} :: Task(u) && u != nr && 0 <= fd < NR_OPEN ==>
                filp[Slot(u, fd)] == old(filp[Slot(u, fd)]) &&
                  closeOnExec[Slot(u, fd)] == old(closeOnExec[Slot(u, fd)])
    {
      CopyMarks(t, nr);
      ShareFiles(t, nr);
    }

    /** The close_on_exec word comes with the copied task structure. */
    method CopyMarks(t: int, nr: int)
      requires Shape() && Task(t) && Task(nr) && t != nr
      modifies closeOnExec
      ensures forall fd :: 0 <= fd < NR_OPEN ==> closeOnExec[Slot(nr, fd)] == old(closeOnExec[Slot(t, fd)])
      ensures forall i :: 0 <= i < SLOTS && !(Slot(nr, 0) <= i < Slot(nr, NR_OPEN)) ==>
              closeOnExec[i] == old(closeOnExec[i])
    {
      for fd := 0 to NR_OPEN
        invariant forall k :: 0 <= k < fd ==> closeOnExec[Slot(nr, k)] == old(closeOnExec[Slot(t, k)])
        invariant forall i :: 0 <= i < SLOTS && !(Slot(nr, 0) <= i < Slot(nr, NR_OPEN)) ==>
                  closeOnExec[i] == old(closeOnExec[i])
      {
        closeOnExec[Slot(nr, fd)] := closeOnExec[Slot(t, fd)];
      }
    }

    method ShareFiles(t: int, nr: int)
      requires Valid() && Task(t) && live[t] && Task(nr) && !live[nr]
      modifies filp, fCount, live
      ensures Valid() && live[..] == old(live[..])[nr := true]
      ensures forall fd :: 0 <= fd < NR_OPEN ==> filp[Slot(nr, fd)] == old(filp[Slot(t, fd)])
      ensures forall u, fd {:trigger Slot(u, fd)} :: Task(u) && u != nr && 0 <= fd < NR_OPEN ==>
                filp[Slot(u, fd)] == old(filp[Slot(u, fd)])
    {
      assert forall fd :: 0 <= fd < NR_OPEN ==> filp[Slot(nr, fd)] == NONE;
      live[nr] := true;
      var i := 0;
      while i < NR_OPEN
        invariant 0 <= i <= NR_OPEN && Valid() && live[..] == old(live[..])[nr := true]
        invariant forall fd :: 0 <= fd < NR_OPEN ==>
                    filp[Slot(nr, fd)] == if fd < i then old(filp[Slot(t, fd)]) else NONE
        invariant forall u, fd {:trigger Slot(u, fd)} :: Task(u) && u != nr && 0 <= fd < NR_OPEN ==>
                    filp[Slot(u, fd)] == old(filp[Slot(u, fd)])
      {
        CopyFile(t, nr, i);
        i := i + 1;
      }
    }

    method CopyFile(t: int, nr: int, i: nat)
      requires Valid() && Task(t) && Task(nr) && live[nr] && i < NR_OPEN && filp[Slot(nr, i)] == NONE
      modifies filp, fCount
      ensures Valid() && filp[..] == old(filp[..])[Slot(nr, i) := old(filp[Slot(t, i)])]
    {
      var f := filp[Slot(t, i)];
      if f == NONE { return; }
      filp[Slot(nr, i)] := f;
      fCount[f] := fCount[f] + 1;
      SharedKeeps(old(filp[..]), old(fCount[..]), fInode[..], iCount[..], live[..], nr, i, f);
      assert filp[..] == old(filp[..])[Slot(nr, i) := f];
      assert fCount[..] == old(fCount[..])[f := old(fCount[..])[f] + 1];
    }

    /** The closing loops of do_exit (exit.c:73-75; every descriptor) and do_execve (exec.c:432-434; those
        marked close-on-exec). */
    method CloseAll(t: int, marked: bool)
      requires Valid() && Task(t)
      modifies filp, fCount, iCount, closeOnExec
      ensures Valid()
      ensures forall fd :: 0 <= fd < NR_OPEN ==>
                filp[Slot(t, fd)] == if marked && !old(closeOnExec[Slot(t, fd)]) then old(filp[Slot(t, fd)]) else NONE
      ensures forall fd :: 0 <= fd < NR_OPEN ==>
                closeOnExec[Slot(t, fd)] == (old(closeOnExec[Slot(t, fd)]) && !marked && old(filp[Slot(t, fd)]) == NONE)
      ensures forall u, fd {:trigger Slot(u, fd)} :: Task(u) && u != t && 0 <= fd < NR_OPEN ==>
                filp[Slot(u, fd)] == old(filp[Slot(u, fd)]) &&
                  closeOnExec[Slot(u, fd)] == old(closeOnExec[Slot(u, fd)])
    {
      var i := 0;
      while i < NR_OPEN
        invariant 0 <= i <= NR_OPEN && Valid()
        invariant forall fd :: 0 <= fd < i ==>
                    closeOnExec[Slot(t, fd)] ==
                      (old(closeOnExec[Slot(t, fd)]) && !marked && old(filp[Slot(t, fd)]) == NONE)
        invariant forall fd :: 0 <= fd < NR_OPEN ==>
                    filp[Slot(t, fd)] == if fd < i && !(marked && !old(closeOnExec[Slot(t, fd)])) then NONE
                      else old(filp[Slot(t, fd)])
        invariant forall fd :: i <= fd < NR_OPEN ==> closeOnExec[Slot(t, fd)] == old(closeOnExec[Slot(t, fd)])
        invariant forall u, fd {:trigger Slot(u, fd)} :: Task(u) && u != t && 0 <= fd < NR_OPEN ==>
                    filp[Slot(u, fd)] == old(filp[Slot(u, fd)]) &&
                      closeOnExec[Slot(u, fd)] == old(closeOnExec[Slot(u, fd)])
      {
        CloseOne(t, i, marked);
        i := i + 1;
      }
    }

    /** One turn of either loop. */
    method CloseOne(t: int, fd: nat, marked: bool)
      requires Valid() && Task(t) && fd < NR_OPEN
      modifies filp, fCount, iCount, closeOnExec
      ensures Valid()
      ensures var i := Slot(t, fd);
              if (if marked then old(closeOnExec[i]) else old(filp[i]) != NONE)
              then filp[..] == old(filp[..])[i := NONE] && closeOnExec[..] == old(closeOnExec[..])[i := false]
              else filp[..] == old(filp[..]) && closeOnExec[..] == old(closeOnExec[..])
    {
      if if marked then closeOnExec[Slot(t, fd)] else filp[Slot(t, fd)] != NONE {
        var r := SysClose(t, fd);
        assert filp[Slot(t, fd)] == NONE;
        assert filp[..] == old(filp[..])[Slot(t, fd) := NONE];
      }
    }

    /** do_exit: the task slot ends with no descriptors. */
    method ExitFiles(t: int)
      requires Valid() && Task(t) && live[t]
      modifies filp, fCount, iCount, closeOnExec, live
      ensures Valid() && live[..] == old(live[..])[t := false]
      ensures forall u, fd {:trigger Slot(u, fd)} :: Task(u) && 0 <= fd < NR_OPEN ==>
                filp[Slot(u, fd)] == (if u == t then NONE else old(filp[Slot(u, fd)])) &&
                  closeOnExec[Slot(u, fd)] ==
                    (old(closeOnExec[Slot(u, fd)]) && (u != t || old(filp[Slot(u, fd)]) == NONE))
    {
      CloseAll(t, false);
      live[t] := false;
    }

    /** One call by task t; calls by tasks that do not exist, and malformed ones, do nothing. */
    method Step(t: int, c: Call) returns (r: int)
      requires Valid()
      modifies filp, fCount, fInode, iCount, closeOnExec, live
      ensures Valid() && Outcome(t, c, old(Now()), r, Now())
    {
      r := 0;
      if !Task(t) || !live[t] { return; }
      match c {
        case Open(found) => r := StepOpen(t, found);
        case Dup(fd) => r := StepDup(t, fd);
        case Dup2(a, b) => r := StepDup2(t, a, b);
        case Close(fd) => r := StepClose(t, fd);
        case SetMark(fd, on) => r := StepMark(t, fd, on);
        case MakePipe(inode) => r := StepPipe(t, inode);
        case Fork(nr) => StepFork(t, nr, r);
        case Exec => StepExec(t, r);
        case Exit => StepExit(t, r);
      }
    }

    method StepOpen(t: int, found: Found) returns (r: int)
      requires Valid() && Task(t) && live[t]
      modifies filp, fCount, fInode, iCount, closeOnExec
      ensures Valid() && Outcome(t, Open(found), old(Now()), r, Now())
    {
      r := 0;
      if FoundOk(found) { r := SysOpen(t, found); }
    }

    method StepDup(t: int, fd: nat) returns (r: int)
      requires Valid() && Task(t) && live[t]
      modifies filp, fCount, closeOnExec
      ensures Valid() && Outcome(t, Dup(fd), old(Now()), r, Now())
    {
      r := SysDup(t, fd);
    }

    method StepDup2(t: int, a: nat, b: nat) returns (r: int)
      requires Valid() && Task(t) && live[t]
      modifies filp, fCount, iCount, closeOnExec
      ensures Valid() && Outcome(t, Dup2(a, b), old(Now()), r, Now())
    {
      r := SysDup2(t, a, b);
    }

    method StepClose(t: int, fd: nat) returns (r: int)
      requires Valid() && Task(t) && live[t]
      modifies filp, fCount, iCount, closeOnExec
      ensures Valid() && Outcome(t, Close(fd), old(Now()), r, Now())
    {
      r := SysClose(t, fd);
    }

    method StepMark(t: int, fd: nat, on: bool) returns (r: int)
      requires Valid() && Task(t) && live[t]
      modifies closeOnExec
      ensures Valid() && Outcome(t, SetMark(fd, on), old(Now()), r, Now())
    {
      r := SetFd(t, fd, on);
    }

    method StepFork(t: int, nr: int, ghost r: int)
      requires Valid() && Task(t) && live[t]
      modifies filp, fCount, live, closeOnExec
      ensures Valid() && Outcome(t, Fork(nr), old(Now()), r, Now())
    {
      if Task(nr) && !live[nr] { CopyFiles(t, nr); }
    }

    method StepExec(t: int, ghost r: int)
      requires Valid() && Task(t) && live[t]
      modifies filp, fCount, iCount, closeOnExec
      ensures Valid() && Outcome(t, Exec, old(Now()), r, Now())
    {
      CloseAll(t, true);
    }

    method StepExit(t: int, ghost r: int)
      requires Valid() && Task(t) && live[t]
      modifies filp, fCount, iCount, closeOnExec, live
      ensures Valid() && Outcome(t, Exit, old(Now()), r, Now())
    {
      if t != 0 { ExitFiles(t); }
    }

    method StepPipe(t: int, inode: int) returns (r: int)
      requires Valid() && Task(t) && live[t]
      modifies filp, fCount, fInode, iCount
      ensures Valid() && Outcome(t, MakePipe(inode), old(Now()), r, Now())
    {
      r := 0;
      if inode == NONE || (0 <= inode < NR_INODE && iCount[inode] == 0) {
        ghost var s := Now();
        var a, b;
        r, a, b := SysPipe(t, inode);
        if r == 0 { assert PipeAt(t, inode, s, Now(), a, b); }
      }
    }

    /** Every run keeps the counts, a file slot counts its descriptors, an inode the file slots in use; and every call
        comes to exactly what it should in the state it met. */
    method Run(cs: seq<(int, Call)>) returns (ghost rs: seq<int>, ghost states: seq<Tables>)
      requires Valid()
      modifies filp, fCount, fInode, iCount, closeOnExec, live
      ensures Valid()
      ensures forall f :: 0 <= f < NR_FILE ==> fCount[f] == multiset(filp[..])[f]
      ensures forall v :: 0 <= v < NR_INODE ==> iCount[v] == Refs(fCount[..], fInode[..], v, NR_FILE)
      ensures Follows(cs, rs, states, |cs|) && states[0] == old(Now()) && states[|cs|] == Now()
      ensures MarksOpen(old(Now())) ==> MarksOpen(Now())
    {
      rs, states := [], [Now()];
      for i := 0 to |cs|
        invariant Valid() && Follows(cs, rs, states, i) && states[0] == old(Now()) && states[i] == Now()
      {
        var r := Step(cs[i].0, cs[i].1);
        FollowsNext(cs, rs, states, i, r, Now());
        rs, states := rs + [r], states + [Now()];
      }
      if MarksOpen(states[0]) { RunKeepsMarks(cs, rs, states, |cs|, |cs|); }
    }
  }

  lemma PipeKeeps(filp: seq<int>, count: seq<int>, inode: seq<int>, held: seq<int>, live: seq<bool>,
                  t: int, fd0: int, fd1: int, f0: int, f1: int, v: int)
    requires Counted(filp, count) && Held(count, inode, held) && DeadEmpty(filp, live)
    requires Task(t) && live[t] && 0 <= fd0 < fd1 < NR_OPEN && filp[Slot(t, fd0)] == NONE == filp[Slot(t, fd1)]
    requires 0 <= f0 < f1 < NR_FILE && count[f0] == 0 == count[f1] && 0 <= v < NR_INODE && held[v] == 0
    ensures var filp', count' := filp[Slot(t, fd0) := f0][Slot(t, fd1) := f1], count[f0 := 1][f1 := 1];
            Counted(filp', count') && DeadEmpty(filp', live) && Held(count', inode[f0 := v][f1 := v], held[v := 2])
  {
    OpenedKeeps(filp, count, inode, held, live, t, fd0, f0, v);
    OpenedKeeps(filp[Slot(t, fd0) := f0], count[f0 := 1], inode[f0 := v], held[v := 1], live, t, fd1, f1, v);
    assert held[v := 1][v := 2] == held[v := 2];
  }

  lemma OpenedKeeps(filp: seq<int>, count: seq<int>, inode: seq<int>, held: seq<int>, live: seq<bool>,
                    t: int, fd: int, f: int, v: int)
    requires Counted(filp, count) && Held(count, inode, held) && DeadEmpty(filp, live)
    requires Task(t) && live[t] && 0 <= fd < NR_OPEN && filp[Slot(t, fd)] == NONE
    requires 0 <= f < NR_FILE && count[f] == 0 && 0 <= v < NR_INODE
    ensures Counted(filp[Slot(t, fd) := f], count[f := 1]) && DeadEmpty(filp[Slot(t, fd) := f], live)
    ensures Held(count[f := 1], inode[f := v], held[v := held[v] + 1])
  {
    Attached(filp, count, Slot(t, fd), f);
    HeldOpened(count, inode, held, f, v);
  }

  lemma SharedKeeps(filp: seq<int>, count: seq<int>, inode: seq<int>, held: seq<int>, live: seq<bool>,
                    t: int, fd: int, f: int)
    requires Counted(filp, count) && Held(count, inode, held) && DeadEmpty(filp, live)
    requires Task(t) && live[t] && 0 <= fd < NR_OPEN && filp[Slot(t, fd)] == NONE
    requires 0 <= f < NR_FILE && f in filp
    ensures Counted(filp[Slot(t, fd) := f], count[f := count[f] + 1]) && DeadEmpty(filp[Slot(t, fd) := f], live)
    ensures Held(count[f := count[f] + 1], inode, held)
  {
    Attached(filp, count, Slot(t, fd), f);
    FreeIsUnreferenced(filp, count, f);
    HeldCounted(count, inode, held, f, count[f] + 1);
  }

  lemma {:induction false} NothingHeld(count: seq<int>, inode: seq<int>, k: nat)
    requires |count| == |inode| && k <= |count| && forall f :: 0 <= f < |count| ==> count[f] == 0
    ensures forall v :: Refs(count, inode, v, k) == 0
    decreases k
  {
    if k > 0 { NothingHeld(count, inode, k - 1); }
  }

  lemma ClosedKeeps(filp: seq<int>, count: seq<int>, inode: seq<int>, held: seq<int>, live: seq<bool>,
                    t: int, fd: int, filp': seq<int>, count': seq<int>, held': seq<int>)
    requires Counted(filp, count) && Held(count, inode, held) && DeadEmpty(filp, live) && Task(t) && 0 <= fd < NR_OPEN
    requires filp[Slot(t, fd)] != NONE && filp' == filp[Slot(t, fd) := NONE]
    requires var f := filp[Slot(t, fd)];
             && count' == count[f := count[f] - 1]
             && held' == if count'[f] == 0 && 0 <= inode[f] < NR_INODE then held[inode[f] := held[inode[f]] - 1]
                else held
    ensures Counted(filp', count') && Held(count', inode, held') && DeadEmpty(filp', live)
    ensures var f := filp[Slot(t, fd)];
            count'[f] == 0 <==> forall i :: 0 <= i < SLOTS && i != Slot(t, fd) ==> filp'[i] != f
  {
    var f := filp[Slot(t, fd)];
    Detached(filp, count, Slot(t, fd));
    FreeIsUnreferenced(filp', count', f);
    if count[f] == 1 { HeldClosed(count, inode, held, f); } else { HeldCounted(count, inode, held, f, count[f] - 1); }
  }
}

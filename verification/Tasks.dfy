/**
 Task slots, descriptor tables and pipes of `kernel/sched.c`, as values.  Every kernel entry runs
 with interrupts off, so each system call is one step.  `Inv` is what every step keeps: reference
 counts are exact, a blocked task is blocked for a reason that still holds, and `wait` neither loses
 nor duplicates a death.
 */
module Tasks {
  import opened Bytes

  const TASK_MAX: nat := 16
  const FD_MAX: nat := 8
  const PIPE_MAX: nat := 4
  const PIPE_CAP: nat := 0x1000

  datatype Kind = Unused | File | PipeR | PipeW | ConsoleR | ConsoleW

  datatype Fd = Fd(kind: Kind, pipe: int, offset: nat, path: string)

  const NOFD: Fd := Fd(Unused, -1, 0, "")

  datatype RunState = Dead | Ready | Sleep | InWait | InPipe | InKbd

  /**
   A slot.  `blockFd` and `blockWrite` stand for the saved registers of the read or write call that
   a task in `InPipe` will repeat; `gen` counts the occupants of the slot and is not in the source.
   */
  datatype Task = Task(
    state: RunState, fds: seq<Fd>, parent: int, waitPid: int, exitCode: nat, reaped: bool, rax: int,
    pipeWait: int, blockFd: int, blockWrite: bool, gen: nat)

  /** A ring of `PIPE_CAP` bytes.  `wrote` and `got` record all bytes ever written and read. */
  datatype Pipe = Pipe(
    used: bool, data: seq<Byte>, head: nat, len: nat, rrefs: nat, wrefs: nat, wrote: seq<Byte>, got: seq<Byte>)

  /** A code handed to a parent, and whose it was: the slot and its occupant. */
  datatype Receipt = Receipt(who: (nat, nat), code: int)

  /** `died` records exit codes by slot and occupant, `collected` every code handed out; `unbound` the pipes never given an end. */
  datatype State = State(
    tasks: seq<Task>, pipes: seq<Pipe>, unbound: set<nat>, died: map<(nat, nat), nat>, collected: seq<Receipt>)

  // ----- descriptor ends -----

  type End = (nat, nat)

  predicate IsPipe(e: Fd) {
    e.kind == PipeR || e.kind == PipeW
  }

  predicate IsEnd(tasks: seq<Task>, kind: Kind, p: int, x: End) {
    x.0 < |tasks| && x.1 < |tasks[x.0].fds| && tasks[x.0].fds[x.1].kind == kind && tasks[x.0].fds[x.1].pipe == p
  }

  /** The open descriptors of this kind on pipe `p`, over all tasks. */
  ghost function Ends(tasks: seq<Task>, kind: Kind, p: int): set<End> {
    set i, j | 0 <= i < |tasks| && 0 <= j < |tasks[i].fds| && IsEnd(tasks, kind, p, (i, j)) :: (i, j)
  }

  function WithFd(tasks: seq<Task>, i: nat, j: nat, e: Fd): seq<Task>
    requires i < |tasks| && j < |tasks[i].fds|
  {
    tasks[i := tasks[i].(fds := tasks[i].fds[j := e])]
  }

  lemma EndsAfterSet(tasks: seq<Task>, i: nat, j: nat, e: Fd, kind: Kind, p: int)
    requires i < |tasks| && j < |tasks[i].fds|
    ensures Ends(WithFd(tasks, i, j, e), kind, p)
         == if e.kind == kind && e.pipe == p then Ends(tasks, kind, p) + {(i, j)} else Ends(tasks, kind, p) - {(i, j)}
  {
    var tasks' := WithFd(tasks, i, j, e);
    forall x: End ensures IsEnd(tasks', kind, p, x)
                       == if x == (i, j) then e.kind == kind && e.pipe == p else IsEnd(tasks, kind, p, x) {
    }
  }

  /** Two task tables with the same descriptors have the same ends. */
  lemma SameFdsSameEnds(tasks: seq<Task>, tasks': seq<Task>, kind: Kind, p: int)
    requires |tasks| == |tasks'| && forall i | 0 <= i < |tasks| :: tasks'[i].fds == tasks[i].fds
    ensures Ends(tasks', kind, p) == Ends(tasks, kind, p)
  {
    forall x: End ensures IsEnd(tasks', kind, p, x) == IsEnd(tasks, kind, p, x) {
    }
  }

  // ----- the invariant -----

  predicate Shape(s: State) {
    && |s.tasks| == TASK_MAX && |s.pipes| == PIPE_MAX
    && (forall i | 0 <= i < |s.tasks| :: |s.tasks[i].fds| == FD_MAX)
  }

  /** The counts of a pipe are the numbers of its open ends; a pipe not in use has none. */
  ghost predicate CountOk(tasks: seq<Task>, pipes: seq<Pipe>, p: nat)
    requires p < |pipes|
  {
    && pipes[p].rrefs == |Ends(tasks, PipeR, p)| && pipes[p].wrefs == |Ends(tasks, PipeW, p)|
    && (!pipes[p].used ==> pipes[p].rrefs == 0 && pipes[p].wrefs == 0)
  }

  /** An open end names a pipe that exists, and an unused entry is blank. */
  ghost predicate FdOk(e: Fd) {
    (IsPipe(e) ==> 0 <= e.pipe < PIPE_MAX) && (e.kind == Unused ==> e == NOFD)
  }

  ghost predicate CountsExact(s: State) {
    && (forall p {:trigger CountOk(s.tasks, s.pipes, p)} | 0 <= p < |s.pipes| :: CountOk(s.tasks, s.pipes, p))
    && (forall i, j | 0 <= i < |s.tasks| && 0 <= j < |s.tasks[i].fds| :: FdOk(s.tasks[i].fds[j]))
  }

  /** A pipe in use has an open end, unless the kernel made it and has not bound it yet. */
  ghost predicate InUseOk(s: State, p: nat)
    requires p < |s.pipes|
  {
    && (s.pipes[p].used ==> s.pipes[p].rrefs > 0 || s.pipes[p].wrefs > 0 || p in s.unbound)
    && (p in s.unbound ==> s.pipes[p].used && s.pipes[p].rrefs == 0 && s.pipes[p].wrefs == 0)
  }

  /** Why a task in `InPipe` cannot go on: its pipe is empty, or full, and the other side is open. */
  ghost predicate Reason(t: Task, pipes: seq<Pipe>) {
    && 0 <= t.pipeWait < |pipes| && 0 <= t.blockFd < |t.fds|
    && t.fds[t.blockFd].pipe == t.pipeWait
    && var q := pipes[t.pipeWait];
       && q.used
       && if t.blockWrite then t.fds[t.blockFd].kind == PipeW && q.len == PIPE_CAP && q.rrefs > 0
          else t.fds[t.blockFd].kind == PipeR && q.len == 0 && q.wrefs > 0
  }

  ghost predicate Reasons(s: State) {
    forall i {:trigger Reason(s.tasks[i], s.pipes)} | 0 <= i < |s.tasks| && s.tasks[i].state == InPipe ::
      Reason(s.tasks[i], s.pipes)
  }

  /** The bytes held by a ring, oldest first. */
  function Held(q: Pipe): seq<Byte>
    requires |q.data| == PIPE_CAP
  {
    seq(q.len, i => q.data[(q.head + i) % PIPE_CAP])
  }

  /** A pipe is a queue: what was read, followed by what it holds, is what was written. */
  ghost predicate RingOk(q: Pipe) {
    && |q.data| == PIPE_CAP && q.head < PIPE_CAP && q.len <= PIPE_CAP
    && q.got + Held(q) == q.wrote
  }

  ghost predicate DeadClosed(t: Task) {
    t.state == Dead ==> forall j | 0 <= j < |t.fds| :: t.fds[j].kind == Unused
  }

  ghost predicate PipesOk(s: State) {
    && Shape(s) && CountsExact(s) && Reasons(s)
    && (forall p {:trigger InUseOk(s, p)} | 0 <= p < |s.pipes| :: InUseOk(s, p))
    && (forall p {:trigger RingOk(s.pipes[p])} | 0 <= p < |s.pipes| :: RingOk(s.pipes[p]))
    && (forall i {:trigger DeadClosed(s.tasks[i])} | 0 <= i < |s.tasks| :: DeadClosed(s.tasks[i]))
  }

  // ----- wait -----

  /** `child_of`: slot `c` is a child of slot `p` that has not been collected. */
  predicate ChildOf(tasks: seq<Task>, p: int, c: int) {
    0 <= p && 0 <= c < |tasks| && tasks[c].parent == p && !tasks[c].reaped
  }

  /** The child a waiter would accept; 0 accepts any. */
  predicate Matches(want: int, c: int) {
    want == 0 || want == c
  }

  ghost predicate WaitOk(tasks: seq<Task>, p: nat)
    requires p < |tasks|
  {
    tasks[p].state == InWait ==>
      && (exists c :: ChildOf(tasks, p, c) && Matches(tasks[p].waitPid, c) && tasks[c].state != Dead)
      && (forall c :: ChildOf(tasks, p, c) && Matches(tasks[p].waitPid, c) ==> tasks[c].state != Dead)
  }

  predicate Collected(log: seq<Receipt>, d: (nat, nat)) {
    exists k | 0 <= k < |log| :: log[k].who == d
  }

  /** No death was handed out twice, and each with its own code. */
  ghost predicate LogOk(s: State) {
    && (forall k | 0 <= k < |s.collected| :: s.collected[k].who in s.died && s.died[s.collected[k].who] == s.collected[k].code)
    && (forall j, k | 0 <= j < k < |s.collected| :: s.collected[j].who != s.collected[k].who)
  }

  lemma CollectedMore(log: seq<Receipt>, r: Receipt, d: (nat, nat))
    ensures Collected(log + [r], d) <==> Collected(log, d) || d == r.who
  {
    if Collected(log, d) {
      var k :| 0 <= k < |log| && log[k].who == d;
      assert (log + [r])[k].who == d;
    }
    if d == r.who {
      assert (log + [r])[|log|].who == d;
    }
  }

  /** The death of an occupant with a parent is recorded; until it is collected, the slot keeps its code. */
  ghost predicate SlotOk(s: State, i: nat)
    requires i < |s.tasks|
  {
    var t := s.tasks[i];
    && (t.state != Dead ==> !t.reaped)
    && ((i, t.gen) in s.died <==> t.state == Dead && t.parent >= 0)
    && ((i, t.gen) in s.died ==> s.died[(i, t.gen)] == t.exitCode)
    && (Collected(s.collected, (i, t.gen)) <==> t.state == Dead && t.parent >= 0 && t.reaped)
    && (t.reaped ==> t.parent >= 0)
    && t.parent != i
  }

  /** A recorded death has been collected, or its slot still holds it. */
  ghost predicate DeathOk(s: State, d: (nat, nat))
    requires d in s.died
  {
    && d.0 < |s.tasks| && d.1 <= s.tasks[d.0].gen
    && (Collected(s.collected, d) || StillHeld(s, d))
  }

  /** The slot still belongs to the dead occupant and keeps its code. */
  ghost predicate StillHeld(s: State, d: (nat, nat)) {
    && d in s.died && d.0 < |s.tasks| && d.1 == s.tasks[d.0].gen
    && s.tasks[d.0].state == Dead && s.tasks[d.0].exitCode == s.died[d]
  }

  ghost predicate WaitsOk(s: State) {
    && Shape(s)
    && (forall i {:trigger WaitOk(s.tasks, i)} | 0 <= i < |s.tasks| :: WaitOk(s.tasks, i))
    && (forall i {:trigger SlotOk(s, i)} | 0 <= i < |s.tasks| :: SlotOk(s, i))
    && (forall d {:trigger DeathOk(s, d)} | d in s.died :: DeathOk(s, d))
    && LogOk(s)
  }

  ghost predicate Inv(s: State) {
    Shape(s) && PipesOk(s) && WaitsOk(s)
  }

  /** The slot looks the same to `wait`. */
  ghost predicate SameToWait(t: Task, t': Task) {
    && t'.parent == t.parent && t'.waitPid == t.waitPid && t'.exitCode == t.exitCode && t'.reaped == t.reaped
    && t'.gen == t.gen && (t'.state == InWait ==> t.state == InWait) && (t'.state == Dead <==> t.state == Dead)
  }

  /** Steps that only move descriptors, bytes or sleepers do not touch what `wait` relies on. */
  lemma WaitsKept(s: State, s': State)
    requires WaitsOk(s) && Shape(s') && s'.died == s.died && s'.collected == s.collected
    requires forall i | 0 <= i < |s.tasks| :: SameToWait(s.tasks[i], s'.tasks[i])
    ensures WaitsOk(s')
  {
    forall i | 0 <= i < |s'.tasks| ensures WaitOk(s'.tasks, i) && SlotOk(s', i) {
      assert WaitOk(s.tasks, i) && SlotOk(s, i);
      if s'.tasks[i].state == InWait {
        var c :| ChildOf(s.tasks, i, c) && Matches(s.tasks[i].waitPid, c) && s.tasks[c].state != Dead;
        assert ChildOf(s'.tasks, i, c);
        forall c' | ChildOf(s'.tasks, i, c') && Matches(s'.tasks[i].waitPid, c') ensures s'.tasks[c'].state != Dead {
          assert ChildOf(s.tasks, i, c');
        }
      }
    }
    forall d <- s'.died ensures DeathOk(s', d) {
      assert DeathOk(s, d);
    }
  }

  // ----- waking and dropping -----

  function Woken(t: Task, p: int): Task {
    if t.state == InPipe && t.pipeWait == p then t.(state := Ready, pipeWait := -1) else t
  }

  /** `wake_pipe_waiters`. */
  function WakeWaiters(tasks: seq<Task>, p: int): (r: seq<Task>)
    ensures |r| == |tasks| && forall i | 0 <= i < |r| :: r[i] == Woken(tasks[i], p)
  {
    seq(|tasks|, i requires 0 <= i < |tasks| => Woken(tasks[i], p))
  }

  const NOPIPE: Pipe := Pipe(false, EmptyRing(), 0, 0, 0, 0, [], [])

  function EmptyRing(): (d: seq<Byte>)
    ensures |d| == PIPE_CAP
  {
    seq(PIPE_CAP, _ => 0)
  }

  function LessOne(n: nat): nat {
    if n > 0 then n - 1 else 0
  }

  /** The pipe with one end of this kind fewer. */
  function EndClosed(q: Pipe, kind: Kind): Pipe {
    if kind == PipeR then q.(rrefs := LessOne(q.rrefs)) else q.(wrefs := LessOne(q.wrefs))
  }

  /** `drop_fd`: closes a descriptor; the last end of a pipe frees the pipe, and any end wakes its waiters. */
  function DropFd(s: State, i: nat, j: nat): (s': State)
    requires Shape(s) && i < TASK_MAX && j < FD_MAX
    ensures Shape(s')
  {
    var e := s.tasks[i].fds[j];
    if e.kind == Unused then s
    else if IsPipe(e) && 0 <= e.pipe < PIPE_MAX && s.pipes[e.pipe].used then
      var q := EndClosed(s.pipes[e.pipe], e.kind);
      var q' := if q.rrefs == 0 && q.wrefs == 0 then NOPIPE else q;
      s.(tasks := WithFd(WakeWaiters(s.tasks, e.pipe), i, j, NOFD), pipes := s.pipes[e.pipe := q'])
    else s.(tasks := WithFd(s.tasks, i, j, NOFD))
  }

  lemma EndIff(tasks: seq<Task>, kind: Kind, p: int, i: nat, j: nat)
    requires i < |tasks| && j < |tasks[i].fds|
    ensures (i, j) in Ends(tasks, kind, p) <==> tasks[i].fds[j].kind == kind && tasks[i].fds[j].pipe == p
    ensures (i, j) in Ends(tasks, kind, p) ==> |Ends(tasks, kind, p)| > 0
  {
    assert IsEnd(tasks, kind, p, (i, j)) <==> (i, j) in Ends(tasks, kind, p);
  }

  function One(b: bool): nat {
    if b then 1 else 0
  }

  /** Replacing a descriptor moves the number of ends by what it was and what it becomes. */
  lemma EndsCount(tasks: seq<Task>, i: nat, j: nat, e: Fd, kind: Kind, p: int)
    requires i < |tasks| && j < |tasks[i].fds|
    ensures |Ends(WithFd(tasks, i, j, e), kind, p)|
         == |Ends(tasks, kind, p)| - One(tasks[i].fds[j].kind == kind && tasks[i].fds[j].pipe == p) + One(e.kind == kind && e.pipe == p)
  {
    hide Ends, IsEnd;
    EndsAfterSet(tasks, i, j, e, kind, p);
    EndIff(tasks, kind, p, i, j);
    var a := Ends(tasks, kind, p);
    if (i, j) in a {
      assert a + {(i, j)} == a;
      assert |a - {(i, j)}| == |a| - 1;
    } else {
      assert a - {(i, j)} == a;
    }
  }

  /** Dropping a pipe end lowers the count of its pipe, and of no other. */
  lemma DropFdCounts(s: State, i: nat, j: nat)
    requires Shape(s) && CountsExact(s) && i < TASK_MAX && j < FD_MAX
    ensures CountsExact(DropFd(s, i, j))
  {
    hide Ends, IsEnd;
    var e := s.tasks[i].fds[j];
    var s' := DropFd(s, i, j);
    assert FdOk(e);
    if e.kind != Unused {
      forall p | 0 <= p < PIPE_MAX ensures CountOk(s'.tasks, s'.pipes, p) {
        DropFdCount(s, i, j, p);
      }
    }
  }

  lemma DropFdCount(s: State, i: nat, j: nat, p: nat)
    requires Shape(s) && CountsExact(s) && i < TASK_MAX && j < FD_MAX && s.tasks[i].fds[j].kind != Unused && p < PIPE_MAX
    ensures CountOk(DropFd(s, i, j).tasks, DropFd(s, i, j).pipes, p)
  {
    hide Ends, IsEnd;
    var e := s.tasks[i].fds[j];
    assert FdOk(e) && CountOk(s.tasks, s.pipes, p);
    var w := WakeWaiters(s.tasks, e.pipe);
    SameFdsSameEnds(s.tasks, w, PipeR, p);
    SameFdsSameEnds(s.tasks, w, PipeW, p);
    EndsCount(s.tasks, i, j, NOFD, PipeR, p);
    EndsCount(s.tasks, i, j, NOFD, PipeW, p);
    EndsCount(w, i, j, NOFD, PipeR, p);
    EndsCount(w, i, j, NOFD, PipeW, p);
    if IsPipe(e) {
      assert CountOk(s.tasks, s.pipes, e.pipe);
      EndIff(s.tasks, e.kind, e.pipe, i, j);
    }
  }

  /** No task waits on `p` after its waiters were woken, and the others still wait for their reason. */
  lemma DropFdReasons(s: State, i: nat, j: nat)
    requires PipesOk(s) && i < TASK_MAX && j < FD_MAX
    ensures Reasons(DropFd(s, i, j))
  {
    hide Ends, IsEnd, RingOk, InUseOk, DeadClosed;
    var e := s.tasks[i].fds[j];
    var s' := DropFd(s, i, j);
    assert FdOk(e);
    if IsPipe(e) {
      assert CountOk(s.tasks, s.pipes, e.pipe);
      EndIff(s.tasks, e.kind, e.pipe, i, j);
    }
    forall k | 0 <= k < TASK_MAX && s'.tasks[k].state == InPipe ensures Reason(s'.tasks[k], s'.pipes) {
      assert Reason(s.tasks[k], s.pipes);
    }
  }

  lemma DropFdKeeps(s: State, i: nat, j: nat)
    requires Inv(s) && i < TASK_MAX && j < FD_MAX
    ensures Inv(DropFd(s, i, j))
    ensures DropFd(s, i, j).tasks[i].fds[j].kind == Unused
  {
    hide Ends, IsEnd, Reason, CountOk;
    var e := s.tasks[i].fds[j];
    var s' := DropFd(s, i, j);
    DropFdCounts(s, i, j);
    DropFdReasons(s, i, j);
    DropFdRest(s, i, j);
    forall k | 0 <= k < TASK_MAX ensures SameToWait(s.tasks[k], s'.tasks[k]) {
    }
    WaitsKept(s, s');
  }

  lemma DropFdRest(s: State, i: nat, j: nat)
    requires PipesOk(s) && i < TASK_MAX && j < FD_MAX
    ensures forall p | 0 <= p < PIPE_MAX :: InUseOk(DropFd(s, i, j), p) && RingOk(DropFd(s, i, j).pipes[p])
    ensures forall k | 0 <= k < TASK_MAX :: DeadClosed(DropFd(s, i, j).tasks[k])
  {
    hide Ends, IsEnd;
    var e := s.tasks[i].fds[j];
    var s' := DropFd(s, i, j);
    assert FdOk(e);
    if IsPipe(e) {
      assert CountOk(s.tasks, s.pipes, e.pipe);
      EndIff(s.tasks, e.kind, e.pipe, i, j);
      assert InUseOk(s, e.pipe);
    }
    forall p | 0 <= p < PIPE_MAX ensures InUseOk(s', p) && RingOk(s'.pipes[p]) {
      assert InUseOk(s, p) && RingOk(s.pipes[p]);
    }
    forall k | 0 <= k < TASK_MAX ensures DeadClosed(s'.tasks[k]) {
      assert DeadClosed(s.tasks[k]);
    }
  }

  // ----- opening -----

  /** The pipe with one end of this kind more. */
  function EndOpened(q: Pipe, kind: Kind): Pipe {
    if kind == PipeR then q.(rrefs := q.rrefs + 1) else q.(wrefs := q.wrefs + 1)
  }

  predicate CanOpen(s: State, i: nat, j: nat, e: Fd) {
    && |s.tasks| == TASK_MAX && |s.pipes| == PIPE_MAX && i < TASK_MAX && |s.tasks[i].fds| == FD_MAX && j < FD_MAX
    && s.tasks[i].fds[j].kind == Unused && s.tasks[i].state != Dead
    && (IsPipe(e) ==> 0 <= e.pipe < PIPE_MAX && s.pipes[e.pipe].used)
    && e.kind != Unused
  }

  /** Puts an open descriptor into an unused entry, counting it if it is a pipe end. */
  function OpenFd(s: State, i: nat, j: nat, e: Fd): (s': State)
    requires CanOpen(s, i, j, e)
    ensures Shape(s) ==> Shape(s')
  {
    var t := s.(tasks := WithFd(s.tasks, i, j, e));
    if IsPipe(e) then t.(pipes := t.pipes[e.pipe := EndOpened(t.pipes[e.pipe], e.kind)], unbound := t.unbound - {e.pipe}) else t
  }

  lemma OpenFdCounts(s: State, i: nat, j: nat, e: Fd)
    requires Shape(s) && CountsExact(s) && CanOpen(s, i, j, e)
    ensures CountsExact(OpenFd(s, i, j, e))
  {
    hide Ends, IsEnd;
    var s' := OpenFd(s, i, j, e);
    forall p | 0 <= p < PIPE_MAX ensures CountOk(s'.tasks, s'.pipes, p) {
      assert CountOk(s.tasks, s.pipes, p);
      EndsCount(s.tasks, i, j, e, PipeR, p);
      EndsCount(s.tasks, i, j, e, PipeW, p);
    }
  }

  lemma OpenFdKeeps(s: State, i: nat, j: nat, e: Fd)
    requires Inv(s) && CanOpen(s, i, j, e)
    ensures Inv(OpenFd(s, i, j, e))
  {
    hide Ends, IsEnd, CountOk;
    var s' := OpenFd(s, i, j, e);
    OpenFdCounts(s, i, j, e);
    forall k | 0 <= k < TASK_MAX && s'.tasks[k].state == InPipe ensures Reason(s'.tasks[k], s'.pipes) {
      assert Reason(s.tasks[k], s.pipes);
    }
    forall p | 0 <= p < PIPE_MAX ensures InUseOk(s', p) && RingOk(s'.pipes[p]) {
      assert InUseOk(s, p) && RingOk(s.pipes[p]);
    }
    forall k | 0 <= k < TASK_MAX ensures DeadClosed(s'.tasks[k]) {
      assert DeadClosed(s.tasks[k]);
    }
    forall k | 0 <= k < TASK_MAX ensures SameToWait(s.tasks[k], s'.tasks[k]) {
    }
    WaitsKept(s, s');
  }

  /** An open pipe end keeps its pipe in use. */
  lemma EndMeansUsed(s: State, i: nat, j: nat)
    requires PipesOk(s) && i < TASK_MAX && j < FD_MAX && IsPipe(s.tasks[i].fds[j])
    ensures 0 <= s.tasks[i].fds[j].pipe < PIPE_MAX && s.pipes[s.tasks[i].fds[j].pipe].used
  {
    hide Ends, IsEnd;
    var e := s.tasks[i].fds[j];
    assert FdOk(e);
    assert CountOk(s.tasks, s.pipes, e.pipe);
    EndIff(s.tasks, e.kind, e.pipe, i, j);
  }

  /** What `drop_fd` does to the task table. */
  lemma DropFdEffect(s: State, i: nat, j: nat)
    requires PipesOk(s) && i < TASK_MAX && j < FD_MAX
    ensures Shape(DropFd(s, i, j))
    ensures DropFd(s, i, j).tasks[i].fds == s.tasks[i].fds[j := NOFD]
    ensures forall k | 0 <= k < TASK_MAX :: SameToWait(s.tasks[k], DropFd(s, i, j).tasks[k])
    ensures forall k | 0 <= k < TASK_MAX && k != i :: DropFd(s, i, j).tasks[k].fds == s.tasks[k].fds
    ensures forall k | 0 <= k < TASK_MAX && s.tasks[k].state != InPipe :: DropFd(s, i, j).tasks[k].state == s.tasks[k].state
    ensures DropFd(s, i, j).died == s.died && DropFd(s, i, j).collected == s.collected
  {
    hide Ends, IsEnd, Reasons, RingOk, InUseOk, CountOk;
    assert FdOk(s.tasks[i].fds[j]);
  }

  /** `clear_fds`, up to entry `n`. */
  function ClearFds(s: State, i: nat, n: nat): (s': State)
    requires Shape(s) && i < TASK_MAX && n <= FD_MAX
    ensures Shape(s')
  {
    if n == 0 then s else DropFd(ClearFds(s, i, n - 1), i, n - 1)
  }

  lemma {:induction false} ClearFdsKeeps(s: State, i: nat, n: nat)
    requires Inv(s) && i < TASK_MAX && n <= FD_MAX
    ensures Inv(ClearFds(s, i, n))
    ensures forall j | 0 <= j < n :: ClearFds(s, i, n).tasks[i].fds[j].kind == Unused
    ensures forall k | 0 <= k < TASK_MAX :: SameToWait(s.tasks[k], ClearFds(s, i, n).tasks[k])
    ensures forall k | 0 <= k < TASK_MAX && k != i :: ClearFds(s, i, n).tasks[k].fds == s.tasks[k].fds
    ensures ClearFds(s, i, n).died == s.died && ClearFds(s, i, n).collected == s.collected
  {
    hide DropFd, Ends, IsEnd, Reasons, RingOk, InUseOk, CountOk, WaitsOk;
    if n > 0 {
      ClearFdsKeeps(s, i, n - 1);
      DropFdKeeps(ClearFds(s, i, n - 1), i, n - 1);
      DropFdEffect(ClearFds(s, i, n - 1), i, n - 1);
    }
  }

  /** `inherit_fds`, up to entry `n`: the child opens what the parent has open. */
  function InheritFds(s: State, dst: nat, src: nat, n: nat): (s': State)
    requires Shape(s) && dst < TASK_MAX && src < TASK_MAX && n <= FD_MAX
    ensures Shape(s')
  {
    if n == 0 then s
    else
      var t := InheritFds(s, dst, src, n - 1);
      var e := t.tasks[src].fds[n - 1];
      if CanOpen(t, dst, n - 1, e) then OpenFd(t, dst, n - 1, e) else t
  }

  lemma {:induction false} InheritFdsKeeps(s: State, dst: nat, src: nat, n: nat)
    requires Inv(s) && dst < TASK_MAX && src < TASK_MAX && n <= FD_MAX && dst != src && s.tasks[dst].state == Ready
    requires forall j | 0 <= j < FD_MAX :: s.tasks[dst].fds[j].kind == Unused
    ensures Inv(InheritFds(s, dst, src, n))
    ensures forall j | 0 <= j < FD_MAX ::
              InheritFds(s, dst, src, n).tasks[dst].fds[j] == if j < n then s.tasks[src].fds[j] else NOFD
    ensures forall k | 0 <= k < TASK_MAX && k != dst :: InheritFds(s, dst, src, n).tasks[k] == s.tasks[k]
    ensures InheritFds(s, dst, src, n).tasks[dst] == s.tasks[dst].(fds := InheritFds(s, dst, src, n).tasks[dst].fds)
    ensures InheritFds(s, dst, src, n).died == s.died && InheritFds(s, dst, src, n).collected == s.collected
  {
    hide Ends, IsEnd, Reasons, RingOk, WaitsOk, InUseOk, CountOk, OpenFd;
    if n == 0 {
      forall j | 0 <= j < FD_MAX ensures s.tasks[dst].fds[j] == NOFD {
        assert FdOk(s.tasks[dst].fds[j]);
      }
    } else {
      InheritFdsKeeps(s, dst, src, n - 1);
      InheritStep(InheritFds(s, dst, src, n - 1), dst, src, n - 1);
    }
  }

  lemma InheritStep(t: State, dst: nat, src: nat, j: nat)
    requires Inv(t) && dst < TASK_MAX && src < TASK_MAX && j < FD_MAX && dst != src && t.tasks[dst].state == Ready
    requires t.tasks[dst].fds[j] == NOFD
    ensures var e := t.tasks[src].fds[j];
      if CanOpen(t, dst, j, e) then
        && Inv(OpenFd(t, dst, j, e))
        && OpenFd(t, dst, j, e).tasks == t.tasks[dst := t.tasks[dst].(fds := t.tasks[dst].fds[j := e])]
        && OpenFd(t, dst, j, e).died == t.died && OpenFd(t, dst, j, e).collected == t.collected
      else e == NOFD
  {
    hide Ends, IsEnd, Reasons, RingOk, WaitsOk, InUseOk, CountOk;
    var e := t.tasks[src].fds[j];
    assert FdOk(e);
    if IsPipe(e) {
      EndMeansUsed(t, src, j);
    }
    if CanOpen(t, dst, j, e) {
      OpenFdKeeps(t, dst, j, e);
    }
  }

  /** `sched_fd_dup2` in the table of task `i`; -1 for a bad or unused descriptor. */
  function Dup2(s: State, i: nat, oldfd: int, newfd: int): (r: (int, State))
    requires Shape(s) && i < TASK_MAX
    ensures Shape(r.1)
  {
    if !(0 <= oldfd < FD_MAX) || !(0 <= newfd < FD_MAX) || s.tasks[i].fds[oldfd].kind == Unused then (-1, s)
    else if oldfd == newfd then (newfd, s)
    else
      var t := DropFd(s, i, newfd);
      var e := t.tasks[i].fds[oldfd];
      if CanOpen(t, i, newfd, e) then (newfd, OpenFd(t, i, newfd, e)) else (-1, t)
  }

  /** The table after a successful `dup2`: one entry is a copy of another, the rest is as it was. */
  lemma Dup2Keeps(s: State, i: nat, oldfd: int, newfd: int)
    requires Inv(s) && i < TASK_MAX && s.tasks[i].state == Ready
    ensures Inv(Dup2(s, i, oldfd, newfd).1)
    ensures Dup2(s, i, oldfd, newfd).0
         == if 0 <= oldfd < FD_MAX && 0 <= newfd < FD_MAX && s.tasks[i].fds[oldfd].kind != Unused then newfd else -1
    ensures Dup2(s, i, oldfd, newfd).0 >= 0 ==>
              Dup2(s, i, oldfd, newfd).1.tasks[i].fds == s.tasks[i].fds[newfd := s.tasks[i].fds[oldfd]]
    ensures Dup2(s, i, oldfd, newfd).0 < 0 ==> Dup2(s, i, oldfd, newfd).1 == s
    ensures forall k | 0 <= k < TASK_MAX && k != i :: Dup2(s, i, oldfd, newfd).1.tasks[k].fds == s.tasks[k].fds
  {
    hide Ends, IsEnd, Reasons, RingOk, WaitsOk, InUseOk, CountOk, DropFd;
    if 0 <= oldfd < FD_MAX && 0 <= newfd < FD_MAX && s.tasks[i].fds[oldfd].kind != Unused && oldfd != newfd {
      DropFdKeeps(s, i, newfd);
      DropFdEffect(s, i, newfd);
      var t := DropFd(s, i, newfd);
      var e := t.tasks[i].fds[oldfd];
      if IsPipe(e) {
        EndMeansUsed(t, i, oldfd);
      }
      OpenFdKeeps(t, i, newfd, e);
    }
  }
}

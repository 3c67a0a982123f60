/**
 What each event does to the descriptor table of each task, and what follows for the ends of a pipe over
 whole runs.
 */
module Tables {
  import opened Bytes
  import opened Tasks
  import opened Pipes
  import opened Lifecycle

  function R(p: int): Fd {
    Fd(PipeR, p, 0, "")
  }

  function W(p: int): Fd {
    Fd(PipeW, p, 0, "")
  }

  function TableClose(fds: seq<Fd>, fd: int): (t: seq<Fd>)
    ensures |t| == |fds|
  {
    if 0 <= fd < |fds| then fds[fd := NOFD] else fds
  }

  function TableDup(fds: seq<Fd>, oldfd: int, newfd: int): (t: seq<Fd>)
    ensures |t| == |fds|
  {
    if 0 <= oldfd < |fds| && 0 <= newfd < |fds| && fds[oldfd].kind != Unused then fds[newfd := fds[oldfd]] else fds
  }

  /** The slot an event acts on; for a fork, the parent. */
  function Actor(e: Event): int {
    match e
    case DoPipeNew(_) => -1
    case DoPipeUnused(_) => -1
    case _ => e.i
  }

  /** The descriptor table of slot `k` after the event. */
  function TableAfter(s: State, e: Event, k: nat): seq<Fd>
    requires Enabled(s, e) && k < TASK_MAX
  {
    var fds := s.tasks[k].fds;
    if e.DoFork? && k == e.child then s.tasks[e.i].fds
    else if Actor(e) != k then fds
    else match e
      case DoSpawn(_) => NoFds()[0 := Fd(ConsoleR, -1, 0, "")][1 := Fd(ConsoleW, -1, 0, "")][2 := Fd(ConsoleW, -1, 0, "")]
      case DoOpen(_, fd, path) => fds[fd := Fd(File, -1, 0, path)]
      case DoClose(_, fd) => TableClose(fds, fd)
      case DoDup2(_, oldfd, newfd) => TableDup(fds, oldfd, newfd)
      case DoPipe(_, p, r, w) => fds[r := R(p)][w := W(p)]
      case DoBind(_, fd, kind, p) => fds[fd := Fd(kind, p, 0, "")]
      case DoBindFile(_, fd, path, offset) => fds[fd := Fd(File, -1, offset, path)]
      case DoKill(_, _) => if s.tasks[k].state == Dead then fds else NoFds()
      case _ => fds
  }

  lemma KillTable(s: State, i: nat, code: nat, k: nat)
    requires Inv(s) && i < TASK_MAX && k < TASK_MAX
    ensures Kill(s, i, code).tasks[k].fds == if k == i && s.tasks[i].state != Dead then NoFds() else s.tasks[k].fds
  {
    hide ClearFds, WaitsOk, Reasons, RingOk, InUseOk, CountOk;
    if s.tasks[i].state != Dead {
      ClearFdsKeeps(s, i, FD_MAX);
      var t := ClearFds(s, i, FD_MAX);
      forall j | 0 <= j < FD_MAX ensures t.tasks[i].fds[j] == NOFD {
        assert FdOk(t.tasks[i].fds[j]);
      }
      assert t.tasks[i].fds == NoFds();
    }
  }

  lemma DupTable(s: State, i: nat, oldfd: int, newfd: int, k: nat)
    requires Inv(s) && i < TASK_MAX && s.tasks[i].state == Ready && k < TASK_MAX
    ensures Dup2(s, i, oldfd, newfd).1.tasks[k].fds == if k == i then TableDup(s.tasks[i].fds, oldfd, newfd) else s.tasks[k].fds
  {
    hide PipesOk, WaitsOk, Dup2;
    Dup2Keeps(s, i, oldfd, newfd);
  }

  lemma CloseTable(s: State, i: nat, fd: nat, k: nat)
    requires Inv(s) && i < TASK_MAX && fd < FD_MAX && k < TASK_MAX
    ensures DropFd(s, i, fd).tasks[k].fds == if k == i then TableClose(s.tasks[i].fds, fd) else s.tasks[k].fds
  {
    hide PipesOk, WaitsOk, DropFd;
    DropFdEffect(s, i, fd);
  }

  /** Every event changes the table of one slot, and how. */
  lemma StepTable(s: State, e: Event, k: nat)
    requires Inv(s) && Enabled(s, e) && k < TASK_MAX
    ensures Step(s, e).tasks[k].fds == TableAfter(s, e, k)
  {
    hide PipesOk, WaitsOk, DropFd, Dup2, Kill, Fork, MakePipe, BindPipe, ReadPipe, WritePipe, WaitFor, NoFds, BindFile, Spawn, TableClose, TableDup;
    match e
    case DoFork(i, child) => ForkKeeps(s, i, child);
    case DoClose(i, fd) => CloseTable(s, i, fd, k);
    case DoDup2(i, oldfd, newfd) => DupTable(s, i, oldfd, newfd, k);
    case DoPipe(i, p, r, w) => MakePipeKeeps(s, i, p, r, w);
    case DoBind(i, fd, kind, p) => BindTable(s, i, fd, kind, p, k);
    case DoBindFile(i, fd, path, offset) => BindFileTable(s, i, fd, path, offset, k);
    case DoSpawn(i) => SpawnTable(s, i, k);
    case DoKill(i, code) => KillTable(s, i, code, k);
    case DoRead(i, fd, n) => ReadTable(s, i, fd, n, k);
    case DoWrite(i, fd, d) => WriteTable(s, i, fd, d, k);
    case DoWait(i, want) => WaitTable(s, i, want, k);
    case _ =>
  }

  lemma BindTable(s: State, i: nat, fd: nat, kind: Kind, p: nat, k: nat)
    requires Inv(s) && i < TASK_MAX && fd < FD_MAX && p < PIPE_MAX && k < TASK_MAX
    ensures BindPipe(s, i, fd, kind, p).tasks[k].fds == if k == i then s.tasks[k].fds[fd := Fd(kind, p, 0, "")] else s.tasks[k].fds
  {
    hide PipesOk, WaitsOk, DropFd;
    CloseTable(s, i, fd, k);
  }

  lemma BindFileTable(s: State, i: nat, fd: nat, path: string, offset: nat, k: nat)
    requires Inv(s) && i < TASK_MAX && fd < FD_MAX && k < TASK_MAX
    ensures BindFile(s, i, fd, path, offset).tasks[k].fds
         == if k == i then s.tasks[k].fds[fd := Fd(File, -1, offset, path)] else s.tasks[k].fds
  {
    hide PipesOk, WaitsOk, DropFd;
    CloseTable(s, i, fd, k);
  }

  lemma SpawnTable(s: State, i: nat, k: nat)
    requires Shape(s) && i < TASK_MAX && k < TASK_MAX
    ensures Spawn(s, i).tasks[k].fds
         == if k == i then NoFds()[0 := Fd(ConsoleR, -1, 0, "")][1 := Fd(ConsoleW, -1, 0, "")][2 := Fd(ConsoleW, -1, 0, "")]
            else s.tasks[k].fds
  {
  }

  lemma ReadTable(s: State, i: nat, fd: int, n: nat, k: nat)
    requires Shape(s) && i < TASK_MAX && k < TASK_MAX
    ensures ReadPipe(s, i, fd, n).1.tasks[k].fds == s.tasks[k].fds
  {
    hide Consumed, Held;
  }

  lemma WriteTable(s: State, i: nat, fd: int, d: seq<Byte>, k: nat)
    requires Shape(s) && i < TASK_MAX && k < TASK_MAX
    ensures WritePipe(s, i, fd, d).1.tasks[k].fds == s.tasks[k].fds
  {
    hide Written;
  }

  lemma WaitTable(s: State, i: nat, want: int, k: nat)
    requires Shape(s) && i < TASK_MAX && k < TASK_MAX
    ensures WaitFor(s, i, want).1.tasks[k].fds == s.tasks[k].fds
  {
  }

  // ----- who keeps running -----

  /** An event of another slot never stops a running task. */
  lemma StepReady(s: State, e: Event, k: nat)
    requires Inv(s) && Enabled(s, e) && k < TASK_MAX && s.tasks[k].state == Ready && Actor(e) != k
    ensures Step(s, e).tasks[k].state == Ready
  {
    hide PipesOk, WaitsOk, Kill, Fork, Dup2, MakePipe, BindPipe, BindFile, Spawn;
    match e
    case DoFork(i, child) => ForkKeeps(s, i, child);
    case DoKill(i, code) => KillReady(s, i, code, k);
    case DoDup2(i, oldfd, newfd) => DupReady(s, i, oldfd, newfd, k);
    case DoPipe(i, p, r, w) => MakePipeKeeps(s, i, p, r, w);
    case DoBind(i, fd, kind, p) => BindReady(s, i, fd, kind, p, k);
    case DoBindFile(i, fd, path, offset) => BindFileReady(s, i, fd, path, offset, k);
    case DoSpawn(i) => SpawnReady(s, i, k);
    case _ =>
  }

  lemma DropStates(s: State, i: nat, j: nat, k: nat)
    requires Shape(s) && i < TASK_MAX && j < FD_MAX && k < TASK_MAX
    ensures s.tasks[k].state == Ready ==> DropFd(s, i, j).tasks[k].state == Ready
    ensures s.tasks[k].state != Dead ==> DropFd(s, i, j).tasks[k].state != Dead
  {
  }

  lemma KillReady(s: State, i: nat, code: nat, k: nat)
    requires Inv(s) && i < TASK_MAX && k < TASK_MAX && s.tasks[k].state == Ready && i != k
    ensures Kill(s, i, code).tasks[k].state == Ready
  {
    hide PipesOk, WaitsOk, ClearFds;
    ClearReady(s, i, FD_MAX, k);
  }

  lemma {:induction false} ClearReady(s: State, i: nat, n: nat, k: nat)
    requires Shape(s) && i < TASK_MAX && n <= FD_MAX && k < TASK_MAX && s.tasks[k].state == Ready
    ensures ClearFds(s, i, n).tasks[k].state == Ready
  {
    if n > 0 {
      ClearReady(s, i, n - 1, k);
    }
  }

  lemma DupReady(s: State, i: nat, oldfd: int, newfd: int, k: nat)
    requires Shape(s) && i < TASK_MAX && k < TASK_MAX && s.tasks[k].state == Ready
    ensures Dup2(s, i, oldfd, newfd).1.tasks[k].state == Ready
  {
    hide DropFd;
    if 0 <= newfd < FD_MAX {
      DropStates(s, i, newfd, k);
    }
  }

  lemma BindReady(s: State, i: nat, fd: nat, kind: Kind, p: nat, k: nat)
    requires Shape(s) && i < TASK_MAX && fd < FD_MAX && p < PIPE_MAX && k < TASK_MAX && s.tasks[k].state == Ready
    ensures BindPipe(s, i, fd, kind, p).tasks[k].state == Ready
  {
    hide DropFd;
    DropStates(s, i, fd, k);
  }

  lemma BindFileReady(s: State, i: nat, fd: nat, path: string, offset: nat, k: nat)
    requires Shape(s) && i < TASK_MAX && fd < FD_MAX && k < TASK_MAX && s.tasks[k].state == Ready
    ensures BindFile(s, i, fd, path, offset).tasks[k].state == Ready
  {
    hide DropFd;
    DropStates(s, i, fd, k);
  }

  lemma SpawnReady(s: State, i: nat, k: nat)
    requires Shape(s) && i < TASK_MAX && k < TASK_MAX && s.tasks[k].state == Ready
    ensures Spawn(s, i).tasks[k].state == Ready
  {
  }

  /** Only a kill makes a task dead. */
  lemma StepAlive(s: State, e: Event, k: nat)
    requires Inv(s) && Enabled(s, e) && k < TASK_MAX && s.tasks[k].state != Dead && !(e.DoKill? && e.i == k)
    ensures Step(s, e).tasks[k].state != Dead
  {
    hide PipesOk, WaitsOk, Kill, Fork, MakePipe, Dup2, BindPipe, BindFile, Spawn, ReadPipe, WritePipe, WaitFor, DropFd;
    match e
    case DoFork(i, child) => ForkKeeps(s, i, child);
    case DoKill(i, code) => KillAlive(s, i, code, k);
    case DoPipe(i, p, r, w) => MakePipeKeeps(s, i, p, r, w);
    case DoClose(i, fd) => DropFdEffect(s, i, fd);
    case DoDup2(i, oldfd, newfd) => DupAlive(s, i, oldfd, newfd, k);
    case DoBind(i, fd, kind, p) => BindAlive(s, i, fd, kind, p, k);
    case DoBindFile(i, fd, path, offset) => BindFileAlive(s, i, fd, path, offset, k);
    case DoSpawn(i) => SpawnAlive(s, i, k);
    case DoRead(i, fd, n) => ReadAlive(s, i, fd, n, k);
    case DoWrite(i, fd, d) => WriteAlive(s, i, fd, d, k);
    case DoWait(i, want) => WaitAlive(s, i, want, k);
    case _ =>
  }

  lemma DupAlive(s: State, i: nat, oldfd: int, newfd: int, k: nat)
    requires Shape(s) && i < TASK_MAX && k < TASK_MAX && s.tasks[k].state != Dead
    ensures Dup2(s, i, oldfd, newfd).1.tasks[k].state != Dead
  {
    hide DropFd;
    if 0 <= newfd < FD_MAX {
      DropStates(s, i, newfd, k);
    }
  }

  lemma BindAlive(s: State, i: nat, fd: nat, kind: Kind, p: nat, k: nat)
    requires Shape(s) && i < TASK_MAX && fd < FD_MAX && p < PIPE_MAX && k < TASK_MAX && s.tasks[k].state != Dead
    ensures BindPipe(s, i, fd, kind, p).tasks[k].state != Dead
  {
    hide DropFd;
    DropStates(s, i, fd, k);
  }

  lemma BindFileAlive(s: State, i: nat, fd: nat, path: string, offset: nat, k: nat)
    requires Shape(s) && i < TASK_MAX && fd < FD_MAX && k < TASK_MAX && s.tasks[k].state != Dead
    ensures BindFile(s, i, fd, path, offset).tasks[k].state != Dead
  {
    hide DropFd;
    DropStates(s, i, fd, k);
  }

  lemma SpawnAlive(s: State, i: nat, k: nat)
    requires Shape(s) && i < TASK_MAX && k < TASK_MAX && s.tasks[k].state != Dead
    ensures Spawn(s, i).tasks[k].state != Dead
  {
  }

  lemma ReadAlive(s: State, i: nat, fd: int, n: nat, k: nat)
    requires Shape(s) && i < TASK_MAX && k < TASK_MAX && s.tasks[k].state != Dead
    ensures ReadPipe(s, i, fd, n).1.tasks[k].state != Dead
  {
    hide Consumed, Held;
  }

  lemma WriteAlive(s: State, i: nat, fd: int, d: seq<Byte>, k: nat)
    requires Shape(s) && i < TASK_MAX && k < TASK_MAX && s.tasks[k].state != Dead
    ensures WritePipe(s, i, fd, d).1.tasks[k].state != Dead
  {
    hide Written;
  }

  lemma WaitAlive(s: State, i: nat, want: int, k: nat)
    requires Shape(s) && i < TASK_MAX && k < TASK_MAX && s.tasks[k].state != Dead
    ensures WaitFor(s, i, want).1.tasks[k].state != Dead
  {
  }

  lemma KillAlive(s: State, i: nat, code: nat, k: nat)
    requires Inv(s) && i < TASK_MAX && k < TASK_MAX && s.tasks[k].state != Dead && i != k
    ensures Kill(s, i, code).tasks[k].state != Dead
  {
    hide PipesOk, WaitsOk, ClearFds;
    ClearFdsKeeps(s, i, FD_MAX);
  }

  // ----- who can get an end of a pipe -----

  /** No descriptor in the table is an end of this kind on `p`. */
  ghost predicate Without(fds: seq<Fd>, kind: Kind, p: int) {
    forall y | 0 <= y < |fds| :: !(fds[y].kind == kind && fds[y].pipe == p)
  }

  /** A task gets an end of a pipe in use only from itself, from its parent at birth, or by binding. */
  lemma StepWithout(s: State, e: Event, kind: Kind, p: nat, k: nat)
    requires Inv(s) && Enabled(s, e) && (kind == PipeR || kind == PipeW) && p < PIPE_MAX && s.pipes[p].used && k < TASK_MAX
    requires Without(s.tasks[k].fds, kind, p)
    requires e.DoFork? && e.child == k ==> Without(s.tasks[e.i].fds, kind, p)
    requires !(e.DoBind? && e.i == k && e.kind == kind && e.p == p)
    ensures Without(Step(s, e).tasks[k].fds, kind, p)
  {
    hide Inv, Step;
    StepTable(s, e, k);
  }

  /** In every state of the run, descriptor `rfd` of task `d` reads pipe `p`. */
  predicate Reading(s: State, es: seq<Event>, d: nat, rfd: nat, p: nat)
    requires Shape(s) && d < TASK_MAX && rfd < FD_MAX
    decreases |es|
  {
    s.tasks[d].fds[rfd] == R(p) && (es == [] || (Enabled(s, es[0]) && Reading(Step(s, es[0]), es[1..], d, rfd, p)))
  }

  ghost predicate NoWriter(s: State, p: nat) {
    forall k | 0 <= k < |s.tasks| :: Without(s.tasks[k].fds, PipeW, p)
  }

  /** A pipe without a writer never gets one again while it has a reader, unless the kernel binds one. */
  lemma {:induction false} NoWriterStays(s: State, es: seq<Event>, t: State, d: nat, rfd: nat, p: nat)
    requires Inv(s) && Reaches(s, es, t) && d < TASK_MAX && rfd < FD_MAX && p < PIPE_MAX && NoWriter(s, p)
    requires Reading(s, es, d, rfd, p)
    requires forall e <- es :: !(e.DoBind? && e.kind == PipeW && e.p == p)
    ensures Inv(t) && NoWriter(t, p) && t.tasks[d].fds[rfd] == R(p)
    decreases |es|
  {
    hide PipesOk, WaitsOk, Without, Step;
    if es != [] {
      var e := es[0];
      EndMeansUsed(s, d, rfd);
      assert e in es;
      forall k | 0 <= k < TASK_MAX ensures Without(Step(s, e).tasks[k].fds, PipeW, p) {
        StepWithout(s, e, PipeW, p, k);
      }
      StepKeeps(s, e);
      NoWriterStays(Step(s, e), es[1..], t, d, rfd, p);
    }
  }

  /** Reading a pipe without a writer never blocks, and an empty one is at its end. */
  lemma ReadsToTheEnd(s: State, d: nat, rfd: nat, p: nat, n: nat)
    requires Inv(s) && d < TASK_MAX && rfd < FD_MAX && p < PIPE_MAX && NoWriter(s, p) && s.tasks[d].fds[rfd] == R(p) && n > 0
    ensures s.pipes[p].wrefs == 0 && ReadPipe(s, d, rfd, n).0.Done?
    ensures s.pipes[p].len == 0 ==> ReadPipe(s, d, rfd, n).0 == Done(0, [])
    ensures s.pipes[p].len > 0 ==> ReadPipe(s, d, rfd, n).0.count > 0
  {
    hide Reasons, InUseOk, WaitsOk, DeadClosed, CountsExact;
    EndMeansUsed(s, d, rfd);
    assert RingOk(s.pipes[p]);
    assert Ends(s.tasks, PipeW, p) == {} by {
      forall x: nat, y: nat | x < TASK_MAX && y < FD_MAX ensures !IsEnd(s.tasks, PipeW, p, (x, y)) {
        assert Without(s.tasks[x].fds, PipeW, p);
      }
    }
    Counted(s, p);
  }

  lemma Counted(s: State, p: nat)
    requires Inv(s) && p < PIPE_MAX
    ensures s.pipes[p].rrefs == |Ends(s.tasks, PipeR, p)| && s.pipes[p].wrefs == |Ends(s.tasks, PipeW, p)|
  {
    hide Ends, IsEnd;
    assert CountOk(s.tasks, s.pipes, p);
  }

  /**
   End of file follows the last writer's exit: over any run from there in which the kernel binds no new writer,
   and while the reader keeps its descriptor, no read ever blocks, and an empty pipe reads as end of file.
   */
  lemma EofAfterExit(s: State, c: nat, fd: nat, p: nat, code: nat, es: seq<Event>, t: State, d: nat, rfd: nat, n: nat)
    requires Inv(s) && c < TASK_MAX && s.tasks[c].state != Dead && p < PIPE_MAX && Ends(s.tasks, PipeW, p) == {(c, fd)}
    requires d < TASK_MAX && rfd < FD_MAX && n > 0
    requires Reaches(Kill(s, c, code), es, t) && Reading(Kill(s, c, code), es, d, rfd, p)
    requires forall e <- es :: !(e.DoBind? && e.kind == PipeW && e.p == p)
    ensures Inv(t) && t.pipes[p].wrefs == 0 && ReadPipe(t, d, rfd, n).0.Done?
    ensures t.pipes[p].len == 0 ==> ReadPipe(t, d, rfd, n).0 == Done(0, [])
  {
    hide PipesOk, WaitsOk, Kill;
    KillKeeps(s, c, code);
    var s1 := Kill(s, c, code);
    forall k | 0 <= k < TASK_MAX ensures Without(s1.tasks[k].fds, PipeW, p) {
      KillTable(s, c, code, k);
      forall y | 0 <= y < FD_MAX ensures !(s1.tasks[k].fds[y].kind == PipeW && s1.tasks[k].fds[y].pipe == p) {
        assert IsEnd(s.tasks, PipeW, p, (k, y)) ==> (k, y) in Ends(s.tasks, PipeW, p);
      }
    }
    NoWriterStays(s1, es, t, d, rfd, p);
    ReadsToTheEnd(t, d, rfd, p, n);
  }

  lemma Spawned() returns (a: State)
    ensures Enabled(Boot(), DoSpawn(0)) && a == Step(Boot(), DoSpawn(0)) && Inv(a)
    ensures a.tasks[0].state == Ready && a.tasks[0].fds[3] == NOFD && !a.pipes[0].used
  {
    BootInv();
    a := Step(Boot(), DoSpawn(0));
    SpawnKeeps(Boot(), 0);
    SpawnTable(Boot(), 0, 0);
  }

  lemma BoundOnce(a: State) returns (t: State)
    requires Inv(a) && a.tasks[0].state == Ready && a.tasks[0].fds[3] == NOFD && !a.pipes[0].used
    ensures Reaches(a, [DoPipeNew(0), DoBind(0, 3, PipeR, 0)], t)
    ensures Inv(t) && t.tasks[0].state == Ready && t.pipes[0].used && LastEnd(t, 0, 3, 0)
  {
    hide PipesOk, WaitsOk;
    var b := Step(a, DoPipeNew(0));
    NewPipeKeeps(a, 0);
    t := Step(b, DoBind(0, 3, PipeR, 0));
    BindPipeKeeps(b, 0, 3, PipeR, 0);
    assert [DoPipeNew(0), DoBind(0, 3, PipeR, 0)][1..] == [DoBind(0, 3, PipeR, 0)];
    assert [DoBind(0, 3, PipeR, 0)][1..] == [];
  }

  /** A run after which binding miscounts: the same entry is bound to the two ends of a new pipe, one after the other. */
  lemma BindMiscounts() returns (t: State)
    ensures Reaches(Boot(), [DoSpawn(0), DoPipeNew(0), DoBind(0, 3, PipeR, 0)], t)
    ensures Inv(t) && t.tasks[0].state == Ready && t.pipes[0].used && LastEnd(t, 0, 3, 0) && !Inv(BindPipe(t, 0, 3, PipeW, 0))
  {
    hide PipesOk, WaitsOk, Boot, Spawn, BindPipe, LastEnd;
    var a := Spawned();
    t := BoundOnce(a);
    BindPipeKeeps(t, 0, 3, PipeW, 0);
    assert [DoSpawn(0), DoPipeNew(0), DoBind(0, 3, PipeR, 0)][1..] == [DoPipeNew(0), DoBind(0, 3, PipeR, 0)];
  }
}

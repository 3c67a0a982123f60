/**
 Birth, death and collection of tasks in `kernel/sched.c`, and what holds over every run.
 */
module Lifecycle {
  import opened Bytes
  import opened Tasks
  import opened Pipes

  // ----- birth -----

  /** `slot_reusable`: a dead slot whose code nobody is owed any more. */
  predicate Reusable(t: Task) {
    t.state == Dead && (t.parent < 0 || t.reaped)
  }

  function NoFds(): (fds: seq<Fd>)
    ensures |fds| == FD_MAX && forall j | 0 <= j < FD_MAX :: fds[j] == NOFD
  {
    seq(FD_MAX, _ => NOFD)
  }

  /** A slot with a new occupant that has no descriptor yet. */
  function Born(t: Task, parent: int): Task {
    Task(Ready, NoFds(), parent, 0, 0, false, 0, -1, -1, false, t.gen + 1)
  }

  function Occupy(s: State, i: nat, parent: int): (s': State)
    requires Shape(s) && i < TASK_MAX
    ensures Shape(s')
  {
    s.(tasks := s.tasks[i := Born(s.tasks[i], parent)])
  }

  lemma OccupyPipes(s: State, i: nat, parent: int)
    requires PipesOk(s) && i < TASK_MAX && Reusable(s.tasks[i])
    ensures PipesOk(Occupy(s, i, parent))
  {
    hide Ends, IsEnd;
    var s' := Occupy(s, i, parent);
    assert DeadClosed(s.tasks[i]);
    assert s'.tasks[i].fds == s.tasks[i].fds by {
      forall j | 0 <= j < FD_MAX ensures s.tasks[i].fds[j] == NOFD {
        assert FdOk(s.tasks[i].fds[j]);
      }
    }
    forall p | 0 <= p < PIPE_MAX ensures CountOk(s'.tasks, s'.pipes, p) && InUseOk(s', p) && RingOk(s'.pipes[p]) {
      assert CountOk(s.tasks, s.pipes, p) && InUseOk(s, p) && RingOk(s.pipes[p]);
      SameFdsSameEnds(s.tasks, s'.tasks, PipeR, p);
      SameFdsSameEnds(s.tasks, s'.tasks, PipeW, p);
    }
    forall k | 0 <= k < TASK_MAX ensures DeadClosed(s'.tasks[k]) && (s'.tasks[k].state == InPipe ==> Reason(s'.tasks[k], s'.pipes)) {
      assert DeadClosed(s.tasks[k]) && (s.tasks[k].state == InPipe ==> Reason(s.tasks[k], s.pipes));
    }
  }

  /** A new occupant changes nobody's children: the slot was dead and owed nothing, the parent is running. */
  lemma OccupyWaits(s: State, i: nat, parent: int)
    requires WaitsOk(s) && i < TASK_MAX && Reusable(s.tasks[i])
    requires parent != i && (0 <= parent < TASK_MAX ==> s.tasks[parent].state == Ready) && parent < TASK_MAX
    ensures WaitsOk(Occupy(s, i, parent))
  {
    var s' := Occupy(s, i, parent);
    var born := (i, s'.tasks[i].gen);
    assert Collected(s.collected, born) ==> born in s.died;
    forall k | 0 <= k < TASK_MAX ensures WaitOk(s'.tasks, k) && SlotOk(s', k) {
      assert WaitOk(s.tasks, k) && SlotOk(s, k);
      assert born in s.died ==> DeathOk(s, born);
      if s'.tasks[k].state == InWait {
        var c :| ChildOf(s.tasks, k, c) && Matches(s.tasks[k].waitPid, c) && s.tasks[c].state != Dead;
        assert ChildOf(s'.tasks, k, c);
        forall c' | ChildOf(s'.tasks, k, c') && Matches(s'.tasks[k].waitPid, c') ensures s'.tasks[c'].state != Dead {
          assert c' != i ==> ChildOf(s.tasks, k, c');
        }
      }
    }
    forall d <- s'.died ensures DeathOk(s', d) {
      assert DeathOk(s, d) && SlotOk(s, i);
    }
  }

  /** `sched_add_user`: a task without a parent, with the console on entries 0, 1 and 2. */
  function Spawn(s: State, i: nat): (s': State)
    requires Shape(s) && i < TASK_MAX
  {
    var a := Occupy(s, i, -1);
    var b := OpenFd(a, i, 0, Fd(ConsoleR, -1, 0, ""));
    OpenFd(OpenFd(b, i, 1, Fd(ConsoleW, -1, 0, "")), i, 2, Fd(ConsoleW, -1, 0, ""))
  }

  lemma SpawnKeeps(s: State, i: nat)
    requires Inv(s) && i < TASK_MAX && Reusable(s.tasks[i])
    ensures Inv(Spawn(s, i))
  {
    hide PipesOk, WaitsOk;
    OccupyPipes(s, i, -1);
    OccupyWaits(s, i, -1);
    var a := Occupy(s, i, -1);
    OpenFdKeeps(a, i, 0, Fd(ConsoleR, -1, 0, ""));
    var b := OpenFd(a, i, 0, Fd(ConsoleR, -1, 0, ""));
    OpenFdKeeps(b, i, 1, Fd(ConsoleW, -1, 0, ""));
    OpenFdKeeps(OpenFd(b, i, 1, Fd(ConsoleW, -1, 0, "")), i, 2, Fd(ConsoleW, -1, 0, ""));
  }

  /** `sched_fork`: slot `i` becomes a child of `cur` with the same descriptors. */
  function Fork(s: State, cur: nat, i: nat): (s': State)
    requires Shape(s) && cur < TASK_MAX && i < TASK_MAX
  {
    InheritFds(Occupy(s, i, cur), i, cur, FD_MAX)
  }

  lemma ForkKeeps(s: State, cur: nat, i: nat)
    requires Inv(s) && cur < TASK_MAX && i < TASK_MAX && s.tasks[cur].state == Ready && Reusable(s.tasks[i])
    ensures Inv(Fork(s, cur, i))
    ensures Fork(s, cur, i).tasks[i].fds == s.tasks[cur].fds
    ensures forall k | 0 <= k < TASK_MAX && k != i :: Fork(s, cur, i).tasks[k] == s.tasks[k]
    ensures Fork(s, cur, i).tasks[i].parent == cur && Fork(s, cur, i).tasks[i].state == Ready
  {
    hide PipesOk, WaitsOk;
    OccupyPipes(s, i, cur);
    OccupyWaits(s, i, cur);
    InheritFdsKeeps(Occupy(s, i, cur), i, cur, FD_MAX);
  }

  // ----- death -----

  /** The slot with its occupant dead, and the death recorded if someone may wait for it. */
  function Buried(s: State, i: nat, code: nat): (s': State)
    requires Shape(s) && i < TASK_MAX
    ensures Shape(s')
  {
    var t := s.tasks[i];
    s.(tasks := s.tasks[i := t.(state := Dead, exitCode := code, reaped := false, pipeWait := -1)],
       died := if t.parent >= 0 then s.died[(i, t.gen) := code] else s.died)
  }

  /** `reap_child`: the code of a dead child is handed over. */
  function Reaped(s: State, c: nat): (s': State)
    requires Shape(s) && c < TASK_MAX
    ensures Shape(s')
  {
    var t := s.tasks[c];
    s.(tasks := s.tasks[c := t.(reaped := true)], collected := s.collected + [Receipt((c, t.gen), t.exitCode)])
  }

  predicate ParentWaits(s: State, c: nat)
    requires Shape(s) && c < TASK_MAX
  {
    var p := s.tasks[c].parent;
    0 <= p < TASK_MAX && s.tasks[p].state == InWait && Matches(s.tasks[p].waitPid, c)
  }

  /** `wake_parent_waiter`: a parent waiting for this child gets its code and runs again. */
  function WakeParent(s: State, c: nat): (s': State)
    requires Shape(s) && c < TASK_MAX
    ensures Shape(s')
  {
    if ParentWaits(s, c) then
      var p := s.tasks[c].parent;
      var t := Reaped(s, c);
      t.(tasks := t.tasks[p := t.tasks[p].(state := Ready, rax := s.tasks[c].exitCode, waitPid := 0)])
    else s
  }

  /** `kill_task`. */
  function Kill(s: State, i: nat, code: nat): (s': State)
    requires Shape(s) && i < TASK_MAX
    ensures Shape(s')
  {
    if s.tasks[i].state == Dead then s else WakeParent(Buried(ClearFds(s, i, FD_MAX), i, code), i)
  }

  /** Burying a task and telling its parent is one step for `wait`: no waiter is left with a dead child. */
  lemma BuriedWaits(s: State, i: nat, code: nat)
    requires WaitsOk(s) && i < TASK_MAX && s.tasks[i].state != Dead
    ensures WaitsOk(WakeParent(Buried(s, i, code), i))
  {
    var b := Buried(s, i, code);
    var s' := WakeParent(b, i);
    var p := s.tasks[i].parent;
    assert SlotOk(s, i);
    var r := Receipt((i, s.tasks[i].gen), code);
    assert s'.collected == s.collected || s'.collected == s.collected + [r];
    forall k | 0 <= k < TASK_MAX ensures SlotOk(s', k) {
      assert SlotOk(s, k);
      CollectedMore(s.collected, r, (k, s'.tasks[k].gen));
    }
    forall d <- s'.died ensures DeathOk(s', d) {
      CollectedMore(s.collected, r, d);
      if d != (i, s.tasks[i].gen) {
        assert DeathOk(s, d);
      }
    }
    BuriedLog(s, i, code);
    forall k | 0 <= k < TASK_MAX ensures WaitOk(s'.tasks, k) {
      BuriedWait(s, i, code, k);
    }
  }

  lemma BuriedLog(s: State, i: nat, code: nat)
    requires WaitsOk(s) && i < TASK_MAX && s.tasks[i].state != Dead
    ensures LogOk(WakeParent(Buried(s, i, code), i))
  {
    assert SlotOk(s, i);
    var d := (i, s.tasks[i].gen);
    assert d !in s.died && !Collected(s.collected, d);
    forall k | 0 <= k < |s.collected| ensures s.collected[k].who != d {
    }
  }

  lemma BuriedWait(s: State, i: nat, code: nat, k: nat)
    requires WaitsOk(s) && i < TASK_MAX && s.tasks[i].state != Dead && k < TASK_MAX
    ensures WaitOk(WakeParent(Buried(s, i, code), i).tasks, k)
  {
    var s' := WakeParent(Buried(s, i, code), i);
    assert WaitOk(s.tasks, k) && SlotOk(s, i);
    if s'.tasks[k].state == InWait {
      var c :| ChildOf(s.tasks, k, c) && Matches(s.tasks[k].waitPid, c) && s.tasks[c].state != Dead;
      assert c != i;
      assert ChildOf(s'.tasks, k, c);
      forall c' | ChildOf(s'.tasks, k, c') && Matches(s'.tasks[k].waitPid, c') ensures s'.tasks[c'].state != Dead {
        assert c' != i;
        assert ChildOf(s.tasks, k, c');
      }
    }
  }

  lemma BuriedPipes(s: State, i: nat, code: nat)
    requires PipesOk(s) && i < TASK_MAX && forall j | 0 <= j < FD_MAX :: s.tasks[i].fds[j].kind == Unused
    ensures PipesOk(WakeParent(Buried(s, i, code), i))
  {
    hide Ends, IsEnd;
    var s' := WakeParent(Buried(s, i, code), i);
    forall p | 0 <= p < PIPE_MAX ensures CountOk(s'.tasks, s'.pipes, p) && InUseOk(s', p) && RingOk(s'.pipes[p]) {
      assert CountOk(s.tasks, s.pipes, p) && InUseOk(s, p) && RingOk(s.pipes[p]);
      SameFdsSameEnds(s.tasks, s'.tasks, PipeR, p);
      SameFdsSameEnds(s.tasks, s'.tasks, PipeW, p);
    }
    forall k | 0 <= k < TASK_MAX ensures DeadClosed(s'.tasks[k]) && (s'.tasks[k].state == InPipe ==> Reason(s'.tasks[k], s'.pipes)) {
      assert DeadClosed(s.tasks[k]) && (s.tasks[k].state == InPipe ==> Reason(s.tasks[k], s.pipes));
    }
  }

  lemma KillKeeps(s: State, i: nat, code: nat)
    requires Inv(s) && i < TASK_MAX
    ensures Inv(Kill(s, i, code))
  {
    hide PipesOk, WaitsOk;
    if s.tasks[i].state != Dead {
      ClearFdsKeeps(s, i, FD_MAX);
      var t := ClearFds(s, i, FD_MAX);
      BuriedWaits(t, i, code);
      BuriedPipes(t, i, code);
    }
  }

  // ----- wait -----

  /** The first dead child of `p` that matches, among the slots from `c` on; the number of slots if none. */
  function FirstZombie(tasks: seq<Task>, p: int, want: int, c: nat): (z: nat)
    requires c <= |tasks|
    ensures c <= z <= |tasks|
    ensures z < |tasks| ==> ChildOf(tasks, p, z) && Matches(want, z) && tasks[z].state == Dead
    ensures forall k | c <= k < z :: !(ChildOf(tasks, p, k) && Matches(want, k) && tasks[k].state == Dead)
    decreases |tasks| - c
  {
    if c == |tasks| then c
    else if ChildOf(tasks, p, c) && Matches(want, c) && tasks[c].state == Dead then c
    else FirstZombie(tasks, p, want, c + 1)
  }

  predicate HasChild(tasks: seq<Task>, p: int, want: int) {
    exists c | 0 <= c < |tasks| :: ChildOf(tasks, p, c) && Matches(want, c)
  }

  /** `sched_wait` by slot `i`: a code, -1 if there is nothing to wait for, or the task waits. */
  function WaitFor(s: State, i: nat, want: int): (r: (Outcome, State))
    requires Shape(s) && i < TASK_MAX
    ensures Shape(r.1)
  {
    if want < 0 then (Refused, s)
    else
      var z := FirstZombie(s.tasks, i, want, 0);
      if z < TASK_MAX then (Done(s.tasks[z].exitCode, []), Reaped(s, z))
      else if !HasChild(s.tasks, i, want) then (Refused, s)
      else (Blocked, s.(tasks := s.tasks[i := s.tasks[i].(state := InWait, waitPid := want)]))
  }

  lemma ReapedKeeps(s: State, i: nat, c: nat)
    requires Inv(s) && i < TASK_MAX && c < TASK_MAX && ChildOf(s.tasks, i, c) && s.tasks[c].state == Dead && s.tasks[i].state == Ready
    ensures Inv(Reaped(s, c))
    ensures !Collected(s.collected, (c, s.tasks[c].gen))
    ensures (c, s.tasks[c].gen) in s.died && s.died[(c, s.tasks[c].gen)] == s.tasks[c].exitCode
  {
    hide Ends, IsEnd;
    var s' := Reaped(s, c);
    var r := Receipt((c, s.tasks[c].gen), s.tasks[c].exitCode);
    assert SlotOk(s, c);
    assert LogOk(s') by {
      forall k | 0 <= k < |s.collected| ensures s.collected[k].who != r.who {
      }
    }
    forall k | 0 <= k < TASK_MAX ensures SlotOk(s', k) && WaitOk(s'.tasks, k) {
      assert SlotOk(s, k) && WaitOk(s.tasks, k);
      CollectedMore(s.collected, r, (k, s'.tasks[k].gen));
      if s'.tasks[k].state == InWait {
        var x :| ChildOf(s.tasks, k, x) && Matches(s.tasks[k].waitPid, x) && s.tasks[x].state != Dead;
        assert ChildOf(s'.tasks, k, x);
        forall c' | ChildOf(s'.tasks, k, c') && Matches(s'.tasks[k].waitPid, c') ensures s'.tasks[c'].state != Dead {
          assert ChildOf(s.tasks, k, c');
        }
      }
    }
    forall d <- s'.died ensures DeathOk(s', d) {
      assert DeathOk(s, d);
      CollectedMore(s.collected, r, d);
    }
    ReapedPipes(s, c);
  }

  lemma ReapedPipes(s: State, c: nat)
    requires PipesOk(s) && c < TASK_MAX
    ensures PipesOk(Reaped(s, c))
  {
    hide Ends, IsEnd;
    var s' := Reaped(s, c);
    forall p | 0 <= p < PIPE_MAX ensures CountOk(s'.tasks, s'.pipes, p) && InUseOk(s', p) && RingOk(s'.pipes[p]) {
      assert CountOk(s.tasks, s.pipes, p) && InUseOk(s, p) && RingOk(s.pipes[p]);
      SameFdsSameEnds(s.tasks, s'.tasks, PipeR, p);
      SameFdsSameEnds(s.tasks, s'.tasks, PipeW, p);
    }
    forall k | 0 <= k < TASK_MAX ensures DeadClosed(s'.tasks[k]) && (s'.tasks[k].state == InPipe ==> Reason(s'.tasks[k], s'.pipes)) {
      assert DeadClosed(s.tasks[k]) && (s.tasks[k].state == InPipe ==> Reason(s.tasks[k], s.pipes));
    }
  }

  lemma WaitForKeeps(s: State, i: nat, want: int)
    requires Inv(s) && i < TASK_MAX && s.tasks[i].state == Ready
    ensures Inv(WaitFor(s, i, want).1)
  {
    hide Ends, IsEnd;
    var r := WaitFor(s, i, want);
    if want >= 0 {
      var z := FirstZombie(s.tasks, i, want, 0);
      if z < TASK_MAX {
        ReapedKeeps(s, i, z);
      } else if HasChild(s.tasks, i, want) {
        WaitBegins(s, i, want);
      }
    }
  }

  lemma WaitBegins(s: State, i: nat, want: int)
    requires Inv(s) && i < TASK_MAX && s.tasks[i].state == Ready && HasChild(s.tasks, i, want)
    requires FirstZombie(s.tasks, i, want, 0) == TASK_MAX
    ensures Inv(s.(tasks := s.tasks[i := s.tasks[i].(state := InWait, waitPid := want)]))
  {
    hide PipesOk, Collected, FirstZombie;
    var s' := s.(tasks := s.tasks[i := s.tasks[i].(state := InWait, waitPid := want)]);
    SameDescriptors(s, s');
    forall k | 0 <= k < TASK_MAX ensures SlotOk(s', k) && WaitOk(s'.tasks, k) {
      assert SlotOk(s, k) && WaitOk(s.tasks, k);
      if s'.tasks[k].state == InWait {
        assert exists c :: ChildOf(s.tasks, k, c) && Matches(s'.tasks[k].waitPid, c) && (k != i ==> s.tasks[c].state != Dead);
        var c :| ChildOf(s.tasks, k, c) && Matches(s'.tasks[k].waitPid, c) && (k != i ==> s.tasks[c].state != Dead);
        assert ChildOf(s'.tasks, k, c);
        forall c' | ChildOf(s'.tasks, k, c') && Matches(s'.tasks[k].waitPid, c') ensures s'.tasks[c'].state != Dead {
          assert ChildOf(s.tasks, k, c');
        }
      }
    }
    forall d <- s'.died ensures DeathOk(s', d) {
      assert DeathOk(s, d);
    }
  }

  /** A change that leaves descriptors, pipes, deaths and blocked readers alone keeps the pipe invariant. */
  lemma SameDescriptors(s: State, s': State)
    requires PipesOk(s) && Shape(s') && s'.pipes == s.pipes && s'.unbound == s.unbound
    requires forall k | 0 <= k < TASK_MAX :: s'.tasks[k].fds == s.tasks[k].fds
    requires forall k | 0 <= k < TASK_MAX :: s'.tasks[k].state == Dead ==> s.tasks[k].state == Dead
    requires forall k | 0 <= k < TASK_MAX :: s'.tasks[k].state == InPipe ==> s'.tasks[k] == s.tasks[k]
    ensures PipesOk(s')
  {
    hide Ends, IsEnd;
    forall p | 0 <= p < PIPE_MAX ensures CountOk(s'.tasks, s'.pipes, p) && InUseOk(s', p) && RingOk(s'.pipes[p]) {
      assert CountOk(s.tasks, s.pipes, p) && InUseOk(s, p) && RingOk(s.pipes[p]);
      SameFdsSameEnds(s.tasks, s'.tasks, PipeR, p);
      SameFdsSameEnds(s.tasks, s'.tasks, PipeW, p);
    }
    forall k | 0 <= k < TASK_MAX ensures DeadClosed(s'.tasks[k]) && (s'.tasks[k].state == InPipe ==> Reason(s'.tasks[k], s'.pipes)) {
      assert DeadClosed(s.tasks[k]) && (s.tasks[k].state == InPipe ==> Reason(s.tasks[k], s.pipes));
    }
  }

  // ----- sleeping and waking -----

  /** `wake_blocked`, also the timer and the keyboard: a task that waits for anything runs again. */
  function Resume(s: State, i: nat): (s': State)
    requires Shape(s) && i < TASK_MAX
    ensures Shape(s')
  {
    if s.tasks[i].state == Dead || s.tasks[i].state == Ready then s
    else s.(tasks := s.tasks[i := s.tasks[i].(state := Ready, pipeWait := -1)])
  }

  /** `sched_sleep` and `sched_block_kbd`. */
  function Doze(s: State, i: nat, st: RunState): (s': State)
    requires Shape(s) && i < TASK_MAX
    ensures Shape(s')
  {
    s.(tasks := s.tasks[i := s.tasks[i].(state := st)])
  }

  lemma ResumeKeeps(s: State, i: nat)
    requires Inv(s) && i < TASK_MAX
    ensures Inv(Resume(s, i))
  {
    hide PipesOk, WaitsOk;
    SameDescriptors(s, Resume(s, i));
    WaitsKept(s, Resume(s, i));
  }

  lemma DozeKeeps(s: State, i: nat, st: RunState)
    requires Inv(s) && i < TASK_MAX && s.tasks[i].state == Ready && (st == Sleep || st == InKbd)
    ensures Inv(Doze(s, i, st))
  {
    hide PipesOk, WaitsOk;
    SameDescriptors(s, Doze(s, i, st));
    WaitsKept(s, Doze(s, i, st));
  }

  // ----- binding a file, exec -----

  /** `sched_fd_bind_file` on a task that has just been spawned. */
  function BindFile(s: State, i: nat, fd: nat, path: string, offset: nat): (s': State)
    requires Shape(s) && i < TASK_MAX && fd < FD_MAX
    ensures Shape(s')
  {
    var t := DropFd(s, i, fd);
    t.(tasks := WithFd(t.tasks, i, fd, Fd(File, -1, offset, path)))
  }

  lemma BindFileKeeps(s: State, i: nat, fd: nat, path: string, offset: nat)
    requires Inv(s) && i < TASK_MAX && fd < FD_MAX && s.tasks[i].state != Dead
    ensures Inv(BindFile(s, i, fd, path, offset))
  {
    hide PipesOk, WaitsOk, DropFd;
    DropFdKeeps(s, i, fd);
    DropFdEffect(s, i, fd);
    OpenFdKeeps(DropFd(s, i, fd), i, fd, Fd(File, -1, offset, path));
  }

  /** `sched_reset_current`: a new program, with the descriptors of the old one. */
  function Execed(s: State, i: nat): (s': State)
    requires Shape(s) && i < TASK_MAX
    ensures Shape(s')
  {
    s.(tasks := s.tasks[i := s.tasks[i].(state := Ready, rax := 0, pipeWait := -1)])
  }

  lemma ExecedKeeps(s: State, i: nat)
    requires Inv(s) && i < TASK_MAX && s.tasks[i].state == Ready
    ensures Inv(Execed(s, i))
    ensures var s' := Execed(s, i);
      && s'.pipes == s.pipes && s'.tasks[i].fds == s.tasks[i].fds && s'.tasks[i].state == Ready && s'.tasks[i].parent == s.tasks[i].parent
      && forall k | 0 <= k < TASK_MAX && k != i :: s'.tasks[k] == s.tasks[k]
  {
    hide PipesOk, WaitsOk;
    SameDescriptors(s, Execed(s, i));
    WaitsKept(s, Execed(s, i));
  }

  // ----- runs -----

  /** One kernel entry. */
  datatype Event =
    | DoSpawn(i: nat)
    | DoFork(i: nat, child: nat)
    | DoOpen(i: nat, fd: nat, path: string)
    | DoClose(i: nat, fd: nat)
    | DoDup2(i: nat, oldfd: int, newfd: int)
    | DoPipe(i: nat, p: nat, r: nat, w: nat)
    | DoPipeNew(p: nat)
    | DoPipeUnused(p: nat)
    | DoBind(i: nat, fd: nat, kind: Kind, p: nat)
    | DoBindFile(i: nat, fd: nat, path: string, offset: nat)
    | DoExec(i: nat)
    | DoRead(i: nat, fd: nat, n: nat)
    | DoWrite(i: nat, fd: nat, d: seq<Byte>)
    | DoWait(i: nat, want: int)
    | DoKill(i: nat, code: nat)
    | DoResume(i: nat)
    | DoDoze(i: nat, st: RunState)

  predicate Running(s: State, i: nat) {
    Shape(s) && i < TASK_MAX && s.tasks[i].state == Ready
  }

  /** The entries a system call can make: only a running task calls, only a dead slot is filled. */
  predicate Enabled(s: State, e: Event) {
    Shape(s) &&
    match e
    case DoSpawn(i) => i < TASK_MAX && Reusable(s.tasks[i])
    case DoFork(i, child) => Running(s, i) && child < TASK_MAX && Reusable(s.tasks[child])
    case DoOpen(i, fd, _) => Running(s, i) && fd < FD_MAX && s.tasks[i].fds[fd].kind == Unused
    case DoClose(i, fd) => Running(s, i) && fd < FD_MAX
    case DoDup2(i, _, _) => Running(s, i)
    case DoPipe(i, p, r, w) =>
      && Running(s, i) && p < PIPE_MAX && !s.pipes[p].used && r < w < FD_MAX
      && s.tasks[i].fds[r].kind == Unused && s.tasks[i].fds[w].kind == Unused
    case DoPipeNew(p) => p < PIPE_MAX && !s.pipes[p].used
    case DoPipeUnused(_) => true
    case DoBind(i, fd, kind, p) =>
      && i < TASK_MAX && s.tasks[i].state != Dead && fd < FD_MAX && (kind == PipeR || kind == PipeW) && p < PIPE_MAX && s.pipes[p].used
      && !LastEnd(s, i, fd, p)
    case DoBindFile(i, fd, path, _) => i < TASK_MAX && s.tasks[i].state != Dead && fd < FD_MAX && path != ""
    case DoExec(i) => Running(s, i)
    case DoRead(i, _, _) => Running(s, i)
    case DoWrite(i, _, _) => Running(s, i)
    case DoWait(i, _) => Running(s, i)
    case DoKill(i, _) => i < TASK_MAX
    case DoResume(i) => i < TASK_MAX
    case DoDoze(i, st) => Running(s, i) && (st == Sleep || st == InKbd)
  }

  function Step(s: State, e: Event): (s': State)
    requires Enabled(s, e)
    ensures Shape(s')
  {
    match e
    case DoSpawn(i) => Spawn(s, i)
    case DoFork(i, child) => Fork(s, i, child)
    case DoOpen(i, fd, path) => OpenFd(s, i, fd, Fd(File, -1, 0, path))
    case DoClose(i, fd) => DropFd(s, i, fd)
    case DoDup2(i, oldfd, newfd) => Dup2(s, i, oldfd, newfd).1
    case DoPipe(i, p, r, w) => MakePipe(s, i, p, r, w)
    case DoPipeNew(p) => NewPipe(s, p)
    case DoPipeUnused(p) => PipeUnused(s, p)
    case DoBind(i, fd, kind, p) => BindPipe(s, i, fd, kind, p)
    case DoBindFile(i, fd, path, offset) => BindFile(s, i, fd, path, offset)
    case DoExec(i) => Execed(s, i)
    case DoRead(i, fd, n) => ReadPipe(s, i, fd, n).1
    case DoWrite(i, fd, d) => WritePipe(s, i, fd, d).1
    case DoWait(i, want) => WaitFor(s, i, want).1
    case DoKill(i, code) => Kill(s, i, code)
    case DoResume(i) => Resume(s, i)
    case DoDoze(i, st) => Doze(s, i, st)
  }

  lemma StepKeeps(s: State, e: Event)
    requires Inv(s) && Enabled(s, e)
    ensures Inv(Step(s, e))
  {
    hide PipesOk, WaitsOk;
    match e
    case DoSpawn(i) => SpawnKeeps(s, i);
    case DoFork(i, child) => ForkKeeps(s, i, child);
    case DoOpen(i, fd, path) => OpenFdKeeps(s, i, fd, Fd(File, -1, 0, path));
    case DoClose(i, fd) => DropFdKeeps(s, i, fd);
    case DoDup2(i, oldfd, newfd) => Dup2Keeps(s, i, oldfd, newfd);
    case DoPipe(i, p, r, w) => MakePipeKeeps(s, i, p, r, w);
    case DoPipeNew(p) => NewPipeKeeps(s, p);
    case DoPipeUnused(p) => PipeUnusedKeeps(s, p);
    case DoBind(i, fd, kind, p) => BindPipeKeeps(s, i, fd, kind, p);
    case DoBindFile(i, fd, path, offset) => BindFileKeeps(s, i, fd, path, offset);
    case DoExec(i) => ExecedKeeps(s, i);
    case DoRead(i, fd, n) => ReadPipeKeeps(s, i, fd, n);
    case DoWrite(i, fd, d) => WritePipeKeeps(s, i, fd, d);
    case DoWait(i, want) => WaitForKeeps(s, i, want);
    case DoKill(i, code) => KillKeeps(s, i, code);
    case DoResume(i) => ResumeKeeps(s, i);
    case DoDoze(i, st) => DozeKeeps(s, i, st);
  }

  /** `sched_init`: every slot free, no pipe in use. */
  function Boot(): State {
    State(seq(TASK_MAX, _ => Task(Dead, NoFds(), -1, 0, 0, false, 0, -1, -1, false, 0)),
          seq(PIPE_MAX, _ => NOPIPE), {}, map[], [])
  }

  lemma BootInv()
    ensures Inv(Boot())
  {
    var s := Boot();
    forall p | 0 <= p < PIPE_MAX ensures CountOk(s.tasks, s.pipes, p) && InUseOk(s, p) && RingOk(s.pipes[p]) {
      assert Ends(s.tasks, PipeR, p) == {} && Ends(s.tasks, PipeW, p) == {};
    }
  }

  /** The events can happen one after the other from `s`, and lead to `t`. */
  predicate Reaches(s: State, es: seq<Event>, t: State)
    decreases |es|
  {
    if es == [] then t == s
    else Enabled(s, es[0]) && Reaches(Step(s, es[0]), es[1..], t)
  }

  /** The invariant holds in every state of every run from boot. */
  lemma {:induction false} EveryRunKeeps(s: State, es: seq<Event>, t: State)
    requires Inv(s) && Reaches(s, es, t)
    ensures Inv(t)
    decreases |es|
  {
    hide Inv;
    if es != [] {
      StepKeeps(s, es[0]);
      EveryRunKeeps(Step(s, es[0]), es[1..], t);
    }
  }

  /** No lost wakeup: in every reachable state a task blocked on a pipe is blocked for a reason that holds. */
  lemma BlockedForAReason(es: seq<Event>, t: State, i: nat)
    requires Reaches(Boot(), es, t) && i < TASK_MAX
    ensures Inv(t) && (t.tasks[i].state == InPipe ==> Reason(t.tasks[i], t.pipes))
  {
    BootInv();
    EveryRunKeeps(Boot(), es, t);
  }

  /**
   In every reachable state the counts of a pipe are its numbers of open ends, and a pipe that has
   been bound is in use exactly as long as it has one; what was read and what it holds is what was written.
   */
  lemma PipesAccountedFor(es: seq<Event>, t: State, p: nat)
    requires Reaches(Boot(), es, t) && p < PIPE_MAX
    ensures Inv(t)
    ensures t.pipes[p].rrefs == |Ends(t.tasks, PipeR, p)| && t.pipes[p].wrefs == |Ends(t.tasks, PipeW, p)|
    ensures p !in t.unbound ==> (t.pipes[p].used <==> Ends(t.tasks, PipeR, p) + Ends(t.tasks, PipeW, p) != {})
    ensures RingOk(t.pipes[p])
  {
    hide IsEnd, Ends;
    BootInv();
    EveryRunKeeps(Boot(), es, t);
    assert CountOk(t.tasks, t.pipes, p) && InUseOk(t, p) && RingOk(t.pipes[p]);
    var a, b := Ends(t.tasks, PipeR, p), Ends(t.tasks, PipeW, p);
    assert a + b == {} <==> a == {} && b == {};
  }

  // ----- what wait hands out -----

  /** The codes a step hands to a parent: what `wait` returns, or what the death of a child puts in a waiting parent's result. */
  function HandedOut(s: State, e: Event): seq<Receipt>
    requires Enabled(s, e)
  {
    match e
    case DoWait(i, want) =>
      var z := FirstZombie(s.tasks, i, want, 0);
      if WaitFor(s, i, want).0.Done? && z < TASK_MAX then [Receipt((z, s.tasks[z].gen), WaitFor(s, i, want).0.count)] else []
    case DoKill(i, code) =>
      if s.tasks[i].state != Dead && ParentWaits(s, i) then
        [Receipt((i, s.tasks[i].gen), Kill(s, i, code).tasks[s.tasks[i].parent].rax)]
      else []
    case _ => []
  }

  lemma WaitLog(s: State, i: nat, want: int)
    requires Shape(s) && i < TASK_MAX && s.tasks[i].state == Ready
    ensures WaitFor(s, i, want).1.collected == s.collected + HandedOut(s, DoWait(i, want))
    ensures WaitFor(s, i, want).0.Done? ==> |HandedOut(s, DoWait(i, want))| == 1
    ensures WaitFor(s, i, want).1.died == s.died
  {
  }

  lemma KillLog(s: State, i: nat, code: nat)
    requires Inv(s) && i < TASK_MAX
    ensures Kill(s, i, code).collected == s.collected + HandedOut(s, DoKill(i, code))
    ensures s.tasks[i].state != Dead && ParentWaits(s, i) ==>
              Kill(s, i, code).tasks[s.tasks[i].parent].state == Ready && Kill(s, i, code).tasks[s.tasks[i].parent].rax == code
  {
    hide PipesOk, ClearFds;
    ClearFdsKeeps(s, i, FD_MAX);
    var t := ClearFds(s, i, FD_MAX);
    assert SlotOk(s, i) && SlotOk(t, i);
    if s.tasks[i].state != Dead {
      ClearKeepsWaiters(s, i, FD_MAX);
    }
  }

  /** Closing descriptors neither starts nor ends a wait. */
  lemma {:induction false} ClearKeepsWaiters(s: State, i: nat, n: nat)
    requires Shape(s) && i < TASK_MAX && n <= FD_MAX
    ensures forall k | 0 <= k < TASK_MAX :: s.tasks[k].state == InWait <==> ClearFds(s, i, n).tasks[k].state == InWait
    ensures ClearFds(s, i, n).collected == s.collected
  {
    if n > 0 {
      ClearKeepsWaiters(s, i, n - 1);
    }
  }

  lemma OthersLog(s: State, e: Event)
    requires Enabled(s, e) && !e.DoKill? && !e.DoWait? && !e.DoFork?
    ensures Step(s, e).collected == s.collected && Step(s, e).died == s.died
  {
    hide WithFd, WakeWaiters, Consumed, Written, Held, DropFd, NoFds;
    match e
    case DoClose(i, fd) => DropLog(s, i, fd);
    case DoDup2(i, _, newfd) =>
      if 0 <= newfd < FD_MAX {
        DropLog(s, i, newfd);
      }
    case DoBind(i, fd, _, _) => DropLog(s, i, fd);
    case DoBindFile(i, fd, _, _) => DropLog(s, i, fd);
    case _ =>
  }

  lemma DropLog(s: State, i: nat, j: nat)
    requires Shape(s) && i < TASK_MAX && j < FD_MAX
    ensures DropFd(s, i, j).collected == s.collected && DropFd(s, i, j).died == s.died
  {
  }

  lemma ForkLog(s: State, cur: nat, i: nat)
    requires Inv(s) && cur < TASK_MAX && i < TASK_MAX && s.tasks[cur].state == Ready && Reusable(s.tasks[i])
    ensures Fork(s, cur, i).collected == s.collected && Fork(s, cur, i).died == s.died
  {
    hide PipesOk, WaitsOk, InheritFds;
    OccupyPipes(s, i, cur);
    OccupyWaits(s, i, cur);
    InheritFdsKeeps(Occupy(s, i, cur), i, cur, FD_MAX);
  }

  /** The log grows by exactly what is handed out, and a recorded death stays recorded. */
  lemma StepLog(s: State, e: Event)
    requires Inv(s) && Enabled(s, e)
    ensures Step(s, e).collected == s.collected + HandedOut(s, e)
    ensures forall d <- s.died :: d in Step(s, e).died && Step(s, e).died[d] == s.died[d]
  {
    hide Inv, Kill, WaitFor, Fork, HandedOut;
    match e
    case DoFork(i, child) => ForkLog(s, i, child); NothingHanded(s, e);
    case DoKill(i, code) => KillLog(s, i, code); KillDied(s, i, code);
    case DoWait(i, want) => assert Shape(s) && Running(s, i); WaitLog(s, i, want);
    case _ => OthersLog(s, e); NothingHanded(s, e);
  }

  lemma NothingHanded(s: State, e: Event)
    requires Enabled(s, e) && !e.DoKill? && !e.DoWait?
    ensures HandedOut(s, e) == []
  {
  }

  lemma KillDied(s: State, i: nat, code: nat)
    requires Inv(s) && i < TASK_MAX
    ensures forall d <- s.died :: d in Kill(s, i, code).died && Kill(s, i, code).died[d] == s.died[d]
  {
    hide PipesOk, ClearFds;
    ClearFdsKeeps(s, i, FD_MAX);
    assert SlotOk(s, i) && SlotOk(ClearFds(s, i, FD_MAX), i);
  }

  /** Everything a run hands out, in order. */
  function Receipts(s: State, es: seq<Event>, t: State): seq<Receipt>
    requires Reaches(s, es, t)
    decreases |es|
  {
    if es == [] then [] else HandedOut(s, es[0]) + Receipts(Step(s, es[0]), es[1..], t)
  }

  lemma {:induction false} RunLog(s: State, es: seq<Event>, t: State)
    requires Inv(s) && Reaches(s, es, t)
    ensures Inv(t) && t.collected == s.collected + Receipts(s, es, t)
    ensures forall d <- s.died :: d in t.died && t.died[d] == s.died[d]
    decreases |es|
  {
    hide Inv, HandedOut, Step, Enabled;
    if es != [] {
      StepKeeps(s, es[0]);
      StepLog(s, es[0]);
      RunLog(Step(s, es[0]), es[1..], t);
    }
  }

  /**
   `wait` loses and duplicates nothing.  Over any run from boot, no death is handed out twice, and each with the
   code it died with; a death not handed out still has its slot and its code; and a waiting task has a live
   child to wait for and no dead one.
   */
  lemma WaitLosesNothing(es: seq<Event>, t: State)
    requires Reaches(Boot(), es, t)
    ensures var log := Receipts(Boot(), es, t);
      && (forall j, k | 0 <= j < k < |log| :: log[j].who != log[k].who)
      && (forall k | 0 <= k < |log| :: log[k].who in t.died && t.died[log[k].who] == log[k].code)
      && (forall d <- t.died :: Collected(log, d) || StillHeld(t, d))
    ensures Inv(t) && forall i | 0 <= i < TASK_MAX :: WaitOk(t.tasks, i)
  {
    hide Inv, Boot, Receipts, Collected, StillHeld, WaitOk, Reaches;
    BootInv();
    RunLog(Boot(), es, t);
    assert Boot().collected == [] by { BootLog(); }
    assert t.collected == Receipts(Boot(), es, t);
    WaitFacts(t);
  }

  lemma BootLog()
    ensures Boot().collected == []
  {
  }

  lemma WaitFacts(t: State)
    requires Inv(t)
    ensures forall j, k | 0 <= j < k < |t.collected| :: t.collected[j].who != t.collected[k].who
    ensures forall k | 0 <= k < |t.collected| :: t.collected[k].who in t.died && t.died[t.collected[k].who] == t.collected[k].code
    ensures forall d <- t.died :: Collected(t.collected, d) || StillHeld(t, d)
    ensures |t.tasks| == TASK_MAX && forall i | 0 <= i < TASK_MAX :: WaitOk(t.tasks, i)
  {
    hide PipesOk, SlotOk, WaitOk, Collected, StillHeld;
    forall d <- t.died ensures Collected(t.collected, d) || StillHeld(t, d) {
      assert DeathOk(t, d);
    }
  }
}

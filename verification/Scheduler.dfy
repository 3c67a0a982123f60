/**
 The scheduler of `kernel/sched.c` as the source has it: one object whose tables the calls update in
 place.  Each call is shown to be one step of the machine in `Lifecycle`, so what holds over every run
 of that machine holds of this code.
 */
module Schedulers {
  import opened Bytes
  import opened Tasks
  import opened Pipes
  import opened Lifecycle
  import opened Effects

  // ----- round robin -----

  /** The slot `d` places after `from` in a ring of `n` slots. */
  function Turn(from: nat, d: nat, n: nat): nat
    requires n > 0
  {
    (from + d) % n
  }

  /** How many places after `from` slot `k` comes; a whole round for `from` itself. */
  function Distance(from: nat, k: nat, n: nat): nat
    requires from < n && k < n
  {
    if k > from then k - from else k + n - from
  }

  lemma TurnAt(from: nat, d: nat, n: nat)
    requires from < n && 1 <= d <= n
    ensures Turn(from, d, n) == if from + d < n then from + d else from + d - n
    ensures Turn(from, d, n) < n && Distance(from, Turn(from, d, n), n) == d
  {
    ModOnce(from + d, n);
  }

  lemma ModOnce(x: nat, n: nat)
    requires x < 2 * n
    ensures x % n == if x < n then x else x - n
  {
    var q := x / n;
    assert x == n * q + x % n;
    assert 0 <= q < 2;
  }

  lemma TurnReaches(from: nat, k: nat, n: nat)
    requires from < n && k < n
    ensures 1 <= Distance(from, k, n) <= n && Turn(from, Distance(from, k, n), n) == k
  {
    TurnAt(from, Distance(from, k, n), n);
  }

  /** No two descriptors are unused. */
  ghost predicate NoTwoUnused(fds: seq<Fd>) {
    forall j, k | 0 <= j < k < |fds| :: fds[j].kind != Unused || fds[k].kind != Unused
  }

  /** The first slot that a new task may take. */
  ghost predicate FirstFree(tasks: seq<Task>, i: nat) {
    i < |tasks| && !Occupied(tasks[i]) && forall k | 0 <= k < i :: Occupied(tasks[k])
  }

  /** The slot has a task that lives, or one whose parent has still to collect it. */
  ghost predicate Occupied(t: Task) {
    t.state != Dead || (t.parent >= 0 && !t.reaped)
  }

  predicate Vacant(t: Task) {
    t.state == Dead && t.parent == -1 && !t.reaped
  }

  /** The call made this step of the machine. */
  ghost predicate Steps(s: State, e: Event, t: State) {
    Inv(s) && Enabled(s, e) && t == Step(s, e)
  }

  /** The task added last is alive and the descriptor number is one. */
  predicate Bindable(s: State, last: int, fd: int) {
    0 <= last < |s.tasks| && s.tasks[last].state != Dead && 0 <= fd < FD_MAX
  }

  lemma DropTable(s: State, i: nat, j: nat)
    requires Inv(s) && i < TASK_MAX && j < FD_MAX
    ensures DropFd(s, i, j).tasks[i].fds == s.tasks[i].fds[j := NOFD]
  {
    hide WaitsOk, DropFd;
    DropFdEffect(s, i, j);
  }

  lemma ShapeOf(s: State)
    requires Inv(s)
    ensures Shape(s)
  {
  }

  /** The root register and the base address of a slot. */
  datatype Space = Space(cr3: nat, base: nat)

  class Scheduler {
    var tasks: seq<Task>
    var pipes: seq<Pipe>
    var count: nat
    var current: nat
    var lastAdded: int
    var spaces: seq<Space>
    ghost var unbound: set<nat>
    ghost var died: map<(nat, nat), nat>
    ghost var collected: seq<Receipt>

    ghost function Abs(): State
      reads this
    {
      State(tasks, pipes, unbound, died, collected)
    }

    /** Slots from `count` on were never used. */
    ghost predicate Tail()
      reads this
    {
      && Shape(Abs()) && count <= TASK_MAX && (current < count || current == count == 0) && -1 <= lastAdded < count
      && |spaces| == TASK_MAX && forall i | count <= i < TASK_MAX :: Vacant(tasks[i])
    }

    ghost predicate Valid()
      reads this
    {
      Tail() && Inv(Abs())
    }

    /** `sched_init`. */
    constructor ()
      ensures Valid() && Abs() == Boot() && count == 0 && lastAdded == -1
    {
      tasks := seq(TASK_MAX, _ => Task(Dead, NoFds(), -1, 0, 0, false, 0, -1, -1, false, 0));
      pipes := seq(PIPE_MAX, _ => NOPIPE);
      spaces := seq(TASK_MAX, _ => Space(0, 0));
      count, current, lastAdded := 0, 0, -1;
      unbound, died, collected := {}, map[], [];
      new;
      BootInv();
    }

    /**
     `pick_next`: the next ready slot after `from`, going round; -1 exactly when no slot is ready.  Any
     other ready slot has come strictly nearer, so it is picked after less than a round of picks.
     */
    method PickNext(from: nat) returns (next: int)
      requires Tail() && (count > 0 ==> from < count)
      ensures next == -1 <==> forall k | 0 <= k < count :: tasks[k].state != Ready
      ensures next != -1 ==> 0 <= next < count && tasks[next].state == Ready
      ensures next != -1 && from < next ==> forall k | from < k < next :: tasks[k].state != Ready
      ensures next != -1 && next <= from ==> forall k | (from < k < count) || (0 <= k < next) :: tasks[k].state != Ready
      ensures next != -1 ==> forall k | 0 <= k < count && tasks[k].state == Ready && k != next ::
                Distance(from, next, count) < Distance(from, k, count) && Distance(next, k, count) < Distance(from, k, count)
    {
      var i := 1;
      while i <= count
        invariant 1 <= i <= count + 1
        invariant forall d | 1 <= d < i :: tasks[Turn(from, d, count)].state != Ready
      {
        TurnAt(from, i, count);
        var idx := (from + i) % count;
        if tasks[idx].state == Ready {
          forall k | 0 <= k < count && tasks[k].state == Ready && k != idx
            ensures Distance(from, idx, count) < Distance(from, k, count)
            ensures Distance(idx, k, count) < Distance(from, k, count)
          {
            TurnReaches(from, k, count);
          }
          return idx;
        }
        assert tasks[Turn(from, i, count)].state != Ready;
        i := i + 1;
      }
      forall k | 0 <= k < count ensures tasks[k].state != Ready {
        TurnReaches(from, k, count);
      }
      next := -1;
    }

    // ----- descriptors -----

    /** `wake_pipe_waiters`. */
    method WakePipeWaiters(p: int)
      requires Tail()
      modifies this`tasks
      ensures Tail() && tasks == WakeWaiters(old(tasks), p) && Awake(old(tasks), tasks, p)
    {
      ghost var was := tasks;
      var i := 0;
      while i < count
        invariant i <= count && |tasks| == |was| == TASK_MAX
        invariant forall k | 0 <= k < TASK_MAX :: tasks[k] == if k < i then Woken(was[k], p) else was[k]
      {
        if tasks[i].state == InPipe && tasks[i].pipeWait == p {
          tasks := tasks[i := tasks[i].(state := Ready, pipeWait := -1)];
        }
        i := i + 1;
      }
      assert tasks == WakeWaiters(was, p);
    }

    /** `drop_fd` on the pipe's side: one end fewer, waiters look again, the last end frees the pipe. */
    method DropEnd(p: nat, kind: Kind)
      requires Tail() && p < PIPE_MAX && (kind == PipeR || kind == PipeW)
      modifies this`tasks, this`pipes
      ensures Tail() && tasks == WakeWaiters(old(tasks), p)
      ensures var q := EndClosed(old(pipes[p]), kind);
        pipes == old(pipes)[p := if q.rrefs == 0 && q.wrefs == 0 then NOPIPE else q]
    {
      hide WakeWaiters;
      var q := pipes[p];
      if kind == PipeR {
        if q.rrefs > 0 {
          q := q.(rrefs := q.rrefs - 1);
        }
      } else if q.wrefs > 0 {
        q := q.(wrefs := q.wrefs - 1);
      }
      pipes := pipes[p := q];
      WakePipeWaiters(p);
      if pipes[p].rrefs == 0 && pipes[p].wrefs == 0 {
        pipes := pipes[p := NOPIPE];
      }
    }

    /** `drop_fd` on entry `j` of slot `i`. */
    method DropEntry(i: nat, j: nat)
      requires Tail() && i < TASK_MAX && j < FD_MAX
      modifies this`tasks, this`pipes
      ensures Tail() && Abs() == DropFd(old(Abs()), i, j)
    {
      hide WakeWaiters;
      var e := tasks[i].fds[j];
      if e.kind == Unused {
        return;
      }
      if (e.kind == PipeR || e.kind == PipeW) && 0 <= e.pipe < PIPE_MAX && pipes[e.pipe].used {
        DropEnd(e.pipe, e.kind);
      }
      tasks := tasks[i := tasks[i].(fds := tasks[i].fds[j := NOFD])];
    }

    /** The copy of an open entry into an unused one, counted if it is a pipe end. */
    method PutEntry(i: nat, j: nat, e: Fd)
      requires Tail() && i < count && CanOpen(Abs(), i, j, e)
      modifies this`tasks, this`pipes, this`unbound
      ensures Tail() && Abs() == OpenFd(old(Abs()), i, j, e)
      ensures tasks == WithFd(old(tasks), i, j, e)
    {
      tasks := tasks[i := tasks[i].(fds := tasks[i].fds[j := e])];
      if e.kind == PipeR || e.kind == PipeW {
        var q := pipes[e.pipe];
        if e.kind == PipeR {
          q := q.(rrefs := q.rrefs + 1);
        } else {
          q := q.(wrefs := q.wrefs + 1);
        }
        pipes := pipes[e.pipe := q];
        unbound := unbound - {e.pipe};
      }
    }

    /** `clear_fds`. */
    method ClearEntries(i: nat)
      requires Tail() && i < TASK_MAX
      modifies this`tasks, this`pipes
      ensures Tail() && Abs() == ClearFds(old(Abs()), i, FD_MAX)
    {
      var j := 0;
      while j < FD_MAX
        invariant j <= FD_MAX && Tail() && Abs() == ClearFds(old(Abs()), i, j)
      {
        DropEntry(i, j);
        j := j + 1;
      }
    }

    /** `inherit_fds`: the child gets a copy of every entry, and each copied pipe end is counted. */
    method InheritEntries(dst: nat, src: nat)
      requires Valid() && dst < count && src < TASK_MAX && dst != src && tasks[dst].state == Ready
      requires forall j | 0 <= j < FD_MAX :: tasks[dst].fds[j].kind == Unused
      modifies this`tasks, this`pipes, this`unbound
      ensures Valid() && Abs() == InheritFds(old(Abs()), dst, src, FD_MAX)
    {
      hide Inv, CanOpen, OpenFd, InheritFds;
      ghost var was := Abs();
      var j := 0;
      InheritNext(was, dst, src, 0);
      while j < FD_MAX
        invariant j <= FD_MAX && Tail() && Abs() == InheritFds(was, dst, src, j)
        invariant Inv(Abs())
        invariant tasks[dst].state == Ready && (j < FD_MAX ==> tasks[dst].fds[j] == NOFD)
      {
        InheritNext(was, dst, src, j);
        InheritNext(was, dst, src, j + 1);
        var e := tasks[src].fds[j];
        if e.kind != Unused && !(IsPipe(e) && (e.pipe < 0 || e.pipe >= PIPE_MAX || !pipes[e.pipe].used)) {
          PutEntry(dst, j, e);
        }
        j := j + 1;
      }
    }

    /** The first unused descriptor of the caller from `from` on, or -1. */
    method UnusedEntry(from: nat) returns (fd: int)
      requires Tail() && current < count && from <= FD_MAX
      ensures fd == -1 <==> forall j | from <= j < FD_MAX :: tasks[current].fds[j].kind != Unused
      ensures fd != -1 ==> from <= fd < FD_MAX && tasks[current].fds[fd].kind == Unused
      ensures forall j | from <= j < fd :: tasks[current].fds[j].kind != Unused
    {
      var j := from;
      while j < FD_MAX
        invariant from <= j <= FD_MAX
        invariant forall k | from <= k < j :: tasks[current].fds[k].kind != Unused
      {
        if tasks[current].fds[j].kind == Unused {
          return j;
        }
        j := j + 1;
      }
      fd := -1;
    }

    /** The two lowest unused descriptors of the caller; `w` is -1 when there are not two. */
    method UnusedPair() returns (r: int, w: int)
      requires Tail() && current < count
      ensures w == -1 <==> NoTwoUnused(tasks[current].fds)
      ensures w != -1 ==> 0 <= r < w < FD_MAX && tasks[current].fds[r].kind == Unused && tasks[current].fds[w].kind == Unused
      ensures w != -1 ==> forall j | 0 <= j < w && j != r :: tasks[current].fds[j].kind != Unused
    {
      w := -1;
      r := UnusedEntry(0);
      if r != -1 {
        w := UnusedEntry(r + 1);
      }
    }

    /** `sched_fd_open`: the lowest unused descriptor, or -1. */
    method OpenFile(path: string) returns (fd: int)
      requires Valid() && Running(Abs(), current) && path != ""
      modifies this`tasks, this`pipes, this`unbound
      ensures Valid()
      ensures fd == -1 <==> forall j | 0 <= j < FD_MAX :: old(tasks[current]).fds[j].kind != Unused
      ensures fd == -1 ==> Abs() == old(Abs())
      ensures fd != -1 ==> 0 <= fd && Steps(old(Abs()), DoOpen(current, fd, path), Abs())
      ensures forall j | 0 <= j < fd :: old(tasks[current]).fds[j].kind != Unused
      ensures fd != -1 ==> fd < FD_MAX && pipes == old(pipes) && |tasks[current].fds| == FD_MAX
                           && tasks == old(tasks)[current := old(tasks[current]).(fds := old(tasks[current].fds)[fd := Fd(File, -1, 0, path)])]
    {
      hide Inv;
      fd := UnusedEntry(0);
      if fd != -1 {
        StepKeeps(Abs(), DoOpen(current, fd, path));
        PutEntry(current, fd, Fd(File, -1, 0, path));
      }
    }

    /** `sched_fd_close`. */
    method CloseEntry(fd: int) returns (r: int)
      requires Valid() && Running(Abs(), current)
      modifies this`tasks, this`pipes
      ensures Valid()
      ensures r == 0 || r == -1
      ensures r == 0 <==> 0 <= fd < FD_MAX && old(tasks[current]).fds[fd].kind != Unused
      ensures r == -1 ==> Abs() == old(Abs())
      ensures r == 0 ==> Steps(old(Abs()), DoClose(current, fd), Abs())
      ensures r == 0 ==> Shape(old(Abs())) && Closes(old(Abs()), Abs(), current, fd)
    {
      hide Inv, DropFd, Closes;
      if fd < 0 || fd >= FD_MAX || tasks[current].fds[fd].kind == Unused {
        return -1;
      }
      StepKeeps(Abs(), DoClose(current, fd));
      DropFdCloses(Abs(), current, fd);
      DropEntry(current, fd);
      r := 0;
    }

    /** `sched_fd_dup2`. */
    method Dup2Entry(oldfd: int, newfd: int) returns (r: int)
      requires Valid() && Running(Abs(), current)
      modifies this`tasks, this`pipes, this`unbound
      ensures Valid() && Steps(old(Abs()), DoDup2(current, oldfd, newfd), Abs())
      ensures r == Dup2(old(Abs()), current, oldfd, newfd).0
      ensures r == if 0 <= oldfd < FD_MAX && 0 <= newfd < FD_MAX && old(tasks[current]).fds[oldfd].kind != Unused then newfd else -1
      ensures if r == -1 || oldfd == newfd then Abs() == old(Abs())
              else tasks[current].fds == old(tasks[current]).fds[newfd := old(tasks[current]).fds[oldfd]]
      ensures forall k | 0 <= k < TASK_MAX && k != current :: tasks[k].fds == old(tasks)[k].fds
    {
      hide Inv, DropFd, OpenFd;
      ShapeOf(Abs());
      Dup2Keeps(Abs(), current, oldfd, newfd);
      ghost var was := Abs();
      StepKeeps(was, DoDup2(current, oldfd, newfd));
      if oldfd < 0 || oldfd >= FD_MAX || newfd < 0 || newfd >= FD_MAX || tasks[current].fds[oldfd].kind == Unused {
        return -1;
      }
      if oldfd == newfd {
        return newfd;
      }
      DupDrops(was, current, oldfd, newfd);
      DropEntry(current, newfd);
      var e := tasks[current].fds[oldfd];
      PutEntry(current, newfd, e);
      r := newfd;
    }

    /** `alloc_pipe`: the first pipe not in use, if there is a page of memory for it. */
    method AllocPipe(memory: bool) returns (p: int)
      requires Valid()
      modifies this`pipes, this`unbound
      ensures Valid()
      ensures p == -1 <==> !memory || forall k | 0 <= k < PIPE_MAX :: old(pipes)[k].used
      ensures p == -1 ==> Abs() == old(Abs())
      ensures p != -1 ==> 0 <= p < PIPE_MAX && !old(pipes)[p].used && Steps(old(Abs()), DoPipeNew(p), Abs())
      ensures p != -1 ==> (forall k | 0 <= k < p :: old(pipes)[k].used) && pipes == old(pipes)[p := pipes[p]]
                          && pipes[p].used && pipes[p].len == 0 && pipes[p].rrefs == 0 && pipes[p].wrefs == 0
    {
      hide Inv;
      var i := 0;
      while i < PIPE_MAX && pipes[i].used
        invariant i <= PIPE_MAX && forall k | 0 <= k < i :: pipes[k].used
      {
        i := i + 1;
      }
      if i == PIPE_MAX || !memory {
        return -1;
      }
      StepKeeps(Abs(), DoPipeNew(i));
      pipes := pipes[i := NEWPIPE];
      unbound := unbound + {i};
      p := i;
    }

    /** `sched_pipe`: the two lowest unused descriptors become the ends of a new pipe, or nothing changes. */
    method PipeCall(memory: bool) returns (p: int, r: int, w: int)
      requires Valid() && Running(Abs(), current)
      modifies this`tasks, this`pipes, this`unbound
      ensures Valid()
      ensures p == -1 ==> Abs() == old(Abs())
      ensures p == -1 <==> !memory || (forall k | 0 <= k < PIPE_MAX :: old(pipes)[k].used) || w == -1
      ensures w == -1 <==> NoTwoUnused(old(tasks[current]).fds)
      ensures p != -1 ==> 0 <= p && 0 <= r < w && Steps(old(Abs()), DoPipe(current, p, r, w), Abs())
      ensures w != -1 ==> w < FD_MAX && forall j | 0 <= j < w && j != r :: old(tasks[current]).fds[j].kind != Unused
      ensures p != -1 ==> p < PIPE_MAX && w < FD_MAX && PipeDoes(old(Abs()), Abs(), current, p, r, w)
    {
      hide Inv, OpenFd, NewPipe, PipeDoes, NoTwoUnused;
      p := -1;
      r, w := UnusedPair();
      if w == -1 {
        return;
      }
      ghost var was := Abs();
      p := AllocPipe(memory);
      if p == -1 {
        return;
      }
      StepKeeps(was, DoPipe(current, p, r, w));
      MakePipeDoes(was, current, p, r, w);
      MakePipeOpens(was, current, p, r, w);
      PutEntry(current, r, Fd(PipeR, p, 0, ""));
      PutEntry(current, w, Fd(PipeW, p, 0, ""));
    }

    /** `sched_pipe_unused`. */
    method FreeUnbound(p: nat)
      requires Valid()
      modifies this`pipes, this`unbound
      ensures Valid() && Steps(old(Abs()), DoPipeUnused(p), Abs())
      ensures forall k | 0 <= k < PIPE_MAX ::
                if k == p && old(pipes)[k].used && old(pipes)[k].rrefs == 0 && old(pipes)[k].wrefs == 0 then !pipes[k].used else pipes[k] == old(pipes)[k]
    {
      hide Inv;
      PipeUnusedKeeps(Abs(), p);
      if 0 <= p < PIPE_MAX && pipes[p].used && pipes[p].rrefs == 0 && pipes[p].wrefs == 0 {
        pipes := pipes[p := NOPIPE];
        unbound := unbound - {p};
      }
    }

    /**
     `sched_fd_bind_pipe` on the task added last.  The books are kept exactly when the entry was not the last end
     of the same pipe.
     */
    method BindEntry(fd: int, kind: Kind, p: int) returns (r: int)
      requires Valid()
      modifies this`tasks, this`pipes, this`unbound
      ensures r == 0 || r == -1
      ensures r == 0 <==> Bindable(old(Abs()), lastAdded, fd) && (kind == PipeR || kind == PipeW) && 0 <= p < PIPE_MAX && old(pipes)[p].used
      ensures r == -1 ==> Abs() == old(Abs())
      ensures r == 0 ==> Shape(old(Abs())) && Abs() == BindPipe(old(Abs()), lastAdded, fd, kind, p)
      ensures r == 0 ==> tasks[lastAdded].fds == old(tasks)[lastAdded].fds[fd := Fd(kind, p, 0, "")]
      ensures Tail() && (Valid() <==> !(Bindable(old(Abs()), lastAdded, fd) && (kind == PipeR || kind == PipeW) && 0 <= p < PIPE_MAX
                                        && old(pipes)[p].used && LastEnd(old(Abs()), lastAdded, fd, p)))
    {
      hide Inv, DropFd, OpenFd;
      ShapeOf(Abs());
      if lastAdded < 0 || fd < 0 || fd >= FD_MAX || (kind != PipeR && kind != PipeW) || p < 0 || p >= PIPE_MAX || !pipes[p].used {
        return -1;
      }
      var i := lastAdded;
      if tasks[i].state == Dead {
        return -1;
      }
      BindPipeKeeps(Abs(), i, fd, kind, p);
      DropEntry(i, fd);
      tasks := tasks[i := tasks[i].(fds := tasks[i].fds[fd := Fd(kind, p, 0, "")])];
      var q := pipes[p];
      pipes := pipes[p := if kind == PipeR then q.(rrefs := q.rrefs + 1) else q.(wrefs := q.wrefs + 1)];
      unbound := unbound - {p};
      r := 0;
    }

    /** `sched_fd_bind_file` on the task added last. */
    method BindFileEntry(fd: int, path: string, offset: nat) returns (r: int)
      requires Valid()
      modifies this`tasks, this`pipes
      ensures Valid() && (r == 0 || r == -1)
      ensures r == 0 <==> Bindable(old(Abs()), lastAdded, fd) && path != ""
      ensures r == -1 ==> Abs() == old(Abs())
      ensures r == 0 ==> Steps(old(Abs()), DoBindFile(lastAdded, fd, path, offset), Abs())
      ensures r == 0 ==> tasks[lastAdded].fds == old(tasks)[lastAdded].fds[fd := Fd(File, -1, offset, path)]
    {
      hide Inv, DropFd;
      ShapeOf(Abs());
      if lastAdded < 0 || fd < 0 || fd >= FD_MAX || path == "" {
        return -1;
      }
      var i := lastAdded;
      if tasks[i].state == Dead {
        return -1;
      }
      BindFileKeeps(Abs(), i, fd, path, offset);
      ghost var fds := tasks[i].fds;
      assert DropFd(Abs(), i, fd).tasks[i].fds == fds[fd := NOFD] by { DropTable(Abs(), i, fd); }
      DropEntry(i, fd);
      tasks := tasks[i := tasks[i].(fds := tasks[i].fds[fd := Fd(File, -1, offset, path)])];
      r := 0;
    }

    // ----- pipes -----

    /** `sched_pipe_read`: the outcome of `ReadPipe`, with -2 and no change where the caller has to block. */
    method PipeRead(fd: int, n: nat) returns (rc: int, got: seq<Byte>)
      requires Valid() && Running(Abs(), current)
      modifies this`tasks, this`pipes
      ensures Valid()
      ensures match ReadPipe(old(Abs()), current, fd, n).0
              case Done(k, d) => rc == k && got == d && Abs() == ReadPipe(old(Abs()), current, fd, n).1
              case Refused => rc == -1 && Abs() == old(Abs())
              case Blocked => rc == -2 && Abs() == old(Abs())
      ensures rc < 0 ==> got == []
      ensures rc == -2 <==> MustWaitToRead(old(Abs()), current, fd, n)
      ensures rc != -2 ==> ReadDoes(old(Abs()), Abs(), current, fd, n, rc, got)
    {
      hide Inv, Consumed, WakeWaiters, ReadDoes, MustWaitToRead;
      ReadPipeDoes(Abs(), current, fd, n);
      got := [];
      if n == 0 {
        return 0, [];
      }
      if !(0 <= fd < FD_MAX) || tasks[current].fds[fd].kind != PipeR {
        return -1, [];
      }
      ReadPipeKeeps(Abs(), current, fd, n);
      PipeEnd(Abs(), current, fd);
      var idx := tasks[current].fds[fd].pipe;
      var q := pipes[idx];
      if q.len == 0 {
        rc := if q.wrefs == 0 then 0 else -2;
        return;
      }
      var k := if n > q.len then q.len else n;
      got := TakeBytes(q, k);
      pipes := pipes[idx := Consumed(q, k)];
      WakePipeWaiters(idx);
      rc := k;
    }

    /** `sched_pipe_write`. */
    method PipeWrite(fd: int, d: seq<Byte>) returns (rc: int)
      requires Valid() && Running(Abs(), current)
      modifies this`tasks, this`pipes
      ensures Valid()
      ensures match WritePipe(old(Abs()), current, fd, d).0
              case Done(k, _) => rc == k && Abs() == WritePipe(old(Abs()), current, fd, d).1
              case Refused => rc == -1 && Abs() == old(Abs())
              case Blocked => rc == -2 && Abs() == old(Abs())
      ensures rc == -2 <==> MustWaitToWrite(old(Abs()), current, fd, d)
      ensures rc != -2 ==> WriteDoes(old(Abs()), Abs(), current, fd, d, rc)
    {
      hide Inv, Written, WakeWaiters, WriteDoes, MustWaitToWrite;
      WritePipeDoes(Abs(), current, fd, d);
      if |d| == 0 {
        return 0;
      }
      if !(0 <= fd < FD_MAX) || tasks[current].fds[fd].kind != PipeW {
        return -1;
      }
      WritePipeKeeps(Abs(), current, fd, d);
      PipeEnd(Abs(), current, fd);
      var idx := tasks[current].fds[fd].pipe;
      var q := pipes[idx];
      if q.rrefs == 0 {
        return -1;
      }
      if q.len >= PIPE_CAP {
        return -2;
      }
      var room := PIPE_CAP - q.len;
      var k := if |d| > room then room else |d|;
      var q' := PutBytes(q, d[..k]);
      pipes := pipes[idx := q'];
      WakePipeWaiters(idx);
      rc := k;
    }

    /** Gives the processor to the next ready task; with none ready the kernel idles. */
    method SwitchAway() returns (idle: bool)
      requires Tail() && count > 0
      modifies this`current
      ensures Tail()
      ensures idle <==> forall k | 0 <= k < count :: tasks[k].state != Ready
      ensures idle ==> current == old(current)
      ensures !idle ==> tasks[current].state == Ready
    {
      var next := PickNext(current);
      idle := next < 0;
      if !idle {
        current := next;
      }
    }

    /**
     The pipe branch of SYS_READ: bytes, end of file or refusal, or the caller blocks and another task runs.  A caller
     that would block with a signal pending gets the signal instead.
     */
    method SysRead(fd: int, n: nat, pending: bool) returns (rc: int, got: seq<Byte>, idle: bool)
      requires Valid() && Running(Abs(), current) && 0 <= fd
      modifies this`tasks, this`pipes, this`current
      ensures Valid() && (rc == -3 <==> pending && ReadPipe(old(Abs()), old(current), fd, Min(n, PIPE_CAP)).0 == Blocked)
      ensures if rc == -3 then Abs() == old(Abs()) else Steps(old(Abs()), DoRead(old(current), fd, Min(n, PIPE_CAP)), Abs())
      ensures idle <==> forall k | 0 <= k < count :: tasks[k].state != Ready
      ensures !idle ==> Running(Abs(), current)
      ensures rc != -2 ==> current == old(current) && !idle
      ensures rc == -3 || match ReadPipe(old(Abs()), old(current), fd, Min(n, PIPE_CAP)).0
              case Done(k, d) => rc == k && got == d
              case Refused => rc == -1
              case Blocked => rc == -2
      ensures rc == -3 <==> pending && MustWaitToRead(old(Abs()), old(current), fd, if n < 0x1000 then n else 0x1000)
      ensures rc != -3 ==> ReadDoes(old(Abs()), Abs(), old(current), fd, if n < 0x1000 then n else 0x1000, rc, got)
    {
      hide Inv, ReadPipe, ReadDoes, MustWaitToRead;
      ReadPipeDoes(Abs(), current, fd, Min(n, PIPE_CAP));
      var me := current;
      ghost var was := Abs();
      StepKeeps(was, DoRead(me, fd, Min(n, PIPE_CAP)));
      rc, got := PipeRead(fd, if n > PIPE_CAP then PIPE_CAP else n);
      idle := false;
      ReadPipeBlocks(was, me, fd, Min(n, PIPE_CAP));
      if rc == -2 && pending {
        return -3, got, false;
      }
      if rc == -2 {
        var t := tasks[me];
        tasks := tasks[me := t.(state := InPipe, pipeWait := t.fds[fd].pipe, blockFd := fd, blockWrite := false)];
        idle := SwitchAway();
      }
    }

    /** The pipe branch of SYS_WRITE. */
    method SysWrite(fd: int, d: seq<Byte>, pending: bool) returns (rc: int, idle: bool)
      requires Valid() && Running(Abs(), current) && 0 <= fd && |d| <= PIPE_CAP
      modifies this`tasks, this`pipes, this`current
      ensures Valid() && (rc == -3 <==> pending && WritePipe(old(Abs()), old(current), fd, d).0 == Blocked)
      ensures if rc == -3 then Abs() == old(Abs()) else Steps(old(Abs()), DoWrite(old(current), fd, d), Abs())
      ensures idle <==> forall k | 0 <= k < count :: tasks[k].state != Ready
      ensures !idle ==> Running(Abs(), current)
      ensures rc != -2 ==> current == old(current) && !idle
      ensures rc == -3 || match WritePipe(old(Abs()), old(current), fd, d).0
              case Done(k, _) => rc == k
              case Refused => rc == -1
              case Blocked => rc == -2
      ensures rc == -3 <==> pending && MustWaitToWrite(old(Abs()), old(current), fd, d)
      ensures rc != -3 ==> WriteDoes(old(Abs()), Abs(), old(current), fd, d, rc)
    {
      hide Inv, WritePipe, WriteDoes, MustWaitToWrite;
      WritePipeDoes(Abs(), current, fd, d);
      var me := current;
      ghost var was := Abs();
      StepKeeps(was, DoWrite(me, fd, d));
      rc := PipeWrite(fd, d);
      idle := false;
      WritePipeBlocks(was, me, fd, d);
      if rc == -2 && pending {
        return -3, false;
      }
      if rc == -2 {
        var t := tasks[me];
        tasks := tasks[me := t.(state := InPipe, pipeWait := t.fds[fd].pipe, blockFd := fd, blockWrite := true)];
        idle := SwitchAway();
      }
    }

    // ----- wait and death -----

    /** `find_zombie`: the lowest dead child that matches, or -1. */
    method FindZombie(parent: nat, want: nat) returns (z: int)
      requires Tail()
      ensures -1 <= z < count && FirstZombie(tasks, parent, want, 0) == if z == -1 then TASK_MAX else z
    {
      if want != 0 {
        OnlyZombie(tasks, parent, want);
        return if want < count && ChildOf(tasks, parent, want) && tasks[want].state == Dead then want else -1;
      }
      var i := 0;
      while i < count
        invariant i <= count
        invariant FirstZombie(tasks, parent, want, 0) == FirstZombie(tasks, parent, want, i)
      {
        if ChildOf(tasks, parent, i) && tasks[i].state == Dead {
          return i;
        }
        i := i + 1;
      }
      z := -1;
    }

    /** `has_child`. */
    method FindChild(parent: nat, want: nat) returns (has: bool)
      requires Tail()
      ensures has <==> HasChild(tasks, parent, want)
    {
      if want != 0 {
        has := want < count && ChildOf(tasks, parent, want);
        assert Matches(want, want);
        return;
      }
      var i := 0;
      while i < count
        invariant i <= count && forall c | 0 <= c < i :: !ChildOf(tasks, parent, c)
      {
        if ChildOf(tasks, parent, i) {
          assert Matches(want, i);
          return true;
        }
        i := i + 1;
      }
      has := false;
    }

    /**
     `sched_wait`: the code of a dead child, -1 without a child, or the caller waits and another task runs.  With a
     signal pending the call is not made at all.
     */
    method Wait(want: int, pending: bool) returns (rc: int, idle: bool)
      requires Valid() && Running(Abs(), current)
      modifies this`tasks, this`collected, this`current
      ensures Valid() && (pending ==> rc == -3 && !idle && Abs() == old(Abs()))
      ensures !pending ==> Steps(old(Abs()), DoWait(old(current), want), Abs())
      ensures pending || match WaitFor(old(Abs()), old(current), want).0
              case Done(code, _) => rc == code && !idle
              case Refused => rc == -1 && !idle
              case Blocked => rc == -2 && (idle <==> forall k | 0 <= k < count :: tasks[k].state != Ready)
      ensures !pending ==> WaitDoes(old(Abs()), Abs(), old(current), want, rc)
      ensures rc != -2 ==> current == old(current)
      ensures !idle ==> Running(Abs(), current)
    {
      hide Inv, HasChild, FirstZombie, WaitDoes;
      WaitForDoes(Abs(), current, want);
      idle := false;
      if pending {
        return -3, false;
      }
      StepKeeps(Abs(), DoWait(current, want));
      if want < 0 {
        return -1, false;
      }
      var child := FindZombie(current, want);
      if child >= 0 {
        rc := tasks[child].exitCode;
        collected := collected + [Receipt((child, tasks[child].gen), rc)];
        tasks := tasks[child := tasks[child].(reaped := true)];
        return;
      }
      var has := FindChild(current, want);
      if !has {
        return -1, false;
      }
      tasks := tasks[current := tasks[current].(state := InWait, waitPid := want)];
      rc := -2;
      idle := SwitchAway();
    }

    /** `wake_parent_waiter`. */
    method WakeParentWaiter(child: nat, code: nat)
      requires Tail() && child < count && code == tasks[child].exitCode
      modifies this`tasks, this`collected
      ensures Tail() && Abs() == WakeParent(old(Abs()), child)
    {
      var p := tasks[child].parent;
      if p < 0 || p >= count || tasks[p].state != InWait {
        return;
      }
      if tasks[p].waitPid != 0 && tasks[p].waitPid != child {
        return;
      }
      collected := collected + [Receipt((child, tasks[child].gen), code)];
      tasks := tasks[child := tasks[child].(reaped := true)];
      tasks := tasks[p := tasks[p].(state := Ready, rax := code, waitPid := 0)];
    }

    /** `kill_task`: everything the task holds open is closed, then it is dead and its parent is told. */
    method KillTask(idx: int, code: nat)
      requires Valid()
      modifies this`tasks, this`pipes, this`died, this`collected
      ensures Valid()
      ensures if 0 <= idx < TASK_MAX then Steps(old(Abs()), DoKill(idx, code), Abs()) else Abs() == old(Abs())
      ensures 0 <= idx < TASK_MAX ==> Shape(old(Abs())) && KillDoes(old(Abs()), Abs(), idx, code)
    {
      hide Inv, ClearFds, WakeParent, KillDoes;
      if 0 <= idx < TASK_MAX {
        KillKills(Abs(), idx, code);
      }
      if idx < 0 || idx >= count || tasks[idx].state == Dead {
        return;
      }
      StepKeeps(Abs(), DoKill(idx, code));
      ClearEntries(idx);
      var t := tasks[idx];
      tasks := tasks[idx := t.(state := Dead, exitCode := code, reaped := false, pipeWait := -1)];
      died := if t.parent >= 0 then died[(idx, t.gen) := code] else died;
      WakeParentWaiter(idx, code);
    }

    /** `sched_exit`: the caller dies, and the next ready task runs; without one the processor halts for good. */
    method Exit(code: nat) returns (halted: bool)
      requires Valid() && Running(Abs(), current)
      modifies this`tasks, this`pipes, this`died, this`collected, this`current
      ensures Valid() && Steps(old(Abs()), DoKill(old(current), code % 256), Abs())
      ensures Shape(old(Abs())) && KillDoes(old(Abs()), Abs(), old(current), code % 256)
      ensures halted <==> forall k | 0 <= k < count :: tasks[k].state != Ready
      ensures !halted ==> Running(Abs(), current)
    {
      hide Inv, Kill, KillDoes;
      KillTask(current, code % 256);
      halted := SwitchAway();
    }

    // ----- birth -----

    /** The slot search of `sched_add_user` and `sched_fork`: the first reusable slot; -1 if there is none. */
    method TakeSlot() returns (i: int)
      requires Valid()
      modifies this`count
      ensures Valid() && old(count) <= count
      ensures i == -1 <==> forall k | 0 <= k < TASK_MAX :: Occupied(tasks[k])
      ensures i != -1 ==> 0 <= i < count && FirstFree(tasks, i)
      ensures i == -1 ==> count == old(count)
    {
      hide Inv;
      var k := 0;
      while k < count
        invariant k <= count && forall x | 0 <= x < k :: Occupied(tasks[x])
      {
        if Reusable(tasks[k]) {
          return k;
        }
        k := k + 1;
      }
      if count >= TASK_MAX {
        return -1;
      }
      i := count;
      assert Reusable(tasks[i]);
      count := count + 1;
    }

    /** A live slot has this space. */
    ghost predicate Busy(base: nat, cr3: nat)
      reads this
    {
      base == 0 || cr3 == 0 || exists k :: 0 <= k < count && k < |tasks| == |spaces| && tasks[k].state != Dead && spaces[k] == Space(cr3, base)
    }

    /** `sched_base_busy`. */
    method BaseBusy(base: nat, cr3: nat) returns (busy: bool)
      requires Tail()
      ensures busy <==> Busy(base, cr3)
    {
      if base == 0 || cr3 == 0 {
        return true;
      }
      for i := 0 to count
        invariant forall k | 0 <= k < i :: tasks[k].state == Dead || spaces[k] != Space(cr3, base)
      {
        if tasks[i].state != Dead && spaces[i].cr3 == cr3 && spaces[i].base == base {
          return true;
        }
      }
      busy := false;
    }

    /** A new task in the first reusable slot, with the console on its first three descriptors. */
    method Place() returns (i: int)
      requires Valid()
      modifies this`tasks, this`count, this`pipes, this`unbound, this`lastAdded
      ensures Valid() && (i == -1 <==> forall k | 0 <= k < TASK_MAX :: Occupied(old(tasks)[k]))
      ensures i == -1 ==> Abs() == old(Abs())
      ensures i != -1 ==> 0 <= i < TASK_MAX && FirstFree(old(tasks), i) && lastAdded == i && Steps(old(Abs()), DoSpawn(i), Abs())
      ensures i != -1 ==> Shape(old(Abs())) && SpawnDoes(old(Abs()), Abs(), i)
    {
      hide Inv, OpenFd, SpawnDoes;
      i := TakeSlot();
      if i == -1 {
        return;
      }
      SpawnSpawns(Abs(), i);
      StepKeeps(Abs(), DoSpawn(i));
      tasks := tasks[i := Born(tasks[i], -1)];
      PutEntry(i, 0, Fd(ConsoleR, -1, 0, ""));
      PutEntry(i, 1, Fd(ConsoleW, -1, 0, ""));
      PutEntry(i, 2, Fd(ConsoleW, -1, 0, ""));
      lastAdded := i;
    }

    /** `sched_add_user`: it refuses a zero argument, the boot table, and a space that a live slot has. */
    method AddUser(kstack: nat, base: nat, cr3: nat, boot: nat) returns (i: int)
      requires Valid()
      modifies this
      ensures Valid()
      ensures i == -1 <==> || kstack == 0 || base == 0 || cr3 == 0 || cr3 == boot || old(Busy(base, cr3))
                           || forall k | 0 <= k < TASK_MAX :: Occupied(old(tasks)[k])
      ensures i == -1 ==> Abs() == old(Abs()) && spaces == old(spaces)
      ensures i != -1 ==> 0 <= i && FirstFree(old(tasks), i) && lastAdded == i && Steps(old(Abs()), DoSpawn(i), Abs())
      ensures i != -1 ==> i < TASK_MAX && spaces == old(spaces)[i := Space(cr3, base)]
      ensures i != -1 ==> Shape(old(Abs())) && SpawnDoes(old(Abs()), Abs(), i)
    {
      hide Inv, Busy, Steps, SpawnDoes;
      if kstack == 0 || base == 0 || cr3 == 0 || cr3 == boot {
        return -1;
      }
      var busy := BaseBusy(base, cr3);
      if busy {
        return -1;
      }
      i := Place();
      if i != -1 {
        spaces := spaces[i := Space(cr3, base)];
      }
    }

    /** `sched_fork`: the child's slot, with the parent's base and a space of its own. */
    method ForkCurrent(kstack: nat, cr3: nat, boot: nat) returns (child: int)
      requires Valid() && Running(Abs(), current) && current < count
      modifies this
      ensures Valid() && current == old(current)
      ensures child == -1 <==> || kstack == 0 || cr3 == 0 || cr3 == boot || old(spaces)[current].cr3 == 0 || old(spaces)[current].cr3 == cr3
                               || forall k | 0 <= k < TASK_MAX :: Occupied(old(tasks)[k])
      ensures child == -1 ==> Abs() == old(Abs()) && spaces == old(spaces)
      ensures child != -1 ==>
                0 <= child && FirstFree(old(tasks), child) && lastAdded == child && Steps(old(Abs()), DoFork(current, child), Abs())
      ensures child != -1 ==> child < TASK_MAX && spaces == old(spaces)[child := Space(cr3, old(spaces)[current].base)]
      ensures child != -1 ==> Shape(old(Abs())) && ForkDoes(old(Abs()), Abs(), current, child)
    {
      hide Inv, InheritFds, ForkDoes;
      if kstack == 0 || cr3 == 0 || cr3 == boot || spaces[current].cr3 == 0 || spaces[current].cr3 == cr3 {
        return -1;
      }
      child := TakeSlot();
      if child == -1 {
        return;
      }
      ghost var was := Abs();
      StepKeeps(was, DoFork(current, child));
      ForkForks(was, current, child);
      OccupyKeeps(was, child, current);
      tasks := tasks[child := Born(tasks[child], current)];
      InheritEntries(child, current);
      spaces := spaces[child := Space(cr3, spaces[current].base)];
      lastAdded := child;
    }
  }

  /** The copy loop of `sched_pipe_read`. */
  method TakeBytes(q: Pipe, k: nat) returns (got: seq<Byte>)
    requires RingOk(q) && k <= q.len
    ensures got == Held(q)[..k]
  {
    got := [];
    while |got| < k
      invariant |got| <= k && got == Held(q)[..|got|]
    {
      got := got + [q.data[(q.head + |got|) % PIPE_CAP]];
    }
  }

  /** The copy loop of `sched_pipe_write`. */
  method PutBytes(q: Pipe, d: seq<Byte>) returns (q': Pipe)
    requires RingOk(q) && q.len + |d| <= PIPE_CAP
    ensures q' == Written(q, d)
  {
    var tail := (q.head + q.len) % PIPE_CAP;
    var data := q.data;
    var i := 0;
    while i < |d|
      invariant i <= |d| && data == RingPut(q.data, tail, d[..i])
    {
      data := data[(tail + i) % PIPE_CAP := d[i]];
      assert d[..i + 1][..i] == d[..i];
      i := i + 1;
    }
    assert d[..|d|] == d;
    q' := q.(data := data, len := q.len + |d|, wrote := q.wrote + d);
  }

  /** One round of the inheriting loop. */
  lemma InheritNext(s: State, dst: nat, src: nat, j: nat)
    requires Inv(s) && dst < TASK_MAX && src < TASK_MAX && j <= FD_MAX && dst != src && s.tasks[dst].state == Ready
    requires forall k | 0 <= k < FD_MAX :: s.tasks[dst].fds[k].kind == Unused
    ensures var t := InheritFds(s, dst, src, j);
      && Inv(t) && t.tasks[dst].state == Ready && (j < FD_MAX ==> t.tasks[dst].fds[j] == NOFD)
      && (j == 0 ==> t == s)
      && (j < FD_MAX ==>
            var e := t.tasks[src].fds[j];
            if e.kind != Unused && !(IsPipe(e) && (e.pipe < 0 || e.pipe >= PIPE_MAX || !t.pipes[e.pipe].used))
            then CanOpen(t, dst, j, e) && InheritFds(s, dst, src, j + 1) == OpenFd(t, dst, j, e)
            else InheritFds(s, dst, src, j + 1) == t)
  {
    hide PipesOk, WaitsOk, OpenFd;
    InheritFdsKeeps(s, dst, src, j);
    if j < FD_MAX {
      InheritStep(InheritFds(s, dst, src, j), dst, src, j);
    }
  }

  lemma PipeEnd(s: State, i: nat, fd: nat)
    requires Inv(s) && i < TASK_MAX && fd < FD_MAX && IsPipe(s.tasks[i].fds[fd])
    ensures 0 <= s.tasks[i].fds[fd].pipe < PIPE_MAX
    ensures s.pipes[s.tasks[i].fds[fd].pipe].used && RingOk(s.pipes[s.tasks[i].fds[fd].pipe])
  {
    EndMeansUsed(s, i, fd);
    assert RingOk(s.pipes[s.tasks[i].fds[fd].pipe]);
  }

  lemma ReadPipeBlocks(s: State, i: nat, fd: nat, n: nat)
    requires Inv(s) && i < TASK_MAX
    ensures var r := ReadPipe(s, i, fd, n);
      && (r.0 == Refused ==> r.1 == s)
      && (r.0 != Blocked && s.tasks[i].state == Ready ==> r.1.tasks[i].state == Ready)
      && (r.0 == Blocked ==> fd < FD_MAX && r.1 == BlockOn(s, i, fd, false))
  {
  }

  lemma WritePipeBlocks(s: State, i: nat, fd: nat, d: seq<Byte>)
    requires Inv(s) && i < TASK_MAX
    ensures var r := WritePipe(s, i, fd, d);
      && (r.0 == Refused ==> r.1 == s)
      && (r.0 != Blocked && s.tasks[i].state == Ready ==> r.1.tasks[i].state == Ready)
      && (r.0 == Blocked ==> fd < FD_MAX && r.1 == BlockOn(s, i, fd, true))
  {
  }

  lemma OnlyZombie(tasks: seq<Task>, p: int, want: nat)
    requires want != 0
    ensures FirstZombie(tasks, p, want, 0)
         == if want < |tasks| && ChildOf(tasks, p, want) && tasks[want].state == Dead then want else |tasks|
  {
    var z := FirstZombie(tasks, p, want, 0);
    assert z < |tasks| ==> z == want;
    assert want < |tasks| ==> Matches(want, want);
  }

  lemma DupDrops(s: State, i: nat, oldfd: nat, newfd: nat)
    requires Inv(s) && i < TASK_MAX && s.tasks[i].state == Ready
    requires oldfd < FD_MAX && newfd < FD_MAX && oldfd != newfd && s.tasks[i].fds[oldfd].kind != Unused
    ensures var t := DropFd(s, i, newfd); CanOpen(t, i, newfd, t.tasks[i].fds[oldfd])
  {
    hide Ends, IsEnd, Reasons, RingOk, WaitsOk, InUseOk, CountOk, DropFd;
    DropFdKeeps(s, i, newfd);
    DropFdEffect(s, i, newfd);
    var t := DropFd(s, i, newfd);
    if IsPipe(t.tasks[i].fds[oldfd]) {
      EndMeansUsed(t, i, oldfd);
    }
  }

  lemma MakePipeOpens(s: State, i: nat, p: nat, r: nat, w: nat)
    requires Inv(s) && i < TASK_MAX && p < PIPE_MAX && !s.pipes[p].used && r < FD_MAX && w < FD_MAX && r != w
    requires s.tasks[i].state == Ready && s.tasks[i].fds[r].kind == Unused && s.tasks[i].fds[w].kind == Unused
    ensures CanOpen(NewPipe(s, p), i, r, Fd(PipeR, p, 0, ""))
    ensures CanOpen(OpenFd(NewPipe(s, p), i, r, Fd(PipeR, p, 0, "")), i, w, Fd(PipeW, p, 0, ""))
  {
  }

  lemma OccupyKeeps(s: State, i: nat, parent: nat)
    requires Inv(s) && i < TASK_MAX && Reusable(s.tasks[i]) && parent < TASK_MAX && s.tasks[parent].state == Ready
    ensures Inv(Occupy(s, i, parent))
  {
    hide PipesOk, WaitsOk;
    OccupyPipes(s, i, parent);
    OccupyWaits(s, i, parent);
  }
}

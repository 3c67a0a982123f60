/**
 What the calls of `kernel/sched.c` do, said on the task table and the rings before and after, and that the
 steps of the machine do just that.
 */
module Effects {
  import opened Bytes
  import opened Tasks
  import opened Pipes
  import opened Lifecycle

  // ----- waking -----

  /** Every task that waits for `p` may run again; no other task has changed. */
  ghost predicate Awake(ts: seq<Task>, ts': seq<Task>, p: int) {
    && |ts'| == |ts|
    && forall k | 0 <= k < |ts| ::
         if ts[k].state == InPipe && ts[k].pipeWait == p then ts'[k] == ts[k].(state := Ready, pipeWait := -1) else ts'[k] == ts[k]
  }

  lemma WakeAwakes(ts: seq<Task>, p: int)
    ensures Awake(ts, WakeWaiters(ts, p), p)
  {
  }

  // ----- reading -----

  /** Byte `j` of what a ring holds, the oldest first. */
  function RingByte(q: Pipe, j: nat): Byte
    requires |q.data| == PIPE_CAP
  {
    q.data[(q.head + j) % PIPE_CAP]
  }

  /** The first `n` bytes have left the ring and the others are there still, in order. */
  ghost predicate TookFront(q: Pipe, q': Pipe, n: nat, got: seq<Byte>) {
    && |q.data| == |q'.data| == PIPE_CAP && n <= q.len && q'.len == q.len - n && |got| == n
    && (forall j | 0 <= j < n :: got[j] == RingByte(q, j))
    && (forall j | 0 <= j < q.len - n :: RingByte(q', j) == RingByte(q, n + j))
    && q'.used == q.used && q'.rrefs == q.rrefs && q'.wrefs == q.wrefs
  }

  ghost predicate OtherPipes(s: State, s': State, p: nat) {
    |s'.pipes| == |s.pipes| == PIPE_MAX && forall k | 0 <= k < PIPE_MAX && k != p :: s'.pipes[k] == s.pipes[k]
  }

  /** Slot `i` stopped in a call on descriptor `fd`, and nothing else happened. */
  ghost predicate Stopped(s: State, s': State, i: nat, fd: nat, write: bool) {
    && s'.pipes == s.pipes && |s'.tasks| == |s.tasks| == TASK_MAX && i < TASK_MAX && |s.tasks[i].fds| == FD_MAX && fd < FD_MAX
    && (forall k | 0 <= k < TASK_MAX && k != i :: s'.tasks[k] == s.tasks[k])
    && s'.tasks[i].state == InPipe && s'.tasks[i].pipeWait == s.tasks[i].fds[fd].pipe
    && s'.tasks[i].blockFd == fd && s'.tasks[i].blockWrite == write
    && s'.tasks[i].fds == s.tasks[i].fds && s'.tasks[i].parent == s.tasks[i].parent && s'.tasks[i].reaped == s.tasks[i].reaped
  }

  predicate IsOpenEnd(s: State, i: nat, fd: int, kind: Kind)
    requires Shape(s) && i < TASK_MAX
  {
    0 <= fd < FD_MAX && s.tasks[i].fds[fd].kind == kind && 0 <= s.tasks[i].fds[fd].pipe < PIPE_MAX
  }

  /** A read that would have to wait: an empty ring with a writer. */
  predicate MustWaitToRead(s: State, i: nat, fd: int, n: nat)
    requires Shape(s) && i < TASK_MAX
  {
    n > 0 && IsOpenEnd(s, i, fd, PipeR) && s.pipes[s.tasks[i].fds[fd].pipe].len == 0 && s.pipes[s.tasks[i].fds[fd].pipe].wrefs > 0
  }

  /**
   Reading `n` bytes: nothing for 0; -1 unless the descriptor is a reading end; as many bytes as asked for and held,
   from the front of the ring; 0 from an empty ring without a writer.
   */
  ghost predicate ReadDoes(s: State, s': State, i: nat, fd: int, n: nat, rc: int, got: seq<Byte>)
    requires Shape(s) && i < TASK_MAX
  {
    if n == 0 then rc == 0 && got == [] && s' == s
    else if !IsOpenEnd(s, i, fd, PipeR) then rc == -1 && s' == s
    else
      var p := s.tasks[i].fds[fd].pipe;
      var q := s.pipes[p];
      if q.len > 0 then
        && rc == (if n < q.len then n else q.len) && OtherPipes(s, s', p)
        && TookFront(q, s'.pipes[p], rc, got) && Awake(s.tasks, s'.tasks, p)
      else if q.wrefs > 0 then rc == -2 && Stopped(s, s', i, fd, false)
      else rc == 0 && got == [] && s' == s
  }

  lemma ReadPipeDoes(s: State, i: nat, fd: int, n: nat)
    requires Inv(s) && i < TASK_MAX
    ensures var r := ReadPipe(s, i, fd, n);
      && (r.0.Blocked? <==> MustWaitToRead(s, i, fd, n))
      && ReadDoes(s, r.1, i, fd, n, match r.0 case Done(k, _) => k case Refused => -1 case Blocked => -2, if r.0.Done? then r.0.bytes else [])
  {
    hide WaitsOk, WakeWaiters;
    if n > 0 && IsOpenEnd(s, i, fd, PipeR) {
      var p := s.tasks[i].fds[fd].pipe;
      var q := s.pipes[p];
      RingIsOpen(s, i, fd);
      if q.len > 0 {
        var k := if n < q.len then n else q.len;
        ConsumedTakes(q, k);
        WakeAwakes(s.tasks, p);
      }
    }
  }

  /** The pipe of an open end is in use and has its ring. */
  lemma RingIsOpen(s: State, i: nat, fd: nat)
    requires Inv(s) && i < TASK_MAX && fd < FD_MAX && IsPipe(s.tasks[i].fds[fd])
    ensures 0 <= s.tasks[i].fds[fd].pipe < PIPE_MAX && Open(s, s.tasks[i].fds[fd].pipe) && RingOk(s.pipes[s.tasks[i].fds[fd].pipe])
  {
    EndMeansUsed(s, i, fd);
    assert RingOk(s.pipes[s.tasks[i].fds[fd].pipe]);
  }

  lemma ConsumedTakes(q: Pipe, n: nat)
    requires RingOk(q) && n <= q.len
    ensures TookFront(q, Consumed(q, n), n, Held(q)[..n])
  {
    hide RingByte, Held;
    var q' := Consumed(q, n);
    HeldIs(q);
    forall j | 0 <= j < q.len - n ensures RingByte(q', j) == RingByte(q, n + j) {
      ConsumedByte(q, n, j);
    }
  }

  lemma HeldIs(q: Pipe)
    requires |q.data| == PIPE_CAP
    ensures |Held(q)| == q.len && forall j | 0 <= j < q.len :: Held(q)[j] == RingByte(q, j)
  {
  }

  lemma ConsumedByte(q: Pipe, n: nat, j: nat)
    requires |q.data| == PIPE_CAP && n <= q.len
    ensures RingByte(Consumed(q, n), j) == RingByte(q, n + j)
  {
    ModSum(q.head, n, j);
    assert q.head + n + j == q.head + (n + j);
  }

  // ----- writing -----

  /** What the ring held is there still, and behind it the bytes of `d`. */
  ghost predicate PutBehind(q: Pipe, q': Pipe, d: seq<Byte>) {
    && |q.data| == |q'.data| == PIPE_CAP && q'.len == q.len + |d| <= PIPE_CAP
    && (forall j | 0 <= j < q.len :: RingByte(q', j) == RingByte(q, j))
    && (forall j | 0 <= j < |d| :: RingByte(q', q.len + j) == d[j])
    && q'.used == q.used && q'.rrefs == q.rrefs && q'.wrefs == q.wrefs
  }

  /** A write that would have to wait: a full ring with a reader. */
  predicate MustWaitToWrite(s: State, i: nat, fd: int, d: seq<Byte>)
    requires Shape(s) && i < TASK_MAX
  {
    && d != [] && IsOpenEnd(s, i, fd, PipeW)
    && s.pipes[s.tasks[i].fds[fd].pipe].rrefs > 0 && s.pipes[s.tasks[i].fds[fd].pipe].len >= PIPE_CAP
  }

  /**
   Writing `d`: nothing for no bytes; -1 unless the descriptor is a writing end of a pipe with a reader; as many of
   the first bytes of `d` as there is room for, behind what the ring holds.
   */
  ghost predicate WriteDoes(s: State, s': State, i: nat, fd: int, d: seq<Byte>, rc: int)
    requires Shape(s) && i < TASK_MAX
  {
    if d == [] then rc == 0 && s' == s
    else if !IsOpenEnd(s, i, fd, PipeW) || s.pipes[s.tasks[i].fds[fd].pipe].rrefs == 0 then rc == -1 && s' == s
    else
      var p := s.tasks[i].fds[fd].pipe;
      var q := s.pipes[p];
      if q.len >= PIPE_CAP then rc == -2 && Stopped(s, s', i, fd, true)
      else
        && 0 <= rc <= |d| && rc == (if |d| < PIPE_CAP - q.len then |d| else PIPE_CAP - q.len) && OtherPipes(s, s', p)
        && PutBehind(q, s'.pipes[p], d[..rc]) && Awake(s.tasks, s'.tasks, p)
  }

  lemma WritePipeDoes(s: State, i: nat, fd: int, d: seq<Byte>)
    requires Inv(s) && i < TASK_MAX
    ensures var r := WritePipe(s, i, fd, d);
      && (r.0.Blocked? <==> MustWaitToWrite(s, i, fd, d))
      && WriteDoes(s, r.1, i, fd, d, match r.0 case Done(k, _) => k case Refused => -1 case Blocked => -2)
  {
    hide WaitsOk, WakeWaiters, RingPut;
    if d != [] && IsOpenEnd(s, i, fd, PipeW) {
      var p := s.tasks[i].fds[fd].pipe;
      var q := s.pipes[p];
      RingIsOpen(s, i, fd);
      if q.rrefs > 0 && q.len < PIPE_CAP {
        var k := if |d| < PIPE_CAP - q.len then |d| else PIPE_CAP - q.len;
        WrittenPuts(q, d[..k]);
        WakeAwakes(s.tasks, p);
      }
    }
  }

  lemma WrittenPuts(q: Pipe, d: seq<Byte>)
    requires RingOk(q) && q.len + |d| <= PIPE_CAP
    ensures PutBehind(q, Written(q, d), d)
  {
    hide RingPut, RingByte, Held;
    var q' := Written(q, d);
    forall j: nat | j < q.len + |d| ensures RingByte(q', j) == if j < q.len then RingByte(q, j) else d[j - q.len] {
      WrittenByte(q, d, j);
    }
    forall j | 0 <= j < |d| ensures RingByte(q', q.len + j) == d[j] {
      WrittenByte(q, d, q.len + j);
    }
  }

  lemma WrittenByte(q: Pipe, d: seq<Byte>, j: nat)
    requires RingOk(q) && j < q.len + |d| <= PIPE_CAP
    ensures RingByte(Written(q, d), j) == if j < q.len then RingByte(q, j) else d[j - q.len]
  {
    hide RingPut;
    WrittenAt(q, d, j);
  }

  // ----- waiting -----

  /** Slot `c` is a child of `i` whose code is still owed, and one that `want` asks for. */
  predicate Awaited(s: State, i: nat, want: int, c: nat)
    requires Shape(s)
  {
    c < TASK_MAX && s.tasks[c].parent == i && !s.tasks[c].reaped && (want == 0 || want == c)
  }

  /**
   `wait`: the code of the lowest dead child that is asked for, which is then collected; without one the caller waits
   if it has such a child at all, and gets -1 otherwise.
   */
  ghost predicate WaitDoes(s: State, s': State, i: nat, want: int, rc: int)
    requires Shape(s) && i < TASK_MAX
  {
    if want < 0 || (forall c: nat :: !Awaited(s, i, want, c)) then rc == -1 && s' == s
    else if exists c: nat :: Awaited(s, i, want, c) && s.tasks[c].state == Dead then
      exists c: nat ::
        && Awaited(s, i, want, c) && s.tasks[c].state == Dead && rc == s.tasks[c].exitCode
        && (forall b: nat | b < c :: !(Awaited(s, i, want, b) && s.tasks[b].state == Dead))
        && s' == s.(tasks := s.tasks[c := s.tasks[c].(reaped := true)], collected := s.collected + [Receipt((c, s.tasks[c].gen), rc)])
    else rc == -2 && s' == s.(tasks := s.tasks[i := s.tasks[i].(state := InWait, waitPid := want)])
  }

  lemma WaitForDoes(s: State, i: nat, want: int)
    requires Inv(s) && i < TASK_MAX
    ensures var r := WaitFor(s, i, want);
      WaitDoes(s, r.1, i, want, match r.0 case Done(k, _) => k case Refused => -1 case Blocked => -2)
  {
    hide PipesOk, WaitsOk;
    forall c: nat ensures Awaited(s, i, want, c) <==> ChildOf(s.tasks, i, c) && Matches(want, c) {
    }
    var z := FirstZombie(s.tasks, i, want, 0);
    if want >= 0 && z < TASK_MAX {
      assert Awaited(s, i, want, z) && s.tasks[z].state == Dead;
    }
  }

  // ----- a new pipe -----

  /** Entries `r` and `w` of slot `i` are the two ends of the empty pipe `p`; nothing else changed. */
  ghost predicate PipeDoes(s: State, s': State, i: nat, p: nat, r: nat, w: nat) {
    && |s.tasks| == |s'.tasks| == TASK_MAX && i < TASK_MAX && |s.tasks[i].fds| == FD_MAX && r < FD_MAX && w < FD_MAX && p < PIPE_MAX
    && (forall k | 0 <= k < TASK_MAX && k != i :: s'.tasks[k] == s.tasks[k])
    && s'.tasks[i] == s.tasks[i].(fds := s.tasks[i].fds[r := Fd(PipeR, p, 0, "")][w := Fd(PipeW, p, 0, "")])
    && OtherPipes(s, s', p) && s'.pipes[p].used && s'.pipes[p].len == 0 && s'.pipes[p].rrefs == 1 && s'.pipes[p].wrefs == 1
  }

  lemma MakePipeDoes(s: State, i: nat, p: nat, r: nat, w: nat)
    requires Inv(s) && i < TASK_MAX && p < PIPE_MAX && !s.pipes[p].used && r < FD_MAX && w < FD_MAX && r != w
    requires s.tasks[i].state == Ready && s.tasks[i].fds[r].kind == Unused && s.tasks[i].fds[w].kind == Unused
    ensures PipeDoes(s, MakePipe(s, i, p, r, w), i, p, r, w)
  {
    hide PipesOk, WaitsOk;
  }

  // ----- closing -----

  /**
   Entry `j` of slot `i` is closed: one end fewer on its pipe, which is free once it has none, and whoever waits for
   the pipe looks again.
   */
  ghost predicate Closes(s: State, s': State, i: nat, j: nat)
    requires Shape(s) && i < TASK_MAX && j < FD_MAX
  {
    var e := s.tasks[i].fds[j];
    && |s'.tasks| == TASK_MAX && |s'.pipes| == PIPE_MAX
    && (forall k | 0 <= k < TASK_MAX ::
          var t := if IsPipe(e) && s.tasks[k].state == InPipe && s.tasks[k].pipeWait == e.pipe
                   then s.tasks[k].(state := Ready, pipeWait := -1) else s.tasks[k];
          s'.tasks[k] == if k == i then t.(fds := t.fds[j := NOFD]) else t)
    && (forall p | 0 <= p < PIPE_MAX ::
          var q, q' := s.pipes[p], s'.pipes[p];
          if IsPipe(e) && e.pipe == p then
            var r, w := q.rrefs - (if e.kind == PipeR then 1 else 0), q.wrefs - (if e.kind == PipeW then 1 else 0);
            if r == 0 && w == 0 then !q'.used else q'.rrefs == r && q'.wrefs == w && q' == q.(rrefs := q'.rrefs, wrefs := q'.wrefs)
          else q' == q)
  }

  lemma DropFdCloses(s: State, i: nat, j: nat)
    requires Inv(s) && i < TASK_MAX && j < FD_MAX
    ensures Closes(s, DropFd(s, i, j), i, j)
  {
    hide WaitsOk, Ends, IsEnd;
    var e := s.tasks[i].fds[j];
    UnusedIsBlank(s, i, j);
    if IsPipe(e) {
      RingIsOpen(s, i, j);
      EndIsCounted(s, i, j);
    }
  }

  lemma UnusedIsBlank(s: State, i: nat, j: nat)
    requires Inv(s) && i < TASK_MAX && j < FD_MAX
    ensures s.tasks[i].fds[j].kind == Unused ==> s.tasks[i].fds[j] == NOFD && s.tasks[i].fds == s.tasks[i].fds[j := NOFD]
  {
    hide WaitsOk, Reasons, RingOk, InUseOk, CountOk;
    assert FdOk(s.tasks[i].fds[j]);
  }

  lemma EndIsCounted(s: State, i: nat, j: nat)
    requires Inv(s) && i < TASK_MAX && j < FD_MAX && IsPipe(s.tasks[i].fds[j])
    ensures var e := s.tasks[i].fds[j];
      && 0 <= e.pipe < PIPE_MAX
      && (e.kind == PipeR ==> s.pipes[e.pipe].rrefs > 0) && (e.kind == PipeW ==> s.pipes[e.pipe].wrefs > 0)
  {
    hide WaitsOk, Reasons, RingOk, InUseOk;
    var e := s.tasks[i].fds[j];
    EndMeansUsed(s, i, j);
    assert CountOk(s.tasks, s.pipes, e.pipe);
    EndIff(s.tasks, e.kind, e.pipe, i, j);
  }

  // ----- death -----

  /**
   A live task dies: its code is kept, it has no descriptor, and a parent that waits for it runs on with the code.
   Nobody else changes, but that tasks waiting for its pipes look again.
   */
  ghost predicate KillDoes(s: State, s': State, i: nat, code: nat)
    requires Shape(s) && i < TASK_MAX
  {
    if s.tasks[i].state == Dead then s' == s
    else
      var p := s.tasks[i].parent;
      var told := 0 <= p < TASK_MAX && p != i && s.tasks[p].state == InWait && (s.tasks[p].waitPid == 0 || s.tasks[p].waitPid == i);
      && |s'.tasks| == TASK_MAX
      && s'.tasks[i].state == Dead && s'.tasks[i].exitCode == code && s'.tasks[i].reaped == told && s'.tasks[i].parent == p
      && (forall j | 0 <= j < FD_MAX :: |s'.tasks[i].fds| == FD_MAX && s'.tasks[i].fds[j] == NOFD)
      && (told ==> s'.tasks[p].state == Ready && s'.tasks[p].rax == code && s'.tasks[p].waitPid == 0 && s'.tasks[p].fds == s.tasks[p].fds)
      && (forall k | 0 <= k < TASK_MAX && k != i && !(told && k == p) ::
            s'.tasks[k] == s.tasks[k] || (s.tasks[k].state == InPipe && s'.tasks[k] == s.tasks[k].(state := Ready, pipeWait := -1)))
  }

  lemma {:induction false} ClearedOthers(s: State, i: nat, n: nat, k: nat)
    requires Shape(s) && i < TASK_MAX && n <= FD_MAX && k < TASK_MAX
    ensures var t, t' := s.tasks[k], ClearFds(s, i, n).tasks[k];
      t'.(fds := t.fds) == t || (t.state == InPipe && t'.(fds := t.fds) == t.(state := Ready, pipeWait := -1))
    ensures k != i ==> ClearFds(s, i, n).tasks[k].fds == s.tasks[k].fds
    ensures k == i ==> forall j | 0 <= j < n :: ClearFds(s, i, n).tasks[i].fds[j].kind == Unused
  {
    hide DropFd;
    if n > 0 {
      ClearedOthers(s, i, n - 1, k);
      DroppedOthers(ClearFds(s, i, n - 1), i, n - 1, k);
    }
  }

  lemma DroppedOthers(s: State, i: nat, j: nat, k: nat)
    requires Shape(s) && i < TASK_MAX && j < FD_MAX && k < TASK_MAX
    ensures var t, t' := s.tasks[k], DropFd(s, i, j).tasks[k];
      && (t'.(fds := t.fds) == t || (t.state == InPipe && t'.(fds := t.fds) == t.(state := Ready, pipeWait := -1)))
      && (k != i ==> t'.fds == t.fds) && (k == i ==> t'.fds == t.fds || t'.fds == t.fds[j := NOFD]) && (k == i ==> t'.fds[j].kind == Unused)
  {
  }

  lemma KillKills(s: State, i: nat, code: nat)
    requires Inv(s) && i < TASK_MAX
    ensures KillDoes(s, Kill(s, i, code), i, code)
  {
    hide PipesOk, WaitsOk, ClearFds;
    if s.tasks[i].state != Dead {
      var t := ClearFds(s, i, FD_MAX);
      ClearFdsKeeps(s, i, FD_MAX);
      ClearedOthers(s, i, FD_MAX, i);
      forall j | 0 <= j < FD_MAX ensures t.tasks[i].fds[j] == NOFD {
        UnusedIsBlank(t, i, j);
      }
      forall k | 0 <= k < TASK_MAX && k != i
        ensures t.tasks[k] == s.tasks[k] || (s.tasks[k].state == InPipe && t.tasks[k] == s.tasks[k].(state := Ready, pipeWait := -1))
      {
        ClearedOthers(s, i, FD_MAX, k);
      }
    }
  }

  // ----- birth -----

  /** A task with nothing to wait for and nobody to be told about. */
  ghost predicate NewTask(t: Task, t': Task, parent: int) {
    t'.state == Ready && t'.parent == parent && t'.waitPid == 0 && !t'.reaped && t'.rax == 0 && t'.pipeWait == -1 && t'.gen == t.gen + 1
  }

  /** The slot has a task with the console on 0, 1 and 2 and no other descriptor; nothing else changed. */
  ghost predicate SpawnDoes(s: State, s': State, i: nat)
    requires Shape(s) && i < TASK_MAX
  {
    && s'.pipes == s.pipes && |s'.tasks| == TASK_MAX && NewTask(s.tasks[i], s'.tasks[i], -1)
    && (forall k | 0 <= k < TASK_MAX && k != i :: s'.tasks[k] == s.tasks[k])
    && |s'.tasks[i].fds| == FD_MAX && s'.tasks[i].fds[0].kind == ConsoleR && s'.tasks[i].fds[1].kind == ConsoleW && s'.tasks[i].fds[2].kind == ConsoleW
    && (forall j | 3 <= j < FD_MAX :: s'.tasks[i].fds[j].kind == Unused)
  }

  lemma SpawnSpawns(s: State, i: nat)
    requires Inv(s) && i < TASK_MAX && Reusable(s.tasks[i])
    ensures SpawnDoes(s, Spawn(s, i), i)
  {
    hide PipesOk, WaitsOk;
  }

  /** The slot has a child of `cur` with its descriptors; no other slot changed. */
  ghost predicate ForkDoes(s: State, s': State, cur: nat, i: nat)
    requires Shape(s) && cur < TASK_MAX && i < TASK_MAX
  {
    && |s'.tasks| == TASK_MAX && NewTask(s.tasks[i], s'.tasks[i], cur) && s'.tasks[i].fds == s.tasks[cur].fds
    && (forall k | 0 <= k < TASK_MAX && k != i :: s'.tasks[k] == s.tasks[k])
  }

  lemma {:induction false} InheritedRest(s: State, dst: nat, src: nat, n: nat)
    requires Shape(s) && dst < TASK_MAX && src < TASK_MAX && n <= FD_MAX
    ensures InheritFds(s, dst, src, n).tasks[dst].(fds := []) == s.tasks[dst].(fds := [])
  {
    hide OpenFd, CanOpen;
    if n > 0 {
      InheritedRest(s, dst, src, n - 1);
      var t := InheritFds(s, dst, src, n - 1);
      if CanOpen(t, dst, n - 1, t.tasks[src].fds[n - 1]) {
        OpenedRest(t, dst, n - 1, t.tasks[src].fds[n - 1]);
      }
    }
  }

  lemma OpenedRest(s: State, i: nat, j: nat, e: Fd)
    requires CanOpen(s, i, j, e)
    ensures i < |OpenFd(s, i, j, e).tasks| && OpenFd(s, i, j, e).tasks[i].(fds := []) == s.tasks[i].(fds := [])
  {
  }

  lemma ForkForks(s: State, cur: nat, i: nat)
    requires Inv(s) && cur < TASK_MAX && i < TASK_MAX && s.tasks[cur].state == Ready && Reusable(s.tasks[i])
    ensures ForkDoes(s, Fork(s, cur, i), cur, i)
  {
    hide PipesOk, WaitsOk, InheritFds;
    ForkKeeps(s, cur, i);
    InheritedRest(Occupy(s, i, cur), i, cur, FD_MAX);
  }
}

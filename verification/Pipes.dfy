/**
 Pipes of `kernel/sched.c`: creation, binding, ring reads and writes, and blocking.
 */
module Pipes {
  import opened Bytes
  import opened Tasks

  // ----- creation -----

  const NEWPIPE: Pipe := NOPIPE.(used := true)

  /** `alloc_pipe` on a slot that is not in use: an empty ring without ends. */
  function NewPipe(s: State, p: nat): (s': State)
    requires Shape(s) && p < PIPE_MAX
    ensures Shape(s')
  {
    s.(pipes := s.pipes[p := NEWPIPE], unbound := s.unbound + {p})
  }

  lemma NewPipeKeeps(s: State, p: nat)
    requires Inv(s) && p < PIPE_MAX && !s.pipes[p].used
    ensures Inv(NewPipe(s, p))
  {
    hide Ends, IsEnd, WaitsOk;
    var s' := NewPipe(s, p);
    assert CountOk(s.tasks, s.pipes, p);
    forall q | 0 <= q < PIPE_MAX ensures CountOk(s'.tasks, s'.pipes, q) && InUseOk(s', q) && RingOk(s'.pipes[q]) {
      assert CountOk(s.tasks, s.pipes, q) && InUseOk(s, q) && RingOk(s.pipes[q]);
    }
    forall k | 0 <= k < TASK_MAX ensures DeadClosed(s'.tasks[k]) && (s'.tasks[k].state == InPipe ==> Reason(s'.tasks[k], s'.pipes)) {
      assert DeadClosed(s.tasks[k]) && (s.tasks[k].state == InPipe ==> Reason(s.tasks[k], s.pipes));
    }
    WaitsKept(s, s');
  }

  /** `sched_pipe_unused`: frees a pipe that has no ends. */
  function PipeUnused(s: State, p: int): (s': State)
    requires Shape(s)
    ensures Shape(s')
  {
    if 0 <= p < PIPE_MAX && s.pipes[p].used && s.pipes[p].rrefs == 0 && s.pipes[p].wrefs == 0 then
      s.(pipes := s.pipes[p := NOPIPE], unbound := s.unbound - {p})
    else s
  }

  lemma PipeUnusedKeeps(s: State, p: int)
    requires Inv(s)
    ensures Inv(PipeUnused(s, p))
  {
    hide Ends, IsEnd, WaitsOk;
    var s' := PipeUnused(s, p);
    if s' != s {
      assert CountOk(s.tasks, s.pipes, p);
      forall q | 0 <= q < PIPE_MAX ensures CountOk(s'.tasks, s'.pipes, q) && InUseOk(s', q) && RingOk(s'.pipes[q]) {
        assert CountOk(s.tasks, s.pipes, q) && InUseOk(s, q) && RingOk(s.pipes[q]);
      }
      forall k | 0 <= k < TASK_MAX ensures DeadClosed(s'.tasks[k]) && (s'.tasks[k].state == InPipe ==> Reason(s'.tasks[k], s'.pipes)) {
        assert DeadClosed(s.tasks[k]) && (s.tasks[k].state == InPipe ==> Reason(s.tasks[k], s.pipes));
      }
      WaitsKept(s, s');
    }
  }

  /** `sched_pipe`: the two ends of a new pipe in the entries `r` and `w` of task `i`. */
  function MakePipe(s: State, i: nat, p: nat, r: nat, w: nat): (s': State)
    requires Shape(s) && i < TASK_MAX && p < PIPE_MAX && r < FD_MAX && w < FD_MAX && r != w
    requires s.tasks[i].state == Ready && s.tasks[i].fds[r].kind == Unused && s.tasks[i].fds[w].kind == Unused
  {
    OpenFd(OpenFd(NewPipe(s, p), i, r, Fd(PipeR, p, 0, "")), i, w, Fd(PipeW, p, 0, ""))
  }

  lemma MakePipeKeeps(s: State, i: nat, p: nat, r: nat, w: nat)
    requires Inv(s) && i < TASK_MAX && p < PIPE_MAX && !s.pipes[p].used && r < FD_MAX && w < FD_MAX && r != w
    requires s.tasks[i].state == Ready && s.tasks[i].fds[r].kind == Unused && s.tasks[i].fds[w].kind == Unused
    ensures Inv(MakePipe(s, i, p, r, w))
    ensures MakePipe(s, i, p, r, w).pipes[p].rrefs == 1 && MakePipe(s, i, p, r, w).pipes[p].wrefs == 1
    ensures MakePipe(s, i, p, r, w).tasks
         == s.tasks[i := s.tasks[i].(fds := s.tasks[i].fds[r := Fd(PipeR, p, 0, "")][w := Fd(PipeW, p, 0, "")])]
  {
    hide Ends, IsEnd, WaitsOk, CountsExact, Reasons, InUseOk, RingOk, DeadClosed;
    NewPipeKeeps(s, p);
    var t := NewPipe(s, p);
    OpenFdKeeps(t, i, r, Fd(PipeR, p, 0, ""));
    OpenFdKeeps(OpenFd(t, i, r, Fd(PipeR, p, 0, "")), i, w, Fd(PipeW, p, 0, ""));
  }

  /**
   `sched_fd_bind_pipe` on a live task: what the entry held is closed, then it becomes an end of
   `p`.  The source checks that `p` is in use before it closes the entry, not after.
   */
  function BindPipe(s: State, i: nat, fd: nat, kind: Kind, p: nat): (s': State)
    requires Shape(s) && i < TASK_MAX && fd < FD_MAX && p < PIPE_MAX
  {
    var t := DropFd(s, i, fd);
    t.(tasks := WithFd(t.tasks, i, fd, Fd(kind, p, 0, "")), pipes := t.pipes[p := EndOpened(t.pipes[p], kind)],
       unbound := t.unbound - {p})
  }

  /** The entry holds the only open end of `p`, so closing it frees `p`. */
  predicate LastEnd(s: State, i: nat, fd: nat, p: nat)
    requires Shape(s) && i < TASK_MAX && fd < FD_MAX && p < PIPE_MAX
  {
    IsPipe(s.tasks[i].fds[fd]) && s.tasks[i].fds[fd].pipe == p && s.pipes[p].rrefs + s.pipes[p].wrefs == 1
  }

  lemma LastEndFrees(s: State, i: nat, fd: nat, p: nat)
    requires PipesOk(s) && i < TASK_MAX && fd < FD_MAX && p < PIPE_MAX && s.pipes[p].used
    ensures DropFd(s, i, fd).pipes[p].used <==> !LastEnd(s, i, fd, p)
  {
    hide Ends, IsEnd, Reasons, RingOk, InUseOk;
    var e := s.tasks[i].fds[fd];
    if IsPipe(e) && e.pipe == p {
      assert CountOk(s.tasks, s.pipes, p);
      EndIff(s.tasks, e.kind, p, i, fd);
    }
  }

  /** Binding keeps the books exactly when the entry was not the last end of the same pipe. */
  lemma BindPipeKeeps(s: State, i: nat, fd: nat, kind: Kind, p: nat)
    requires Inv(s) && i < TASK_MAX && fd < FD_MAX && (kind == PipeR || kind == PipeW) && p < PIPE_MAX && s.pipes[p].used
    requires s.tasks[i].state != Dead
    ensures Inv(BindPipe(s, i, fd, kind, p)) <==> !LastEnd(s, i, fd, p)
    ensures BindPipe(s, i, fd, kind, p).tasks[i].fds == s.tasks[i].fds[fd := Fd(kind, p, 0, "")]
  {
    hide Ends, IsEnd, Reasons, RingOk, InUseOk, WaitsOk, DropFd;
    DropFdKeeps(s, i, fd);
    DropFdEffect(s, i, fd);
    LastEndFrees(s, i, fd, p);
    var t := DropFd(s, i, fd);
    if t.pipes[p].used {
      OpenFdKeeps(t, i, fd, Fd(kind, p, 0, ""));
    } else {
      assert !CountOk(BindPipe(s, i, fd, kind, p).tasks, BindPipe(s, i, fd, kind, p).pipes, p);
    }
  }

  // ----- rings -----

  /** The ring after the bytes `d` went in one by one from `tail` on. */
  function RingPut(data: seq<Byte>, tail: nat, d: seq<Byte>): (r: seq<Byte>)
    requires |data| == PIPE_CAP
    ensures |r| == PIPE_CAP
    decreases |d|
  {
    if d == [] then data
    else RingPut(data, tail, d[..|d| - 1])[(tail + |d| - 1) % PIPE_CAP := d[|d| - 1]]
  }

  lemma {:induction false} RingPutAt(data: seq<Byte>, tail: nat, d: seq<Byte>, k: nat)
    requires |data| == PIPE_CAP && |d| <= PIPE_CAP && k < PIPE_CAP
    ensures RingPut(data, tail, d)[(tail + k) % PIPE_CAP] == if k < |d| then d[k] else data[(tail + k) % PIPE_CAP]
    decreases |d|
  {
    if d != [] {
      RingPutAt(data, tail, d[..|d| - 1], k);
      if k != |d| - 1 {
        ModApart(tail, k, |d| - 1);
      }
    }
  }

  lemma ModApart(t: nat, a: nat, b: nat)
    requires a < PIPE_CAP && b < PIPE_CAP && a != b
    ensures (t + a) % PIPE_CAP != (t + b) % PIPE_CAP
  {
  }

  lemma ModSum(t: nat, a: nat, b: nat)
    ensures ((t + a) % PIPE_CAP + b) % PIPE_CAP == (t + a + b) % PIPE_CAP
  {
  }

  /** `sched_pipe_write` once there is room: the bytes join the end of the queue. */
  function Written(q: Pipe, d: seq<Byte>): (q': Pipe)
    requires |q.data| == PIPE_CAP
  {
    q.(data := RingPut(q.data, (q.head + q.len) % PIPE_CAP, d), len := q.len + |d|, wrote := q.wrote + d)
  }

  lemma WrittenAt(q: Pipe, d: seq<Byte>, i: nat)
    requires RingOk(q) && i < q.len + |d| <= PIPE_CAP
    ensures Written(q, d).data[(q.head + i) % PIPE_CAP]
         == if i < q.len then q.data[(q.head + i) % PIPE_CAP] else d[i - q.len]
  {
    hide RingPut, Held;
    var tail := (q.head + q.len) % PIPE_CAP;
    var k := if i < q.len then PIPE_CAP - q.len + i else i - q.len;
    RingPutAt(q.data, tail, d, k);
    ModSum(q.head, q.len, k);
    if i < q.len {
      ModWrap(q.head + i);
      assert q.head + q.len + k == q.head + i + PIPE_CAP;
    }
  }

  lemma ModWrap(x: nat)
    ensures (x + PIPE_CAP) % PIPE_CAP == x % PIPE_CAP
  {
  }

  lemma WrittenRing(q: Pipe, d: seq<Byte>)
    requires RingOk(q) && q.len + |d| <= PIPE_CAP
    ensures RingOk(Written(q, d)) && Held(Written(q, d)) == Held(q) + d
  {
    hide RingPut;
    var q' := Written(q, d);
    forall i | 0 <= i < q'.len ensures Held(q')[i] == (Held(q) + d)[i] {
      WrittenAt(q, d, i);
    }
    assert Held(q') == Held(q) + d;
    assert q.got + (Held(q) + d) == q.got + Held(q) + d;
  }

  /** `sched_pipe_read` of `n` bytes that are there: they leave the front of the queue. */
  function Consumed(q: Pipe, n: nat): (q': Pipe)
    requires |q.data| == PIPE_CAP && n <= q.len
  {
    q.(head := (q.head + n) % PIPE_CAP, len := q.len - n, got := q.got + Held(q)[..n])
  }

  lemma ConsumedRing(q: Pipe, n: nat)
    requires RingOk(q) && n <= q.len
    ensures RingOk(Consumed(q, n)) && Held(Consumed(q, n)) == Held(q)[n..]
  {
    var q' := Consumed(q, n);
    ConsumedHeld(q, n);
    assert q.got + Held(q)[..n] + Held(q)[n..] == q.got + Held(q) by {
      assert Held(q)[..n] + Held(q)[n..] == Held(q);
    }
  }

  lemma ConsumedHeld(q: Pipe, n: nat)
    requires |q.data| == PIPE_CAP && n <= q.len
    ensures Held(Consumed(q, n)) == Held(q)[n..]
  {
    var q' := Consumed(q, n);
    forall i | 0 <= i < q'.len ensures Held(q')[i] == Held(q)[n..][i] {
      ModSum(q.head, n, i);
      assert q.head + n + i == q.head + (n + i);
    }
  }

  // ----- system calls on a pipe -----

  function Min(a: nat, b: nat): nat {
    if a < b then a else b
  }

  /** The task gives up the processor until the pipe changes, and will repeat the call. */
  function BlockOn(s: State, i: nat, fd: nat, write: bool): (s': State)
    requires Shape(s) && i < TASK_MAX && fd < FD_MAX
    ensures Shape(s')
  {
    var t := s.tasks[i].(state := InPipe, pipeWait := s.tasks[i].fds[fd].pipe, blockFd := fd, blockWrite := write);
    s.(tasks := s.tasks[i := t])
  }

  /** The pipe changes and everyone who waits for it looks again. */
  function PipeMoved(s: State, p: nat, q: Pipe): (s': State)
    requires Shape(s) && p < PIPE_MAX
    ensures Shape(s')
  {
    s.(tasks := WakeWaiters(s.tasks, p), pipes := s.pipes[p := q])
  }

  /** The pipe exists, is in use and has its page. */
  predicate Open(s: State, p: int)
    requires Shape(s)
  {
    0 <= p < PIPE_MAX && s.pipes[p].used && |s.pipes[p].data| == PIPE_CAP
  }

  datatype Outcome = Done(count: nat, bytes: seq<Byte>) | Refused | Blocked

  /** Reading from a pipe end: bytes, end of file (0), refusal, or blocking. */
  function ReadPipe(s: State, i: nat, fd: int, n: nat): (r: (Outcome, State))
    requires Shape(s) && i < TASK_MAX
    ensures Shape(r.1)
  {
    if n == 0 then (Done(0, []), s)
    else if !(0 <= fd < FD_MAX) || s.tasks[i].fds[fd].kind != PipeR || !Open(s, s.tasks[i].fds[fd].pipe) then (Refused, s)
    else
      var p := s.tasks[i].fds[fd].pipe;
      var q := s.pipes[p];
      if q.len == 0 then
        if q.wrefs == 0 then (Done(0, []), s) else (Blocked, BlockOn(s, i, fd, false))
      else
        var k := Min(n, q.len);
        (Done(k, Held(q)[..k]), PipeMoved(s, p, Consumed(q, k)))
  }

  /** Writing to a pipe end: some of the bytes, refusal without readers, or blocking on a full ring. */
  function WritePipe(s: State, i: nat, fd: int, d: seq<Byte>): (r: (Outcome, State))
    requires Shape(s) && i < TASK_MAX
    ensures Shape(r.1)
  {
    if d == [] then (Done(0, []), s)
    else if !(0 <= fd < FD_MAX) || s.tasks[i].fds[fd].kind != PipeW || !Open(s, s.tasks[i].fds[fd].pipe) then (Refused, s)
    else
      var p := s.tasks[i].fds[fd].pipe;
      var q := s.pipes[p];
      if q.rrefs == 0 then (Refused, s)
      else if q.len >= PIPE_CAP then (Blocked, BlockOn(s, i, fd, true))
      else
        var k := Min(|d|, PIPE_CAP - q.len);
        (Done(k, d[..k]), PipeMoved(s, p, Written(q, d[..k])))
  }

  lemma BlockOnKeeps(s: State, i: nat, fd: nat, write: bool)
    requires Inv(s) && i < TASK_MAX && fd < FD_MAX && s.tasks[i].state == Ready
    requires Reason(BlockOn(s, i, fd, write).tasks[i], s.pipes)
    ensures Inv(BlockOn(s, i, fd, write))
  {
    hide Ends, IsEnd, WaitsOk;
    var s' := BlockOn(s, i, fd, write);
    forall p | 0 <= p < PIPE_MAX ensures CountOk(s'.tasks, s'.pipes, p) && InUseOk(s', p) && RingOk(s'.pipes[p]) {
      assert CountOk(s.tasks, s.pipes, p) && InUseOk(s, p) && RingOk(s.pipes[p]);
      SameFdsSameEnds(s.tasks, s'.tasks, PipeR, p);
      SameFdsSameEnds(s.tasks, s'.tasks, PipeW, p);
    }
    forall k | 0 <= k < TASK_MAX ensures DeadClosed(s'.tasks[k]) && (s'.tasks[k].state == InPipe ==> Reason(s'.tasks[k], s'.pipes)) {
      assert DeadClosed(s.tasks[k]) && (s.tasks[k].state == InPipe ==> Reason(s.tasks[k], s.pipes));
    }
    WaitsKept(s, s');
  }

  lemma PipeMovedKeeps(s: State, p: nat, q: Pipe)
    requires Inv(s) && p < PIPE_MAX && s.pipes[p].used && RingOk(q)
    requires q.used && q.rrefs == s.pipes[p].rrefs && q.wrefs == s.pipes[p].wrefs
    ensures Inv(PipeMoved(s, p, q))
  {
    hide Ends, IsEnd, WaitsOk;
    var s' := PipeMoved(s, p, q);
    forall x | 0 <= x < PIPE_MAX ensures CountOk(s'.tasks, s'.pipes, x) && InUseOk(s', x) && RingOk(s'.pipes[x]) {
      assert CountOk(s.tasks, s.pipes, x) && InUseOk(s, x) && RingOk(s.pipes[x]);
      SameFdsSameEnds(s.tasks, s'.tasks, PipeR, x);
      SameFdsSameEnds(s.tasks, s'.tasks, PipeW, x);
    }
    forall k | 0 <= k < TASK_MAX ensures DeadClosed(s'.tasks[k]) && (s'.tasks[k].state == InPipe ==> Reason(s'.tasks[k], s'.pipes)) {
      assert DeadClosed(s.tasks[k]) && (s.tasks[k].state == InPipe ==> Reason(s.tasks[k], s.pipes));
    }
    forall k | 0 <= k < TASK_MAX ensures SameToWait(s.tasks[k], s'.tasks[k]) {
    }
    WaitsKept(s, s');
  }

  lemma ReadPipeKeeps(s: State, i: nat, fd: int, n: nat)
    requires Inv(s) && i < TASK_MAX && s.tasks[i].state == Ready
    ensures Inv(ReadPipe(s, i, fd, n).1)
  {
    hide Ends, IsEnd, WaitsOk, CountOk, InUseOk, Reasons, DeadClosed;
    if n > 0 && 0 <= fd < FD_MAX && s.tasks[i].fds[fd].kind == PipeR {
      EndMeansUsed(s, i, fd);
      var p := s.tasks[i].fds[fd].pipe;
      var q := s.pipes[p];
      assert RingOk(q);
      if q.len == 0 {
        if q.wrefs != 0 {
          BlockOnKeeps(s, i, fd, false);
        }
      } else {
        ConsumedRing(q, Min(n, q.len));
        PipeMovedKeeps(s, p, Consumed(q, Min(n, q.len)));
      }
    }
  }

  lemma WritePipeKeeps(s: State, i: nat, fd: int, d: seq<Byte>)
    requires Inv(s) && i < TASK_MAX && s.tasks[i].state == Ready
    ensures Inv(WritePipe(s, i, fd, d).1)
  {
    hide Ends, IsEnd, WaitsOk, CountOk, InUseOk, Reasons, DeadClosed;
    if d != [] && 0 <= fd < FD_MAX && s.tasks[i].fds[fd].kind == PipeW {
      EndMeansUsed(s, i, fd);
      var p := s.tasks[i].fds[fd].pipe;
      var q := s.pipes[p];
      assert RingOk(q);
      if q.rrefs != 0 {
        if q.len >= PIPE_CAP {
          BlockOnKeeps(s, i, fd, true);
        } else {
          var k := Min(|d|, PIPE_CAP - q.len);
          WrittenRing(q, d[..k]);
          PipeMovedKeeps(s, p, Written(q, d[..k]));
        }
      }
    }
  }
}

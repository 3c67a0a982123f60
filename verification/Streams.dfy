/**
 What goes into a pipe comes out of it: the bytes that the calls of `kernel/sched.c` hand out and accept, over
 whole runs.
 */
module Streams {
  import opened Bytes
  import opened Tasks
  import opened Pipes
  import opened Lifecycle

  /** The descriptor is an end of `p`. */
  predicate EndOf(s: State, i: nat, fd: int, kind: Kind, p: nat)
    requires Shape(s) && i < TASK_MAX
  {
    0 <= fd < FD_MAX && s.tasks[i].fds[fd].kind == kind && s.tasks[i].fds[fd].pipe == p
  }

  function BytesOf(o: Outcome): seq<Byte> {
    if o.Done? then o.bytes else []
  }

  /** The bytes of `p` that this event hands to a reader. */
  function HandedOn(s: State, e: Event, p: nat): seq<Byte>
    requires Enabled(s, e)
  {
    match e
    case DoRead(i, fd, n) => if EndOf(s, i, fd, PipeR, p) then BytesOf(ReadPipe(s, i, fd, n).0) else []
    case _ => []
  }

  /** The bytes that this event takes from a writer to `p`: as many of the first ones of its buffer as the call returns. */
  function TakenIn(s: State, e: Event, p: nat): seq<Byte>
    requires Enabled(s, e)
  {
    match e
    case DoWrite(i, fd, d) =>
      var o := WritePipe(s, i, fd, d).0;
      if EndOf(s, i, fd, PipeW, p) && o.Done? && o.count <= |d| then d[..o.count] else []
    case _ => []
  }

  /** A pipe that is still in use has seen the same traffic. */
  predicate SameTraffic(q: Pipe, q': Pipe) {
    q'.used ==> q.used && q'.got == q.got && q'.wrote == q.wrote
  }

  lemma DropTraffic(s: State, i: nat, j: nat, p: nat)
    requires Shape(s) && i < TASK_MAX && j < FD_MAX && p < PIPE_MAX
    ensures SameTraffic(s.pipes[p], DropFd(s, i, j).pipes[p])
  {
  }

  lemma {:induction false} ClearTraffic(s: State, i: nat, n: nat, p: nat)
    requires Shape(s) && i < TASK_MAX && n <= FD_MAX && p < PIPE_MAX
    ensures SameTraffic(s.pipes[p], ClearFds(s, i, n).pipes[p])
  {
    hide DropFd;
    if n > 0 {
      ClearTraffic(s, i, n - 1, p);
      DropTraffic(ClearFds(s, i, n - 1), i, n - 1, p);
    }
  }

  lemma {:induction false} InheritTraffic(s: State, dst: nat, src: nat, n: nat, p: nat)
    requires Shape(s) && dst < TASK_MAX && src < TASK_MAX && n <= FD_MAX && p < PIPE_MAX
    ensures SameTraffic(s.pipes[p], InheritFds(s, dst, src, n).pipes[p])
  {
    if n > 0 {
      InheritTraffic(s, dst, src, n - 1, p);
    }
  }

  lemma KillTraffic(s: State, i: nat, code: nat, p: nat)
    requires Shape(s) && i < TASK_MAX && p < PIPE_MAX
    ensures SameTraffic(s.pipes[p], Kill(s, i, code).pipes[p])
  {
    hide ClearFds;
    ClearTraffic(s, i, FD_MAX, p);
  }

  lemma DupTraffic(s: State, i: nat, oldfd: int, newfd: int, p: nat)
    requires Shape(s) && i < TASK_MAX && p < PIPE_MAX
    ensures SameTraffic(s.pipes[p], Dup2(s, i, oldfd, newfd).1.pipes[p])
  {
    hide DropFd;
    if 0 <= newfd < FD_MAX {
      DropTraffic(s, i, newfd, p);
    }
  }

  /** No other event touches what a pipe has carried. */
  lemma OtherTraffic(s: State, e: Event, p: nat)
    requires Enabled(s, e) && p < PIPE_MAX && s.pipes[p].used && !e.DoRead? && !e.DoWrite?
    ensures SameTraffic(s.pipes[p], Step(s, e).pipes[p])
  {
    hide DropFd, Kill, InheritFds, Dup2, NoFds, FirstZombie, HasChild;
    match e
    case DoFork(i, child) => InheritTraffic(Occupy(s, child, i), child, i, FD_MAX, p);
    case DoClose(i, fd) => DropTraffic(s, i, fd, p);
    case DoDup2(i, oldfd, newfd) => DupTraffic(s, i, oldfd, newfd, p);
    case DoBind(i, fd, _, _) => DropTraffic(s, i, fd, p);
    case DoBindFile(i, fd, _, _) => DropTraffic(s, i, fd, p);
    case DoKill(i, code) => KillTraffic(s, i, code, p);
    case _ =>
  }

  /** Each event adds to the records of a pipe what it hands out and takes in. */
  lemma StepTraffic(s: State, e: Event, p: nat)
    requires Enabled(s, e) && p < PIPE_MAX && s.pipes[p].used && Step(s, e).pipes[p].used
    ensures Step(s, e).pipes[p].got == s.pipes[p].got + HandedOn(s, e, p)
    ensures Step(s, e).pipes[p].wrote == s.pipes[p].wrote + TakenIn(s, e, p)
  {
    hide Held, RingPut;
    if !e.DoRead? && !e.DoWrite? {
      OtherTraffic(s, e, p);
    }
  }

  /** The pipe is in use in every state of the run. */
  predicate Lives(s: State, es: seq<Event>, t: State, p: nat)
    requires Reaches(s, es, t) && p < PIPE_MAX && |s.pipes| == PIPE_MAX
    decreases |es|
  {
    s.pipes[p].used && (es == [] || Lives(Step(s, es[0]), es[1..], t, p))
  }

  /** All that the reads of a run return from `p`, in order. */
  function ReadOn(s: State, es: seq<Event>, t: State, p: nat): seq<Byte>
    requires Reaches(s, es, t)
    decreases |es|
  {
    if es == [] then [] else HandedOn(s, es[0], p) + ReadOn(Step(s, es[0]), es[1..], t, p)
  }

  /** All that the writes of a run to `p` accept, in order. */
  function WrittenOn(s: State, es: seq<Event>, t: State, p: nat): seq<Byte>
    requires Reaches(s, es, t)
    decreases |es|
  {
    if es == [] then [] else TakenIn(s, es[0], p) + WrittenOn(Step(s, es[0]), es[1..], t, p)
  }

  lemma {:induction false} RunTraffic(s: State, es: seq<Event>, t: State, p: nat)
    requires Inv(s) && Reaches(s, es, t) && p < PIPE_MAX && Lives(s, es, t, p)
    ensures Inv(t) && t.pipes[p].got == s.pipes[p].got + ReadOn(s, es, t, p)
    ensures t.pipes[p].wrote == s.pipes[p].wrote + WrittenOn(s, es, t, p)
    decreases |es|
  {
    hide PipesOk, WaitsOk, Step, Enabled, HandedOn, TakenIn;
    if es != [] {
      StepKeeps(s, es[0]);
      StepTraffic(s, es[0], p);
      RunTraffic(Step(s, es[0]), es[1..], t, p);
    }
  }

  /** The event makes pipe `p`. */
  predicate Makes(e: Event, p: nat) {
    (e.DoPipe? || e.DoPipeNew?) && e.p == p
  }

  lemma MadeEmpty(s: State, e: Event, p: nat)
    requires Enabled(s, e) && Makes(e, p)
    ensures p < PIPE_MAX && Step(s, e).pipes[p].used && Step(s, e).pipes[p].got == [] && Step(s, e).pipes[p].wrote == []
  {
  }

  /**
   First in, first out: over any run from boot, after the event that makes a pipe and as long as it is in use, what
   its readers got, followed by what it holds, is what its writers gave.  Nothing is lost, doubled or reordered.
   */
  lemma FirstInFirstOut(es0: seq<Event>, s: State, e: Event, es: seq<Event>, t: State, p: nat)
    requires Reaches(Boot(), es0, s) && Enabled(s, e) && Makes(e, p) && p < PIPE_MAX
    requires Reaches(Step(s, e), es, t) && Lives(Step(s, e), es, t, p)
    ensures |t.pipes| == PIPE_MAX && |t.pipes[p].data| == PIPE_CAP
    ensures ReadOn(Step(s, e), es, t, p) + Held(t.pipes[p]) == WrittenOn(Step(s, e), es, t, p)
    ensures ReadOn(Step(s, e), es, t, p) <= WrittenOn(Step(s, e), es, t, p)
  {
    hide WaitsOk, Step, Enabled, Reaches, Boot, Lives, Held, PipesOk, ReadOn, WrittenOn;
    BootInv();
    EveryRunKeeps(Boot(), es0, s);
    StepKeeps(s, e);
    MadeEmpty(s, e, p);
    RunTraffic(Step(s, e), es, t, p);
    RingHolds(t, p);
    var q := t.pipes[p];
    assert q.got == [] + ReadOn(Step(s, e), es, t, p) == ReadOn(Step(s, e), es, t, p);
    assert q.wrote == [] + WrittenOn(Step(s, e), es, t, p) == WrittenOn(Step(s, e), es, t, p);
  }

  lemma RingHolds(s: State, p: nat)
    requires Inv(s) && p < PIPE_MAX
    ensures |s.pipes[p].data| == PIPE_CAP && s.pipes[p].got + Held(s.pipes[p]) == s.pipes[p].wrote
  {
    assert RingOk(s.pipes[p]);
  }
}

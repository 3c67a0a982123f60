/**
 The pipeline builder of `user/sh.c` over the task machine.  Between two calls of the shell, stages plumb
 themselves and other tasks do whatever they do.
 */
module Pipelines {
  import opened Tasks
  import opened Pipes
  import opened Lifecycle
  import opened Tables
  import opened Streams

  /** A forked stage, the descriptors its `child_exec` was given, and how many of its six calls it has made. */
  datatype Kid = Kid(slot: nat, inFd: int, outFd: int, pr: int, pw: int, done: nat)

  const STEPS: nat := 6

  // ----- what the calls of a stage do to its table -----

  /** Call `j` of `child_exec`. */
  function TableStep(fds: seq<Fd>, k: Kid, j: nat): (t: seq<Fd>)
    ensures |t| == |fds|
  {
    match j
    case 0 => if k.inFd >= 0 then TableDup(fds, k.inFd, 0) else fds
    case 1 => if k.outFd >= 0 then TableDup(fds, k.outFd, 1) else fds
    case 2 => if k.inFd > 0 then TableClose(fds, k.inFd) else fds
    case 3 => if k.outFd >= 0 && k.outFd != 1 then TableClose(fds, k.outFd) else fds
    case 4 => if k.pr > 1 then TableClose(fds, k.pr) else fds
    case _ => if k.pw > 1 then TableClose(fds, k.pw) else fds
  }

  function Table(fds: seq<Fd>, k: Kid, j: nat): (t: seq<Fd>)
    ensures |t| == |fds|
  {
    if j == 0 then fds else TableStep(Table(fds, k, j - 1), k, j - 1)
  }

  ghost predicate Blank(base: seq<Fd>, fd: int) {
    0 <= fd < |base| && base[fd] == NOFD
  }

  /** Which descriptors a stage gets: an input unless it is first, both ends of a new pipe unless it is last. */
  ghost predicate KidShape(base: seq<Fd>, k: Kid) {
    && |base| == FD_MAX
    && (k.inFd == -1 || Blank(base, k.inFd))
    && (k.pr == -1 ==> k.pw == -1 && k.outFd == -1)
    && (k.pr != -1 ==> Blank(base, k.pr) && Blank(base, k.pw) && k.pr < k.pw && k.outFd == k.pw && k.inFd != k.pr && k.inFd != k.pw)
  }

  /** The table a stage is born with: the shell's, holding the input `pin` and the new pipe `pout`. */
  function Birth(base: seq<Fd>, k: Kid, pin: int, pout: int): (t: seq<Fd>)
    ensures |t| == |base|
  {
    var a := if 0 <= k.inFd < |base| then base[k.inFd := R(pin)] else base;
    if 0 <= k.pr < |base| && 0 <= k.pw < |base| then a[k.pr := R(pout)][k.pw := W(pout)] else a
  }

  /** From its first call to its last, a stage holds its input. */
  lemma {:induction false} HoldsInput(base: seq<Fd>, k: Kid, pin: int, pout: int, j: nat)
    requires KidShape(base, k) && j <= STEPS && k.inFd >= 0
    ensures Table(Birth(base, k, pin, pout), k, j)[if j == 0 then k.inFd else 0] == R(pin)
  {
    if j > 0 {
      HoldsInput(base, k, pin, pout, j - 1);
    }
  }

  lemma TableSteps(b: seq<Fd>, k: Kid)
    ensures Table(b, k, STEPS)
         == TableStep(TableStep(TableStep(TableStep(TableStep(TableStep(b, k, 0), k, 1), k, 2), k, 3), k, 4), k, 5)
  {
    assert Table(b, k, 1) == TableStep(b, k, 0);
    assert Table(b, k, 2) == TableStep(TableStep(b, k, 0), k, 1);
    assert Table(b, k, 4) == TableStep(TableStep(Table(b, k, 2), k, 2), k, 3);
    assert Table(b, k, 6) == TableStep(TableStep(Table(b, k, 4), k, 4), k, 5);
  }

  /** The table a stage should end with: the shell's, with its input on 0 and its output on 1. */
  function Wanted(base: seq<Fd>, k: Kid, pin: int, pout: int): seq<Fd>
    requires |base| == FD_MAX
  {
    base[0 := if k.inFd >= 0 then R(pin) else base[0]][1 := if k.pr >= 0 then W(pout) else base[1]]
  }

  /** With both standard descriptors open, every stage ends with the table it should have. */
  lemma PlumbedTable(base: seq<Fd>, k: Kid, pin: int, pout: int)
    requires KidShape(base, k) && base[0].kind != Unused && base[1].kind != Unused
    ensures Table(Birth(base, k, pin, pout), k, STEPS) == Wanted(base, k, pin, pout)
  {
    TableSteps(Birth(base, k, pin, pout), k);
  }

  /** Without descriptor 1, a first stage that writes and a last stage that reads are still right. */
  lemma PlumbedWithoutOutput(base: seq<Fd>, k: Kid, pin: int, pout: int)
    requires KidShape(base, k) && base[0].kind != Unused && base[1] == NOFD
    requires (k.inFd == -1 && k.pr == 1) || (k.inFd == 1 && k.pr == -1)
    ensures Table(Birth(base, k, pin, pout), k, STEPS) == Wanted(base, k, pin, pout)
  {
    TableSteps(Birth(base, k, pin, pout), k);
  }

  /** Without descriptor 1, a stage between two pipes closes its output as its old input. */
  lemma LosesOutput(base: seq<Fd>, k: Kid, pin: int, pout: int)
    requires KidShape(base, k) && base[0].kind != Unused && k.inFd == 1 && k.pr != -1
    ensures Table(Birth(base, k, pin, pout), k, STEPS)[1] == NOFD
  {
    TableSteps(Birth(base, k, pin, pout), k);
  }

  /** Without descriptor 0, a first stage that writes keeps the reading end of its own pipe. */
  lemma KeepsOwnInput(base: seq<Fd>, k: Kid, pin: int, pout: int)
    requires KidShape(base, k) && k.inFd == -1 && k.pr == 0
    ensures Table(Birth(base, k, pin, pout), k, STEPS)[0] == R(pout)
  {
    TableSteps(Birth(base, k, pin, pout), k);
  }

  // ----- what the calls do to the machine -----

  function Close(s: State, i: nat, fd: int): (s': State)
    requires Shape(s) && i < TASK_MAX
    ensures Shape(s')
  {
    if 0 <= fd < FD_MAX then DropFd(s, i, fd) else s
  }

  /** Only this table changes, and nobody stops. */
  ghost predicate Local(s: State, s': State, i: nat, fds: seq<Fd>) {
    && Shape(s) && Shape(s') && i < TASK_MAX
    && s'.tasks[i].fds == fds
    && (forall k | 0 <= k < TASK_MAX && k != i :: s'.tasks[k].fds == s.tasks[k].fds)
    && (forall k | 0 <= k < TASK_MAX && s.tasks[k].state == Ready :: s'.tasks[k].state == Ready)
    && (forall k | 0 <= k < TASK_MAX && s.tasks[k].state != Dead :: s'.tasks[k].state != Dead)
  }

  lemma CloseLocal(s: State, i: nat, fd: int)
    requires Inv(s) && i < TASK_MAX
    ensures Inv(Close(s, i, fd)) && Local(s, Close(s, i, fd), i, TableClose(s.tasks[i].fds, fd))
  {
    hide PipesOk, WaitsOk, DropFd;
    if 0 <= fd < FD_MAX {
      DropFdKeeps(s, i, fd);
      DropFdEffect(s, i, fd);
    }
  }

  lemma Dup2Local(s: State, i: nat, oldfd: int, newfd: int)
    requires Inv(s) && i < TASK_MAX && s.tasks[i].state == Ready
    ensures Inv(Dup2(s, i, oldfd, newfd).1)
    ensures Local(s, Dup2(s, i, oldfd, newfd).1, i, TableDup(s.tasks[i].fds, oldfd, newfd))
  {
    hide PipesOk, WaitsOk, Dup2;
    Dup2Keeps(s, i, oldfd, newfd);
    forall k | 0 <= k < TASK_MAX
      ensures s.tasks[k].state == Ready ==> Dup2(s, i, oldfd, newfd).1.tasks[k].state == Ready
      ensures s.tasks[k].state != Dead ==> Dup2(s, i, oldfd, newfd).1.tasks[k].state != Dead
    {
      if s.tasks[k].state == Ready {
        DupReady(s, i, oldfd, newfd, k);
      }
      if s.tasks[k].state != Dead {
        DupAlive(s, i, oldfd, newfd, k);
      }
    }
  }

  /** The next call of a stage's `child_exec`. */
  function KidStep(s: State, k: Kid): (s': State)
    requires Shape(s) && k.slot < TASK_MAX
    ensures Shape(s')
  {
    match k.done
    case 0 => if k.inFd >= 0 then Dup2(s, k.slot, k.inFd, 0).1 else s
    case 1 => if k.outFd >= 0 then Dup2(s, k.slot, k.outFd, 1).1 else s
    case 2 => if k.inFd > 0 then Close(s, k.slot, k.inFd) else s
    case 3 => if k.outFd >= 0 && k.outFd != 1 then Close(s, k.slot, k.outFd) else s
    case 4 => if k.pr > 1 then Close(s, k.slot, k.pr) else s
    case _ => if k.pw > 1 then Close(s, k.slot, k.pw) else s
  }

  lemma KidStepLocal(s: State, k: Kid)
    requires Inv(s) && k.slot < TASK_MAX && s.tasks[k.slot].state == Ready
    ensures Inv(KidStep(s, k)) && Local(s, KidStep(s, k), k.slot, TableStep(s.tasks[k.slot].fds, k, k.done))
  {
    hide PipesOk, WaitsOk, Dup2, Close;
    match k.done
    case 0 => Dup2Local(s, k.slot, k.inFd, 0);
    case 1 => Dup2Local(s, k.slot, k.outFd, 1);
    case 2 => CloseLocal(s, k.slot, k.inFd);
    case 3 => CloseLocal(s, k.slot, k.outFd);
    case 4 => CloseLocal(s, k.slot, k.pr);
    case _ => CloseLocal(s, k.slot, k.pw);
  }

  // ----- where the shell and its stages stand -----

  /** The shell runs and has this table; this much holds whatever anybody else does. */
  ghost predicate ShellOk(s: State, me: nat, shell: seq<Fd>) {
    Inv(s) && me < TASK_MAX && s.tasks[me].state == Ready && s.tasks[me].fds == shell
  }

  function PipeIn(made: seq<nat>, k: int): int {
    if 0 < k <= |made| then made[k - 1] else -1
  }

  function PipeOut(made: seq<nat>, k: int): int {
    if 0 <= k < |made| then made[k] else -1
  }

  ghost predicate KidOk(base: seq<Fd>, s: State, me: nat, kids: seq<Kid>, made: seq<nat>, k: nat)
    requires k < |kids|
  {
    var kid := kids[k];
    && Shape(s) && kid.slot < TASK_MAX && kid.slot != me && kid.done <= STEPS
    && s.tasks[kid.slot].state != Dead && (kid.done < STEPS ==> s.tasks[kid.slot].state == Ready)
    && KidShape(base, kid)
    && (kid.inFd >= 0 <==> k > 0) && (kid.pr >= 0 <==> k < |made|) && k <= |made|
    && (if k > 0 then kid.inFd == kids[k - 1].pr else kid.pr >= 0 ==> kid.pr == LowestUnused(base, 0))
    && s.tasks[kid.slot].fds == Table(Birth(base, kid, PipeIn(made, k), PipeOut(made, k)), kid, kid.done)
  }

  ghost predicate NoEnd(fds: seq<Fd>, p: int) {
    Without(fds, PipeR, p) && Without(fds, PipeW, p)
  }

  predicate IsKid(kids: seq<Kid>, x: int) {
    exists k | 0 <= k < |kids| :: kids[k].slot == x
  }

  /** Nobody but the shell and its stages has an end of `p`. */
  ghost predicate Ours(s: State, me: nat, kids: seq<Kid>, p: int) {
    forall x | 0 <= x < |s.tasks| && x != me && !IsKid(kids, x) :: NoEnd(s.tasks[x].fds, p)
  }

  /** Where the pipeline stands: `shell` is the shell's table, and every stage is where its own calls put it. */
  ghost predicate Building(base: seq<Fd>, s: State, me: nat, kids: seq<Kid>, made: seq<nat>, shell: seq<Fd>) {
    && ShellOk(s, me, shell) && |base| == FD_MAX
    && (forall k {:trigger KidOk(base, s, me, kids, made, k)} | 0 <= k < |kids| :: KidOk(base, s, me, kids, made, k))
    && (forall a, b | 0 <= a < b < |kids| :: kids[a].slot != kids[b].slot)
    && (forall m | 0 <= m < |made| :: made[m] < PIPE_MAX && NoEnd(base, made[m]) && Ours(s, me, kids, made[m]))
    && (forall a, b | 0 <= a < b < |made| :: made[a] != made[b])
  }

  /** The shell holds the reading end of a pipe until the stage that reads it is forked. */
  ghost predicate Anchored(kids: seq<Kid>, made: seq<nat>, shell: seq<Fd>) {
    forall m | 0 <= m < |made| && m + 1 >= |kids| :: R(made[m]) in shell
  }

  /** A pipe of the pipeline is in use: the stage that reads it holds its input, or the shell does. */
  lemma MadeInUse(base: seq<Fd>, s: State, me: nat, kids: seq<Kid>, made: seq<nat>, shell: seq<Fd>, m: nat)
    requires Building(base, s, me, kids, made, shell) && m < |made| && Anchored(kids, made, shell)
    ensures made[m] < PIPE_MAX && s.pipes[made[m]].used
  {
    hide PipesOk, WaitsOk, Ours, NoEnd, Table, Birth;
    if m + 1 < |kids| {
      var kid := kids[m + 1];
      assert KidOk(base, s, me, kids, made, m + 1);
      HoldsInput(base, kid, PipeIn(made, m + 1), PipeOut(made, m + 1), kid.done);
      var j := if kid.done == 0 then kid.inFd else 0;
      assert s.tasks[kid.slot].fds[j] == R(made[m]);
      EndMeansUsed(s, kid.slot, j);
    } else {
      var y :| 0 <= y < |shell| && shell[y] == R(made[m]);
      EndMeansUsed(s, me, y);
    }
  }

  // ----- moves of others -----

  lemma {:induction false} TableSame(fds: seq<Fd>, k: Kid, j: nat, n: nat)
    ensures Table(fds, k.(done := n), j) == Table(fds, k, j)
  {
    if j > 0 {
      TableSame(fds, k, j - 1, n);
    }
  }

  /** A stage makes its next call. */
  lemma KidMoves(base: seq<Fd>, s: State, me: nat, kids: seq<Kid>, made: seq<nat>, shell: seq<Fd>, k: nat)
    requires Building(base, s, me, kids, made, shell) && k < |kids| && kids[k].done < STEPS
    ensures kids[k].slot < TASK_MAX && kids[k].slot != me && s.tasks[kids[k].slot].state == Ready
    ensures Building(base, KidStep(s, kids[k]), me, kids[k := kids[k].(done := kids[k].done + 1)], made, shell)
  {
    hide PipesOk, WaitsOk, KidStep, NoEnd, TableStep, Birth, KidShape, LowestUnused;
    var kid := kids[k];
    var kids' := kids[k := kid.(done := kid.done + 1)];
    assert KidOk(base, s, me, kids, made, k);
    KidStepLocal(s, kid);
    var s' := KidStep(s, kid);
    forall x | 0 <= x < |kids| ensures KidOk(base, s', me, kids', made, x) {
      assert KidOk(base, s, me, kids, made, x);
      if x == k {
        KidAfter(base, kid, PipeIn(made, k), PipeOut(made, k));
      }
    }
    forall m | 0 <= m < |made| ensures Ours(s', me, kids', made[m]) {
      SameSlots(kids, k, kid.done + 1);
      assert IsKid(kids, kid.slot);
    }
  }

  lemma KidAfter(base: seq<Fd>, kid: Kid, pin: int, pout: int)
    requires KidShape(base, kid)
    ensures var kid' := kid.(done := kid.done + 1);
      KidShape(base, kid') && Table(Birth(base, kid', pin, pout), kid', kid'.done) == TableStep(Table(Birth(base, kid, pin, pout), kid, kid.done), kid, kid.done)
  {
    TableSame(Birth(base, kid, pin, pout), kid, kid.done, kid.done + 1);
  }

  lemma SameSlots(kids: seq<Kid>, k: nat, n: nat)
    requires k < |kids|
    ensures forall x :: IsKid(kids[k := kids[k].(done := n)], x) <==> IsKid(kids, x)
  {
    var kids' := kids[k := kids[k].(done := n)];
    forall x ensures IsKid(kids', x) <==> IsKid(kids, x) {
      assert forall i | 0 <= i < |kids| :: kids'[i].slot == kids[i].slot;
    }
  }

  /** Events that touch no descriptor table. */
  predicate TableNeutral(e: Event) {
    e.DoRead? || e.DoWrite? || e.DoWait? || e.DoDoze? || e.DoExec? || e.DoResume?
  }

  /**
   An event that leaves the pipeline alone: of a finished stage, anything that keeps its table; of anybody else,
   anything but binding one of the pipeline's pipes.
   */
  predicate Harmless(e: Event, kids: seq<Kid>, made: seq<nat>) {
    if IsKid(kids, Actor(e)) then TableNeutral(e) && forall k | 0 <= k < |kids| && kids[k].slot == Actor(e) :: kids[k].done == STEPS
    else !(e.DoBind? && e.p in made)
  }

  lemma OtherTables(s: State, e: Event, k: nat)
    requires Inv(s) && Enabled(s, e) && k < TASK_MAX && s.tasks[k].state != Dead && (Actor(e) != k || TableNeutral(e))
    ensures Step(s, e).tasks[k].fds == s.tasks[k].fds && Step(s, e).tasks[k].state != Dead
  {
    hide Inv, Step;
    StepTable(s, e, k);
    StepAlive(s, e, k);
  }

  lemma OtherMoves(base: seq<Fd>, s: State, me: nat, kids: seq<Kid>, made: seq<nat>, shell: seq<Fd>, e: Event)
    requires Building(base, s, me, kids, made, shell) && Anchored(kids, made, shell)
    requires Enabled(s, e) && Actor(e) != me && Harmless(e, kids, made)
    ensures Building(base, Step(s, e), me, kids, made, shell)
  {
    hide PipesOk, WaitsOk, NoEnd, Step, Table, Birth, KidShape, LowestUnused, Anchored;
    var s' := Step(s, e);
    StepKeeps(s, e);
    OtherTables(s, e, me);
    StepReady(s, e, me);
    forall k | 0 <= k < |kids| ensures KidOk(base, s', me, kids, made, k) {
      assert KidOk(base, s, me, kids, made, k);
      assert Actor(e) == kids[k].slot ==> IsKid(kids, Actor(e));
      OtherTables(s, e, kids[k].slot);
      if kids[k].done < STEPS {
        StepReady(s, e, kids[k].slot);
      }
    }
    forall m | 0 <= m < |made| ensures Ours(s', me, kids, made[m]) {
      MadeInUse(base, s, me, kids, made, shell, m);
      OursStays(s, e, me, kids, made, made[m]);
    }
  }

  lemma OursStays(s: State, e: Event, me: nat, kids: seq<Kid>, made: seq<nat>, p: nat)
    requires Inv(s) && Enabled(s, e) && Actor(e) != me && Harmless(e, kids, made) && p in made && p < PIPE_MAX && s.pipes[p].used
    requires Ours(s, me, kids, p)
    ensures Ours(Step(s, e), me, kids, p)
  {
    hide Inv, Step, Without;
    forall x | 0 <= x < TASK_MAX && x != me && !IsKid(kids, x) ensures NoEnd(Step(s, e).tasks[x].fds, p) {
      assert NoEnd(s.tasks[x].fds, p);
      assert e.DoFork? ==> !IsKid(kids, e.i) && NoEnd(s.tasks[e.i].fds, p);
      StepWithout(s, e, PipeR, p, x);
      StepWithout(s, e, PipeW, p, x);
    }
  }

  /** Between two calls of the shell: a stage makes its next call, or another slot does something. */
  datatype Move = Stage(k: nat) | Other(e: Event)

  /**
   The moves that can happen, in order; the shell itself does not move.  With `quiet`, only those that leave the
   pipeline alone.
   */
  method Moves(s: State, kids: seq<Kid>, me: nat, made: seq<nat>, turn: seq<Move>, quiet: bool, ghost base: seq<Fd>, ghost shell: seq<Fd>)
    returns (s': State, kids': seq<Kid>)
    requires ShellOk(s, me, shell) && (quiet ==> Building(base, s, me, kids, made, shell) && Anchored(kids, made, shell))
    ensures ShellOk(s', me, shell) && |kids'| == |kids| && (quiet ==> Building(base, s', me, kids', made, shell))
    ensures forall k | 0 <= k < |kids| :: kids'[k] == kids[k].(done := kids'[k].done)
  {
    hide Building, PipesOk, WaitsOk, KidStep, Step, Harmless, Anchored, Enabled;
    s', kids' := s, kids;
    for i := 0 to |turn|
      invariant ShellOk(s', me, shell) && |kids'| == |kids| && (quiet ==> Building(base, s', me, kids', made, shell) && Anchored(kids', made, shell))
      invariant forall k | 0 <= k < |kids| :: kids'[k] == kids[k].(done := kids'[k].done)
    {
      match turn[i] {
        case Stage(k) =>
          if k < |kids'| && kids'[k].done < STEPS && kids'[k].slot < TASK_MAX && kids'[k].slot != me && s'.tasks[kids'[k].slot].state == Ready {
            if quiet {
              KidMoves(base, s', me, kids', made, shell, k);
              AnchoredStill(kids', made, shell, k);
            }
            KidStepLocal(s', kids'[k]);
            s', kids' := KidStep(s', kids'[k]), kids'[k := kids'[k].(done := kids'[k].done + 1)];
          }
        case Other(e) =>
          if Actor(e) != me && Enabled(s', e) && (quiet ==> Harmless(e, kids', made)) {
            if quiet {
              OtherMoves(base, s', me, kids', made, shell, e);
            }
            ForeignMove(s', e, me, shell);
            s' := Step(s', e);
          }
      }
    }
  }

  lemma AnchoredStill(kids: seq<Kid>, made: seq<nat>, shell: seq<Fd>, k: nat)
    requires Anchored(kids, made, shell) && k < |kids|
    ensures Anchored(kids[k := kids[k].(done := kids[k].done + 1)], made, shell)
  {
  }

  lemma ForeignMove(s: State, e: Event, me: nat, shell: seq<Fd>)
    requires ShellOk(s, me, shell) && Enabled(s, e) && Actor(e) != me
    ensures ShellOk(Step(s, e), me, shell)
  {
    hide PipesOk, WaitsOk, Step;
    StepKeeps(s, e);
    OtherTables(s, e, me);
    StepReady(s, e, me);
  }

  // ----- the searches the kernel makes -----

  function LowestUnused(fds: seq<Fd>, from: nat): (fd: int)
    requires from <= |fds|
    ensures fd == -1 || (from <= fd < |fds| && fds[fd].kind == Unused)
    ensures forall k | from <= k < (if fd == -1 then |fds| else fd) :: fds[k].kind != Unused
    decreases |fds| - from
  {
    if from == |fds| then -1 else if fds[from].kind == Unused then from else LowestUnused(fds, from + 1)
  }

  function FirstPipe(pipes: seq<Pipe>, from: nat): (p: int)
    requires from <= |pipes|
    ensures p == -1 || (from <= p < |pipes| && !pipes[p].used)
    ensures forall k | from <= k < (if p == -1 then |pipes| else p) :: pipes[k].used
    decreases |pipes| - from
  {
    if from == |pipes| then -1 else if !pipes[from].used then from else FirstPipe(pipes, from + 1)
  }

  function FirstSlot(tasks: seq<Task>, from: nat): (i: int)
    requires from <= |tasks|
    ensures i == -1 || (from <= i < |tasks| && Reusable(tasks[i]))
    ensures forall k | from <= k < (if i == -1 then |tasks| else i) :: !Reusable(tasks[k])
    decreases |tasks| - from
  {
    if from == |tasks| then -1 else if Reusable(tasks[from]) then from else FirstSlot(tasks, from + 1)
  }

  // ----- the shell's own calls -----

  lemma LocalToShell(base: seq<Fd>, s: State, s': State, me: nat, kids: seq<Kid>, made: seq<nat>, shell: seq<Fd>, shell': seq<Fd>)
    requires Building(base, s, me, kids, made, shell) && Inv(s') && Local(s, s', me, shell')
    ensures Building(base, s', me, kids, made, shell')
  {
    hide PipesOk, WaitsOk, NoEnd, Table, Birth, KidShape, LowestUnused;
    forall k | 0 <= k < |kids| ensures KidOk(base, s', me, kids, made, k) {
      assert KidOk(base, s, me, kids, made, k);
    }
  }

  /** The shell closes a descriptor. */
  lemma ShellCloses(base: seq<Fd>, s: State, me: nat, kids: seq<Kid>, made: seq<nat>, shell: seq<Fd>, fd: int, quiet: bool)
    requires ShellOk(s, me, shell) && (quiet ==> Building(base, s, me, kids, made, shell))
    ensures ShellOk(Close(s, me, fd), me, TableClose(shell, fd))
    ensures quiet ==> Building(base, Close(s, me, fd), me, kids, made, TableClose(shell, fd))
  {
    hide PipesOk, WaitsOk, Close, Building, TableClose;
    CloseLocal(s, me, fd);
    if quiet {
      LocalToShell(base, s, Close(s, me, fd), me, kids, made, shell, TableClose(shell, fd));
    }
  }

  /** The shell still has everything it had before the pipeline. */
  ghost predicate Extends(base: seq<Fd>, shell: seq<Fd>) {
    |shell| == |base| && forall y | 0 <= y < |base| && base[y].kind != Unused :: shell[y] == base[y]
  }

  /** A pipe that is not in use has no ends anywhere. */
  lemma FreshPipe(s: State, p: nat, x: nat)
    requires Inv(s) && p < PIPE_MAX && !s.pipes[p].used && x < TASK_MAX
    ensures NoEnd(s.tasks[x].fds, p)
  {
    hide PipesOk, WaitsOk;
    forall y | 0 <= y < FD_MAX ensures !(IsPipe(s.tasks[x].fds[y]) && s.tasks[x].fds[y].pipe == p) {
      if IsPipe(s.tasks[x].fds[y]) && s.tasks[x].fds[y].pipe == p {
        EndMeansUsed(s, x, y);
      }
    }
  }

  lemma ShellPipes(base: seq<Fd>, s: State, me: nat, kids: seq<Kid>, made: seq<nat>, shell: seq<Fd>, p: nat, r: nat, w: nat)
    requires Building(base, s, me, kids, made, shell) && Anchored(kids, made, shell) && Extends(base, shell) && |kids| == |made|
    requires p < PIPE_MAX && !s.pipes[p].used && r < w < FD_MAX && |shell| == FD_MAX
    requires shell[r].kind == Unused && shell[w].kind == Unused
    ensures Building(base, MakePipe(s, me, p, r, w), me, kids, made + [p], shell[r := R(p)][w := W(p)])
  {
    hide PipesOk, WaitsOk, NoEnd, Table, Birth, KidShape, LowestUnused, MakePipe;
    MakePipeKeeps(s, me, p, r, w);
    var s' := MakePipe(s, me, p, r, w);
    assert NoEnd(base, p) by { BaseHasNone(base, s, me, shell, p); }
    forall m | 0 <= m < |made| ensures made[m] != p {
      MadeInUse(base, s, me, kids, made, shell, m);
    }
    forall k | 0 <= k < |kids| ensures KidOk(base, s', me, kids, made + [p], k) {
      assert KidOk(base, s, me, kids, made, k);
      assert PipeIn(made + [p], k) == PipeIn(made, k) && PipeOut(made + [p], k) == PipeOut(made, k);
    }
    forall m | 0 <= m < |made + [p]| ensures Ours(s', me, kids, (made + [p])[m]) {
      forall x | 0 <= x < TASK_MAX && x != me && !IsKid(kids, x) ensures NoEnd(s'.tasks[x].fds, (made + [p])[m]) {
        if m < |made| {
          assert Ours(s, me, kids, made[m]);
        } else {
          FreshPipe(s, p, x);
        }
      }
    }
  }

  lemma BaseHasNone(base: seq<Fd>, s: State, me: nat, shell: seq<Fd>, p: nat)
    requires ShellOk(s, me, shell) && Extends(base, shell) && p < PIPE_MAX && !s.pipes[p].used
    ensures NoEnd(base, p)
  {
    hide PipesOk, WaitsOk;
    FreshPipe(s, p, me);
  }

  lemma ShellForks(base: seq<Fd>, s: State, me: nat, kids: seq<Kid>, made: seq<nat>, shell: seq<Fd>, kid: Kid)
    requires Building(base, s, me, kids, made, shell)
    requires kid.slot < TASK_MAX && Reusable(s.tasks[kid.slot]) && kid.done == 0 && KidShape(base, kid)
    requires (kid.inFd >= 0 <==> |kids| > 0) && (kid.pr >= 0 <==> |kids| < |made|) && |kids| <= |made|
    requires if |kids| > 0 then kid.inFd == kids[|kids| - 1].pr else kid.pr >= 0 ==> kid.pr == LowestUnused(base, 0)
    requires shell == Birth(base, kid, PipeIn(made, |kids|), PipeOut(made, |kids|))
    ensures Building(base, Fork(s, me, kid.slot), me, kids + [kid], made, shell)
  {
    hide PipesOk, WaitsOk, NoEnd, Birth, KidShape, Fork, LowestUnused;
    ForkKeeps(s, me, kid.slot);
    var s' := Fork(s, me, kid.slot);
    var kids' := kids + [kid];
    forall k | 0 <= k < |kids| ensures kids[k].slot != kid.slot {
      assert KidOk(base, s, me, kids, made, k);
    }
    forall k | 0 <= k < |kids'| ensures KidOk(base, s', me, kids', made, k) {
      assert k < |kids| ==> KidOk(base, s, me, kids, made, k);
    }
    forall m | 0 <= m < |made| ensures Ours(s', me, kids', made[m]) {
      forall x | 0 <= x < TASK_MAX && x != me && !IsKid(kids', x) ensures NoEnd(s'.tasks[x].fds, made[m]) {
        assert kids'[|kids|].slot == kid.slot;
        assert forall k | 0 <= k < |kids| :: kids'[k].slot == kids[k].slot;
        assert !IsKid(kids, x) && Ours(s, me, kids, made[m]);
      }
    }
  }

  /** Why `pipe` fails: no memory, no pipe, or fewer than two unused descriptors. */
  ghost predicate PipeRefused(s: State, fds: seq<Fd>, memory: bool) {
    || !memory
    || (forall p | 0 <= p < |s.pipes| :: s.pipes[p].used)
    || (forall j, k | 0 <= j < k < |fds| :: fds[j].kind != Unused || fds[k].kind != Unused)
  }

  /** Why `fork` fails: no memory, or no slot. */
  ghost predicate ForkRefused(s: State, memory: bool) {
    !memory || forall i | 0 <= i < |s.tasks| :: !Reusable(s.tasks[i])
  }

  /** The shell's table between two stages: what it had, and the reading end of the last pipe. */
  function Between(base: seq<Fd>, inFd: int, p: int): (t: seq<Fd>)
    ensures |t| == |base|
  {
    if 0 <= inFd < |base| then base[inFd := R(p)] else base
  }

  /** Closing the input and the writing end leaves the next stage's input; closing that too leaves nothing. */
  lemma StageCloses(base: seq<Fd>, k: Kid, pin: int, pout: int)
    requires KidShape(base, k)
    ensures TableClose(TableClose(Birth(base, k, pin, pout), k.inFd), k.pw) == Between(base, k.pr, pout)
    ensures TableClose(TableClose(TableClose(Birth(base, k, pin, pout), k.inFd), k.pr), k.pw) == base
  {
  }

  /** The shell asks for the pipe of a stage that is not the last; false when it gets none. */
  method StagePipe(s: State, me: nat, inFd: int, pin: int, memory: bool, quiet: bool, ghost base: seq<Fd>, ghost kids: seq<Kid>, ghost made: seq<nat>)
    returns (ok: bool, s': State, p: nat, pr: int, pw: int)
    requires |base| == FD_MAX && (inFd == -1 || Blank(base, inFd)) && ShellOk(s, me, Between(base, inFd, pin))
    requires quiet ==> |kids| == |made| && Building(base, s, me, kids, made, Between(base, inFd, pin)) && Anchored(kids, made, Between(base, inFd, pin))
    ensures !ok ==> s' == s && PipeRefused(s, Between(base, inFd, pin), memory)
    ensures ok ==> KidShape(base, Kid(0, inFd, pw, pr, pw, 0)) && Blank(base, pr) && (inFd == -1 ==> pr == LowestUnused(base, 0))
    ensures ok ==> ShellOk(s', me, Birth(base, Kid(0, inFd, pw, pr, pw, 0), pin, p))
    ensures ok && quiet ==> Building(base, s', me, kids, made + [p], Birth(base, Kid(0, inFd, pw, pr, pw, 0), pin, p))
  {
    hide Building, PipesOk, WaitsOk, MakePipe, Anchored;
    ghost var shell := Between(base, inFd, pin);
    ok, s', p := false, s, 0;
    pr := LowestUnused(s.tasks[me].fds, 0);
    pw := if pr == -1 then -1 else LowestUnused(s.tasks[me].fds, pr + 1);
    var q := FirstPipe(s.pipes, 0);
    if pw != -1 && q != -1 && memory {
      EntryBlank(s, me, shell, pr);
      EntryBlank(s, me, shell, pw);
      assert Blank(base, pr) && Blank(base, pw);
      MakePipeKeeps(s, me, q, pr, pw);
      if quiet {
        ShellPipes(base, s, me, kids, made, shell, q, pr, pw);
      }
      ok, p, s' := true, q, MakePipe(s, me, q, pr, pw);
      assert shell[pr := R(q)][pw := W(q)] == Birth(base, Kid(0, inFd, pw, pr, pw, 0), pin, q);
    }
  }

  lemma EntryBlank(s: State, me: nat, shell: seq<Fd>, fd: nat)
    requires ShellOk(s, me, shell) && fd < FD_MAX && shell[fd].kind == Unused
    ensures shell[fd] == NOFD
  {
    hide Reasons, RingOk, WaitsOk, InUseOk, CountOk;
    assert FdOk(s.tasks[me].fds[fd]);
  }

  /** The shell lets go of what it holds for this stage. */
  method CloseThree(s: State, me: nat, kid: Kid, quiet: bool, ghost base: seq<Fd>, ghost kids: seq<Kid>, ghost made: seq<nat>, ghost pin: int, ghost pout: int)
    returns (s': State)
    requires KidShape(base, kid) && ShellOk(s, me, Birth(base, kid, pin, pout))
    requires quiet ==> Building(base, s, me, kids, made, Birth(base, kid, pin, pout))
    ensures ShellOk(s', me, base) && (quiet ==> Building(base, s', me, kids, made, base))
  {
    hide Building, PipesOk, WaitsOk, Close, Birth, TableClose;
    ghost var shell := Birth(base, kid, pin, pout);
    ShellCloses(base, s, me, kids, made, shell, kid.inFd, quiet);
    s' := Close(s, me, kid.inFd);
    ShellCloses(base, s', me, kids, made, TableClose(shell, kid.inFd), kid.pr, quiet);
    s' := Close(s', me, kid.pr);
    ShellCloses(base, s', me, kids, made, TableClose(TableClose(shell, kid.inFd), kid.pr), kid.pw, quiet);
    s' := Close(s', me, kid.pw);
    StageCloses(base, kid, pin, pout);
  }

  /** The reading ends the shell holds while a stage is forked. */
  lemma AnchoredBirth(base: seq<Fd>, k: Kid, kids: seq<Kid>, made: seq<nat>, i: nat)
    requires KidShape(base, k) && (k.inFd >= 0 <==> i > 0) && (k.pr >= 0 <==> i < |made|) && i <= |made| <= i + 1 && |kids| >= i
    ensures Anchored(kids, made, Birth(base, k, PipeIn(made, i), PipeOut(made, i)))
    ensures |kids| == i + 1 ==> Anchored(kids, made, TableClose(Birth(base, k, PipeIn(made, i), PipeOut(made, i)), k.inFd))
  {
    var shell := Birth(base, k, PipeIn(made, i), PipeOut(made, i));
    assert k.inFd >= 0 ==> shell[k.inFd] == R(PipeIn(made, i));
    assert k.pr >= 0 ==> shell[k.pr] == R(PipeOut(made, i)) && TableClose(shell, k.inFd)[k.pr] == R(PipeOut(made, i));
  }

  lemma AnchoredBetween(base: seq<Fd>, inFd: int, kids: seq<Kid>, made: seq<nat>)
    requires |made| <= |kids| && (|made| == |kids| && |made| > 0 ==> 0 <= inFd < |base|)
    ensures Anchored(kids, made, Between(base, inFd, PipeIn(made, |kids|)))
  {
    assert 0 <= inFd < |base| ==> Between(base, inFd, PipeIn(made, |kids|))[inFd] == R(PipeIn(made, |kids|));
  }

  /** The shell forks a stage, then closes the stage's input and the writing end of its pipe. */
  method StageFork(s: State, me: nat, kid: Kid, kids: seq<Kid>, made: seq<nat>, turns: (seq<Move>, seq<Move>), quiet: bool, ghost base: seq<Fd>)
    returns (s': State, kids': seq<Kid>)
    requires KidShape(base, kid) && kid.done == 0 && kid.slot < TASK_MAX
    requires (kid.inFd >= 0 <==> |kids| > 0) && (kid.pr >= 0 <==> |kids| < |made|) && |kids| <= |made| <= |kids| + 1
    requires ShellOk(s, me, Birth(base, kid, PipeIn(made, |kids|), PipeOut(made, |kids|))) && Reusable(s.tasks[kid.slot])
    requires quiet ==> Building(base, s, me, kids, made, Birth(base, kid, PipeIn(made, |kids|), PipeOut(made, |kids|)))
    requires quiet ==> if |kids| > 0 then kid.inFd == kids[|kids| - 1].pr else kid.pr >= 0 ==> kid.pr == LowestUnused(base, 0)
    ensures |kids'| == |kids| + 1 && kids'[|kids|].pr == kid.pr
    ensures ShellOk(s', me, Between(base, kid.pr, PipeOut(made, |kids|)))
    ensures quiet ==> Building(base, s', me, kids', made, Between(base, kid.pr, PipeOut(made, |kids|)))
  {
    hide Building, PipesOk, WaitsOk, Fork, Close, Birth, TableClose, Between, Anchored, KidShape;
    ghost var pin, pout := PipeIn(made, |kids|), PipeOut(made, |kids|);
    ghost var shell := Birth(base, kid, pin, pout);
    ForkKeeps(s, me, kid.slot);
    if quiet {
      ShellForks(base, s, me, kids, made, shell, kid);
    }
    s', kids' := Fork(s, me, kid.slot), kids + [kid];
    AnchoredBirth(base, kid, kids', made, |kids|);
    s', kids' := Moves(s', kids', me, made, turns.0, quiet, base, shell);
    ShellCloses(base, s', me, kids', made, shell, kid.inFd, quiet);
    s' := Close(s', me, kid.inFd);
    AnchoredBirth(base, kid, kids', made, |kids|);
    s', kids' := Moves(s', kids', me, made, turns.1, quiet, base, TableClose(shell, kid.inFd));
    ShellCloses(base, s', me, kids', made, TableClose(shell, kid.inFd), kid.pw, quiet);
    s' := Close(s', me, kid.pw);
    StageCloses(base, kid, pin, pout);
  }

  /** The shell gets the pipe of its next stage, unless that is the last; without one it gives up its input. */
  method StageOpen(s: State, kids: seq<Kid>, me: nat, made: seq<nat>, inFd: int, last: bool, memory: bool, turn: seq<Move>, quiet: bool, ghost base: seq<Fd>)
    returns (ok: bool, s': State, kids': seq<Kid>, made': seq<nat>, pr: int, pw: int, ghost at: State)
    requires |base| == FD_MAX && (inFd == -1 || Blank(base, inFd)) && |made| == |kids| && (inFd != -1 <==> |kids| > 0)
    requires ShellOk(s, me, Between(base, inFd, PipeIn(made, |kids|)))
    requires quiet ==> Building(base, s, me, kids, made, Between(base, inFd, PipeIn(made, |kids|)))
    ensures |kids'| == |kids| && forall k | 0 <= k < |kids| :: kids'[k] == kids[k].(done := kids'[k].done)
    ensures !ok ==> !last && made' == made && ShellOk(at, me, Between(base, inFd, PipeIn(made, |kids|)))
                    && PipeRefused(at, Between(base, inFd, PipeIn(made, |kids|)), memory)
    ensures !ok ==> ShellOk(s', me, base) && (quiet ==> Building(base, s', me, kids', made, base))
    ensures ok ==> if last then made' == made && pr == -1 else |made'| == |made| + 1 && made'[..|made|] == made && Blank(base, pr)
    ensures ok && inFd == -1 && !last ==> pr == LowestUnused(base, 0)
    ensures ok ==> KidShape(base, Kid(0, inFd, pw, pr, pw, 0))
    ensures ok ==> ShellOk(s', me, Birth(base, Kid(0, inFd, pw, pr, pw, 0), PipeIn(made, |kids|), PipeOut(made', |kids|)))
    ensures ok && quiet ==> Building(base, s', me, kids', made', Birth(base, Kid(0, inFd, pw, pr, pw, 0), PipeIn(made, |kids|), PipeOut(made', |kids|)))
  {
    hide Building, PipesOk, WaitsOk, Birth, Between, Anchored, KidShape, PipeRefused;
    ghost var pin := PipeIn(made, |kids|);
    AnchoredBetween(base, inFd, kids, made);
    s', kids' := Moves(s, kids, me, made, turn, quiet, base, Between(base, inFd, pin));
    AnchoredBetween(base, inFd, kids', made);
    BirthPlain(base, inFd, pin);
    ok, made', pr, pw, at := true, made, -1, -1, s';
    if !last {
      var got, t, p, r, w := StagePipe(s', me, inFd, PipeIn(made, |kids|), memory, quiet, base, kids', made);
      if !got {
        s' := CloseThree(s', me, Kid(0, inFd, -1, -1, -1, 0), quiet, base, kids', made, pin, -1);
        ok := false;
        return;
      }
      s', pr, pw, made' := t, r, w, made + [p];
    }
  }

  /**
   `run_cmds` for `n` stages without redirections.  `memory(i)` says whether the pipe and the fork of stage `i`
   get memory, `turns` what the others do before each call of the shell.  On every return path the shell's table
   is what it was, whatever the others did; if they left the pipeline alone (`quiet`), `Building` says how every
   stage stands.  It fails only because in the state `at`, with the shell's table `shell`, a call could not be
   served.
   */
  method RunCmds(s0: State, me: nat, n: nat, memory: nat -> (bool, bool), turns: nat -> seq<Move>, quiet: bool)
    returns (s: State, rc: int, kids: seq<Kid>, made: seq<nat>, ghost at: State, ghost shell: seq<Fd>)
    requires Inv(s0) && me < TASK_MAX && s0.tasks[me].state == Ready
    ensures Inv(s) && s.tasks[me].fds == s0.tasks[me].fds && s.tasks[me].state == Ready
    ensures rc == 0 || rc == -1
    ensures rc == 0 ==> |kids| == n && |made| == if n == 0 then 0 else n - 1
    ensures quiet ==> Building(s0.tasks[me].fds, s, me, kids, made, s0.tasks[me].fds)
    ensures rc != 0 ==> |kids| < n && ShellOk(at, me, shell)
    ensures rc != 0 ==> (|kids| + 1 < n && PipeRefused(at, shell, memory(|kids|).0)) || ForkRefused(at, memory(|kids|).1)
  {
    at, shell := s0, [];
    hide Building, PipesOk, WaitsOk, Birth, Reusable, Between, Anchored, KidShape, PipeRefused;
    ghost var base := s0.tasks[me].fds;
    s, kids, made := s0, [], [];
    var inFd, i := -1, 0;
    assert Building(base, s, me, kids, made, base) by { BuildingBegins(s0, me); }
    BetweenPlain(base, -1);
    while i < n
      invariant i <= n && |kids| == i && |made| == if i < n || n == 0 then i else n - 1
      invariant inFd == -1 || Blank(base, inFd)
      invariant inFd != -1 <==> 0 < i < n
      invariant ShellOk(s, me, Between(base, inFd, PipeIn(made, i)))
      invariant quiet ==> Building(base, s, me, kids, made, Between(base, inFd, PipeIn(made, i)))
      invariant 0 < i < n ==> kids[i - 1].pr == inFd
    {
      ghost var pin := PipeIn(made, i);
      var ok, pr, pw;
      ok, s, kids, made, pr, pw, at := StageOpen(s, kids, me, made, inFd, i + 1 == n, memory(i).0, turns(4 * i), quiet, base);
      if !ok {
        shell := Between(base, inFd, pin);
        rc := -1;
        return;
      }
      var kid := Kid(0, inFd, pw, pr, pw, 0);
      shell := Birth(base, kid, pin, PipeOut(made, i));
      assert pin == PipeIn(made, i);
      AnchoredBirth(base, kid, kids, made, i);
      s, kids := Moves(s, kids, me, made, turns(4 * i + 1), quiet, base, shell);
      var c := FirstSlot(s.tasks, 0);
      if c == -1 || !memory(i).1 {
        at := s;
        s := CloseThree(s, me, kid, quiet, base, kids, made, pin, PipeOut(made, i));
        rc := -1;
        return;
      }
      kid := kid.(slot := c);
      BirthSlot(base, kid, pin, PipeOut(made, i));
      s, kids := StageFork(s, me, kid, kids, made, (turns(4 * i + 2), turns(4 * i + 3)), quiet, base);
      inFd := pr;
      i := i + 1;
      BetweenPlain(base, PipeIn(made, i));
    }
    BetweenPlain(base, PipeIn(made, i));
    AnchoredDone(kids, made, base);
    s, kids := Moves(s, kids, me, made, turns(4 * n), quiet, base, base);
    rc := 0;
  }

  lemma BuildingBegins(s0: State, me: nat)
    requires Inv(s0) && me < TASK_MAX && s0.tasks[me].state == Ready
    ensures Building(s0.tasks[me].fds, s0, me, [], [], s0.tasks[me].fds)
  {
  }

  lemma AnchoredDone(kids: seq<Kid>, made: seq<nat>, shell: seq<Fd>)
    requires |made| < |kids| || made == []
    ensures Anchored(kids, made, shell)
  {
  }

  lemma BetweenPlain(base: seq<Fd>, p: int)
    ensures Between(base, -1, p) == base
  {
  }

  lemma BirthPlain(base: seq<Fd>, inFd: int, pin: int)
    ensures Birth(base, Kid(0, inFd, -1, -1, -1, 0), pin, -1) == Between(base, inFd, pin)
    ensures |base| == FD_MAX && (inFd == -1 || Blank(base, inFd)) ==> KidShape(base, Kid(0, inFd, -1, -1, -1, 0))
  {
  }

  lemma BirthSlot(base: seq<Fd>, kid: Kid, pin: int, pout: int)
    ensures Birth(base, kid.(slot := 0), pin, pout) == Birth(base, kid, pin, pout)
    ensures KidShape(base, kid.(slot := 0)) <==> KidShape(base, kid)
  {
  }

  // ----- the finished pipeline -----

  /** Every stage has made its six calls. */
  ghost predicate Plumbed(kids: seq<Kid>) {
    forall k | 0 <= k < |kids| :: kids[k].done == STEPS
  }

  /** Stage `m` alone writes pipe `m`, on 1, and stage `m + 1` alone reads it, on 0. */
  ghost predicate Wired(s: State, kids: seq<Kid>, made: seq<nat>, m: nat)
    requires m < |made| && m + 1 < |kids|
  {
    Ends(s.tasks, PipeW, made[m]) == {(kids[m].slot, 1)} && Ends(s.tasks, PipeR, made[m]) == {(kids[m + 1].slot, 0)}
  }

  /** Which shells wire a pipeline of `n` stages right. */
  predicate WiresRight(base: seq<Fd>, n: nat)
    requires |base| == FD_MAX
  {
    n <= 1 || (base[0].kind != Unused && (base[1].kind != Unused || n == 2))
  }

  /** With such a shell, every stage ends with the table it should have. */
  lemma StageTable(base: seq<Fd>, s: State, me: nat, kids: seq<Kid>, made: seq<nat>, k: nat)
    requires Building(base, s, me, kids, made, base) && Plumbed(kids) && |kids| == |made| + 1 && k < |kids| && WiresRight(base, |kids|)
    ensures kids[k].slot < TASK_MAX && s.tasks[kids[k].slot].fds == Wanted(base, kids[k], PipeIn(made, k), PipeOut(made, k))
  {
    hide PipesOk, WaitsOk, Table, Birth, Ours, NoEnd;
    var kid := kids[k];
    assert KidOk(base, s, me, kids, made, k) && KidOk(base, s, me, kids, made, 0);
    if |kids| == 1 {
      AlonePlain(base, kid);
    } else if base[1].kind != Unused {
      PlumbedTable(base, kid, PipeIn(made, k), PipeOut(made, k));
    } else {
      EntryBlank(s, me, base, 1);
      assert kids[0].pr == 1;
      PlumbedWithoutOutput(base, kid, PipeIn(made, k), PipeOut(made, k));
    }
  }

  lemma AlonePlain(base: seq<Fd>, kid: Kid)
    requires KidShape(base, kid) && kid.inFd == -1 && kid.pr == -1
    ensures Table(Birth(base, kid, -1, -1), kid, STEPS) == Wanted(base, kid, -1, -1)
  {
    TableSteps(Birth(base, kid, -1, -1), kid);
  }

  lemma EntryIsEnd(base: seq<Fd>, s: State, me: nat, kids: seq<Kid>, made: seq<nat>, m: nat, x: nat, y: nat)
    requires Building(base, s, me, kids, made, base) && Plumbed(kids) && |kids| == |made| + 1 && m < |made| && WiresRight(base, |kids|)
    requires x < TASK_MAX && y < FD_MAX
    ensures s.tasks[x].fds[y].kind == PipeW && s.tasks[x].fds[y].pipe == made[m] <==> x == kids[m].slot && y == 1
    ensures s.tasks[x].fds[y].kind == PipeR && s.tasks[x].fds[y].pipe == made[m] <==> x == kids[m + 1].slot && y == 0
  {
    hide PipesOk, WaitsOk, KidOk;
    assert NoEnd(base, made[m]) && Ours(s, me, kids, made[m]);
    KidIsNotShell(base, s, me, kids, made, m);
    KidIsNotShell(base, s, me, kids, made, m + 1);
    if IsKid(kids, x) {
      var k :| 0 <= k < |kids| && kids[k].slot == x;
      StageTable(base, s, me, kids, made, k);
      KidIsNotShell(base, s, me, kids, made, k);
      assert k == m <==> x == kids[m].slot;
      assert k == m + 1 <==> x == kids[m + 1].slot;
    } else {
      assert x != me ==> NoEnd(s.tasks[x].fds, made[m]);
    }
  }

  lemma KidIsNotShell(base: seq<Fd>, s: State, me: nat, kids: seq<Kid>, made: seq<nat>, k: nat)
    requires Building(base, s, me, kids, made, base) && k < |kids|
    ensures kids[k].slot < TASK_MAX && kids[k].slot != me && IsKid(kids, kids[k].slot)
    ensures (kids[k].inFd >= 0 <==> k > 0) && (kids[k].pr >= 0 <==> k < |made|)
  {
    hide PipesOk, WaitsOk;
    assert KidOk(base, s, me, kids, made, k);
  }

  /** A finished pipeline of such a shell is wired right. */
  lemma WiredRight(base: seq<Fd>, s: State, me: nat, kids: seq<Kid>, made: seq<nat>, m: nat)
    requires Building(base, s, me, kids, made, base) && Plumbed(kids) && |kids| == |made| + 1 && m < |made| && WiresRight(base, |kids|)
    ensures Wired(s, kids, made, m) && s.pipes[made[m]].used && s.pipes[made[m]].wrefs == 1 && s.pipes[made[m]].rrefs == 1
  {
    hide PipesOk, WaitsOk, KidOk;
    forall x: nat, y: nat | x < TASK_MAX && y < FD_MAX
      ensures IsEnd(s.tasks, PipeW, made[m], (x, y)) <==> x == kids[m].slot && y == 1
      ensures IsEnd(s.tasks, PipeR, made[m], (x, y)) <==> x == kids[m + 1].slot && y == 0
    {
      EntryIsEnd(base, s, me, kids, made, m, x, y);
    }
    KidIsNotShell(base, s, me, kids, made, m);
    KidIsNotShell(base, s, me, kids, made, m + 1);
    AnchoredDone(kids, made, base);
    MadeInUse(base, s, me, kids, made, base, m);
    Counted(s, made[m]);
  }

  /** With any other shell it is not: without descriptor 0 pipe 0 has two readers, without 1 pipe 1 has no such writer. */
  lemma WiredWrong(base: seq<Fd>, s: State, me: nat, kids: seq<Kid>, made: seq<nat>)
    requires Building(base, s, me, kids, made, base) && Plumbed(kids) && |kids| == |made| + 1 && !WiresRight(base, |kids|)
    ensures if base[0].kind == Unused then !Wired(s, kids, made, 0) else |made| >= 2 && !Wired(s, kids, made, 1)
  {
    hide PipesOk, WaitsOk, Table, Birth, Ours, NoEnd;
    assert KidOk(base, s, me, kids, made, 0) && KidOk(base, s, me, kids, made, 1);
    if base[0].kind == Unused {
      KeepsOwnInput(base, kids[0], PipeIn(made, 0), PipeOut(made, 0));
      assert IsEnd(s.tasks, PipeR, made[0], (kids[0].slot, 0));
      assert (kids[0].slot, 0) in Ends(s.tasks, PipeR, made[0]);
    } else {
      assert kids[1].inFd == 1;
      LosesOutput(base, kids[1], PipeIn(made, 1), PipeOut(made, 1));
      assert !IsEnd(s.tasks, PipeW, made[1], (kids[1].slot, 1));
      assert (kids[1].slot, 1) !in Ends(s.tasks, PipeW, made[1]);
    }
  }

  /** A finished pipeline is wired right if and only if the shell had descriptor 0, and 1 unless there are two stages. */
  lemma WiredIff(base: seq<Fd>, s: State, me: nat, kids: seq<Kid>, made: seq<nat>)
    requires Building(base, s, me, kids, made, base) && Plumbed(kids)
    requires |made| == if |kids| == 0 then 0 else |kids| - 1
    ensures (forall m | 0 <= m < |made| :: Wired(s, kids, made, m)) <==> WiresRight(base, |kids|)
  {
    hide Building, Wired, Plumbed;
    assert |base| == FD_MAX by { BaseLength(base, s, me, kids, made); }
    if WiresRight(base, |kids|) {
      forall m | 0 <= m < |made| ensures Wired(s, kids, made, m) {
        WiredRight(base, s, me, kids, made, m);
      }
    } else {
      WiredWrong(base, s, me, kids, made);
    }
  }

  lemma BaseLength(base: seq<Fd>, s: State, me: nat, kids: seq<Kid>, made: seq<nat>)
    requires Building(base, s, me, kids, made, base)
    ensures |base| == FD_MAX
  {
  }

  // ----- the pipeline at work -----

  /** No event of the run forks slot `a`, or binds an end of this kind on `p`. */
  predicate Keeps(es: seq<Event>, a: nat, kind: Kind, p: nat) {
    forall e <- es :: !(e.DoFork? && e.i == a) && !(e.DoBind? && e.kind == kind && e.p == p)
  }

  /** Nobody but slot `a` has an end of this kind on `p`. */
  ghost predicate Only(s: State, a: nat, kind: Kind, p: nat) {
    forall x | 0 <= x < |s.tasks| && x != a :: Without(s.tasks[x].fds, kind, p)
  }

  /** What only one task has, nobody else gets, as long as the pipe is in use. */
  lemma {:induction false} OnlyStays(s: State, es: seq<Event>, t: State, a: nat, kind: Kind, p: nat)
    requires Inv(s) && Reaches(s, es, t) && a < TASK_MAX && p < PIPE_MAX && (kind == PipeR || kind == PipeW)
    requires Lives(s, es, t, p) && Keeps(es, a, kind, p) && Only(s, a, kind, p)
    ensures Inv(t) && Only(t, a, kind, p)
    decreases |es|
  {
    hide PipesOk, WaitsOk, Step, Enabled, Without;
    if es != [] {
      StepKeeps(s, es[0]);
      assert es[0] in es && forall e <- es[1..] :: e in es;
      forall x | 0 <= x < TASK_MAX && x != a ensures Without(Step(s, es[0]).tasks[x].fds, kind, p) {
        OnlyStep(s, es[0], a, kind, p, x);
      }
      OnlyStays(Step(s, es[0]), es[1..], t, a, kind, p);
    }
  }

  lemma OnlyStep(s: State, e: Event, a: nat, kind: Kind, p: nat, x: nat)
    requires Inv(s) && Enabled(s, e) && a < TASK_MAX && p < PIPE_MAX && s.pipes[p].used && (kind == PipeR || kind == PipeW)
    requires Only(s, a, kind, p) && !(e.DoFork? && e.i == a) && !(e.DoBind? && e.kind == kind && e.p == p) && x < TASK_MAX && x != a
    ensures Without(Step(s, e).tasks[x].fds, kind, p)
  {
    hide PipesOk, WaitsOk, Step, Without;
    StepWithout(s, e, kind, p, x);
  }

  /**
   A pipeline that is wired right stays so while its stages read, write, close, exec and exit: as long as pipe `m` is
   in use, and nobody forks stage `m` or `m + 1` or binds the pipe, only stage `m` writes it and only stage `m + 1`
   reads it.  Once stage `m` has exited the pipe has no writer, and what is left in it is read to its end.
   */
  lemma WorksOn(s: State, kids: seq<Kid>, made: seq<nat>, m: nat, es: seq<Event>, t: State)
    requires Inv(s) && m < |made| && m + 1 < |kids| && made[m] < PIPE_MAX && kids[m].slot < TASK_MAX && kids[m + 1].slot < TASK_MAX
    requires Wired(s, kids, made, m) && Reaches(s, es, t) && Lives(s, es, t, made[m])
    requires Keeps(es, kids[m].slot, PipeW, made[m]) && Keeps(es, kids[m + 1].slot, PipeR, made[m])
    ensures Inv(t) && t.pipes[made[m]].used
    ensures forall e <- Ends(t.tasks, PipeW, made[m]) :: e.0 == kids[m].slot
    ensures forall e <- Ends(t.tasks, PipeR, made[m]) :: e.0 == kids[m + 1].slot
    ensures t.tasks[kids[m].slot].state == Dead ==> t.pipes[made[m]].wrefs == 0
  {
    hide PipesOk, WaitsOk, Reaches;
    var p := made[m];
    WiredOnly(s, kids, made, m);
    OnlyStays(s, es, t, kids[m].slot, PipeW, p);
    OnlyStays(s, es, t, kids[m + 1].slot, PipeR, p);
    LivesTo(s, es, t, p);
    OnlyEnds(t, kids[m].slot, PipeW, p);
    OnlyEnds(t, kids[m + 1].slot, PipeR, p);
    if t.tasks[kids[m].slot].state == Dead {
      DeadHasNone(t, kids[m].slot, p);
    }
  }

  lemma WiredOnly(s: State, kids: seq<Kid>, made: seq<nat>, m: nat)
    requires Inv(s) && m < |made| && m + 1 < |kids| && Wired(s, kids, made, m)
    ensures Only(s, kids[m].slot, PipeW, made[m]) && Only(s, kids[m + 1].slot, PipeR, made[m])
  {
    hide PipesOk, WaitsOk;
    forall x, y | 0 <= x < TASK_MAX && 0 <= y < FD_MAX
      ensures s.tasks[x].fds[y].kind == PipeW && s.tasks[x].fds[y].pipe == made[m] ==> x == kids[m].slot
      ensures s.tasks[x].fds[y].kind == PipeR && s.tasks[x].fds[y].pipe == made[m] ==> x == kids[m + 1].slot
    {
      EndIff(s.tasks, PipeW, made[m], x, y);
      EndIff(s.tasks, PipeR, made[m], x, y);
    }
  }

  lemma OnlyEnds(s: State, a: nat, kind: Kind, p: nat)
    requires Inv(s) && Only(s, a, kind, p)
    ensures forall e <- Ends(s.tasks, kind, p) :: e.0 == a
  {
    hide PipesOk, WaitsOk;
    forall e <- Ends(s.tasks, kind, p) ensures e.0 == a {
      assert IsEnd(s.tasks, kind, p, e);
    }
  }

  /** A dead task has no descriptors, so a pipe that only it wrote has no writer. */
  lemma DeadHasNone(s: State, a: nat, p: nat)
    requires Inv(s) && a < TASK_MAX && p < PIPE_MAX && s.tasks[a].state == Dead && forall e <- Ends(s.tasks, PipeW, p) :: e.0 == a
    ensures s.pipes[p].wrefs == 0
  {
    hide Reasons, RingOk, WaitsOk, InUseOk;
    assert DeadClosed(s.tasks[a]) && CountOk(s.tasks, s.pipes, p);
    forall j | 0 <= j < FD_MAX ensures (a, j) !in Ends(s.tasks, PipeW, p) {
      EndIff(s.tasks, PipeW, p, a, j);
    }
    assert forall e <- Ends(s.tasks, PipeW, p) :: IsEnd(s.tasks, PipeW, p, e);
    assert forall e <- Ends(s.tasks, PipeW, p) :: e == (a, e.1) && 0 <= e.1 < FD_MAX;
    assert Ends(s.tasks, PipeW, p) == {};
  }

  lemma {:induction false} LivesTo(s: State, es: seq<Event>, t: State, p: nat)
    requires Reaches(s, es, t) && p < PIPE_MAX && |s.pipes| == PIPE_MAX && Lives(s, es, t, p)
    ensures p < |t.pipes| && t.pipes[p].used
    decreases |es|
  {
    hide Step;
    if es != [] {
      LivesTo(Step(s, es[0]), es[1..], t, p);
    }
  }

  // ----- a run that goes wrong -----

  /** The first `n` slots run with these tables, the others were never used. */
  ghost predicate Stands(s: State, tables: seq<seq<Fd>>) {
    && Inv(s) && |tables| <= TASK_MAX
    && (forall k | 0 <= k < |tables| :: s.tasks[k].state == Ready && s.tasks[k].fds == tables[k])
    && (forall k | |tables| <= k < TASK_MAX :: s.tasks[k].state == Dead && s.tasks[k].parent == -1 && s.tasks[k].fds == NoFds())
  }

  /** A close, a duplication or a pipe of a running slot changes its table. */
  lemma Goes(s: State, tables: seq<seq<Fd>>, e: Event)
    requires Stands(s, tables) && Enabled(s, e) && 0 <= Actor(e) < |tables| && (e.DoClose? || e.DoDup2? || e.DoPipe?)
    ensures Stands(Step(s, e), tables[Actor(e) := TableAfter(s, e, Actor(e))])
  {
    hide PipesOk, WaitsOk, TableAfter;
    StepKeeps(s, e);
    forall k | 0 <= k < TASK_MAX ensures Step(s, e).tasks[k].fds == TableAfter(s, e, k) {
      StepTable(s, e, k);
    }
    forall k | 0 <= k < TASK_MAX
      ensures k != Actor(e) ==> TableAfter(s, e, k) == s.tasks[k].fds
      ensures Step(s, e).tasks[k].state == s.tasks[k].state && Step(s, e).tasks[k].parent == s.tasks[k].parent
    {
      Bystander(s, e, k);
    }
  }

  lemma Bystander(s: State, e: Event, k: nat)
    requires Enabled(s, e) && k < TASK_MAX && (e.DoClose? || e.DoDup2? || e.DoPipe?)
    requires s.tasks[k].state == Ready || s.tasks[k].state == Dead
    ensures k != Actor(e) ==> TableAfter(s, e, k) == s.tasks[k].fds
    ensures Step(s, e).tasks[k].state == s.tasks[k].state && Step(s, e).tasks[k].parent == s.tasks[k].parent
  {
    hide DropFd;
    match e
    case DoClose(i, fd) => DropBystander(s, i, fd, k);
    case DoDup2(i, oldfd, newfd) =>
      if 0 <= newfd < FD_MAX {
        DropBystander(s, i, newfd, k);
      }
    case _ =>
  }

  lemma DropBystander(s: State, i: nat, j: nat, k: nat)
    requires Shape(s) && i < TASK_MAX && j < FD_MAX && k < TASK_MAX && (s.tasks[k].state == Ready || s.tasks[k].state == Dead)
    ensures DropFd(s, i, j).tasks[k].state == s.tasks[k].state && DropFd(s, i, j).tasks[k].parent == s.tasks[k].parent
  {
  }

  lemma Forks(s: State, tables: seq<seq<Fd>>, i: nat)
    requires Stands(s, tables) && i < |tables| < TASK_MAX
    ensures Enabled(s, DoFork(i, |tables|)) && Stands(Step(s, DoFork(i, |tables|)), tables + [tables[i]])
  {
    hide PipesOk, WaitsOk;
    ForkKeeps(s, i, |tables|);
  }

  /** A shell with its standard input closed. */
  function NoInput(): (t: seq<Fd>)
    ensures |t| == FD_MAX
  {
    NoFds()[1 := Fd(ConsoleW, -1, 0, "")][2 := Fd(ConsoleW, -1, 0, "")]
  }

  lemma ShellWithoutInput() returns (s: State)
    ensures Reaches(Boot(), [DoSpawn(0), DoClose(0, 0)], s) && Stands(s, [NoInput()]) && !s.pipes[0].used
  {
    BootInv();
    var b := Boot();
    var a := Step(b, DoSpawn(0));
    SpawnKeeps(b, 0);
    SpawnTable(b, 0, 0);
    assert Stands(a, [a.tasks[0].fds]) by {
      hide Inv;
      assert a.tasks[0].state == Ready;
    }
    s := Step(a, DoClose(0, 0));
    Goes(a, [a.tasks[0].fds], DoClose(0, 0));
    assert TableAfter(a, DoClose(0, 0), 0) == NoInput();
    assert [a.tasks[0].fds][0 := NoInput()] == [NoInput()];
    assert Reaches(Boot(), [DoSpawn(0), DoClose(0, 0)], s) by {
      assert [DoSpawn(0), DoClose(0, 0)][1..] == [DoClose(0, 0)];
      assert [DoClose(0, 0)][1..] == [];
    }
  }

  /** The calls of two stages and their shell, in slots 1, 2 and 0, as `run_cmds` and `child_exec` make them. */
  function TwoStages(): seq<Event> {
    [DoPipe(0, 0, 0, 3), DoFork(0, 1), DoDup2(1, 3, 1), DoClose(1, 3), DoClose(0, 3), DoFork(0, 2), DoDup2(2, 0, 0), DoClose(0, 0)]
  }

  lemma RunOne(s: State, e: Event, es: seq<Event>, t: State)
    requires Enabled(s, e) && Reaches(Step(s, e), es, t)
    ensures Reaches(s, [e] + es, t)
  {
    hide Step;
    assert ([e] + es)[1..] == es;
  }

  lemma {:induction false} RunOn(s: State, es: seq<Event>, m: State, fs: seq<Event>, t: State)
    requires Reaches(s, es, m) && Reaches(m, fs, t)
    ensures Reaches(s, es + fs, t)
    decreases |es|
  {
    hide Step;
    if es == [] {
      assert es + fs == fs;
    } else {
      RunOn(Step(s, es[0]), es[1..], m, fs, t);
      assert es + fs == [es[0]] + (es[1..] + fs);
      RunOne(s, es[0], es[1..] + fs, t);
    }
  }

  /** The shell makes the pipe and the first stage, which plumbs itself. */
  lemma FirstStage(s0: State) returns (t: State)
    requires Stands(s0, [NoInput()]) && !s0.pipes[0].used
    ensures Reaches(s0, [DoPipe(0, 0, 0, 3), DoFork(0, 1), DoDup2(1, 3, 1), DoClose(1, 3)], t)
    ensures Stands(t, [NoInput()[0 := R(0)][3 := W(0)], NoInput()[0 := R(0)][1 := W(0)]])
  {
    hide Step, Stands, Inv, NoFds, Reaches;
    var b := NoInput();
    StandsFacts(s0, [b], 0);
    Goes(s0, [b], DoPipe(0, 0, 0, 3));
    var s1 := Step(s0, DoPipe(0, 0, 0, 3));
    var b1 := b[0 := R(0)][3 := W(0)];
    assert [b][0 := b1] == [b1];
    Forks(s1, [b1], 0);
    var s2 := Step(s1, DoFork(0, 1));
    assert [b1] + [b1] == [b1, b1];
    StandsFacts(s2, [b1, b1], 1);
    Goes(s2, [b1, b1], DoDup2(1, 3, 1));
    var s3 := Step(s2, DoDup2(1, 3, 1));
    var c1 := b1[1 := W(0)];
    assert [b1, b1][1 := c1] == [b1, c1];
    StandsFacts(s3, [b1, c1], 1);
    Goes(s3, [b1, c1], DoClose(1, 3));
    t := Step(s3, DoClose(1, 3));
    var k1 := b[0 := R(0)][1 := W(0)];
    assert c1[3 := NOFD] == k1;
    assert [b1, c1][1 := k1] == [b1, k1];
    RunFour(s0, DoPipe(0, 0, 0, 3), s1, DoFork(0, 1), s2, DoDup2(1, 3, 1), s3, DoClose(1, 3), t);
  }

  lemma RunFour(s0: State, a: Event, s1: State, b: Event, s2: State, c: Event, s3: State, d: Event, t: State)
    requires Enabled(s0, a) && s1 == Step(s0, a) && Enabled(s1, b) && s2 == Step(s1, b)
    requires Enabled(s2, c) && s3 == Step(s2, c) && Enabled(s3, d) && t == Step(s3, d)
    ensures Reaches(s0, [a, b, c, d], t)
  {
    hide Step, Enabled;
    assert [d][1..] == [] && Reaches(t, [], t);
    assert [c, d][1..] == [d] && Reaches(s3, [d], t);
    assert [b, c, d][1..] == [c, d] && Reaches(s2, [c, d], t);
    assert [a, b, c, d][1..] == [b, c, d] && Reaches(s1, [b, c, d], t);
  }

  /** The shell closes the writing end, forks the last stage, which has nothing to do, and closes its input. */
  lemma LastStage(s4: State) returns (t: State)
    requires Stands(s4, [NoInput()[0 := R(0)][3 := W(0)], NoInput()[0 := R(0)][1 := W(0)]])
    ensures Reaches(s4, [DoClose(0, 3), DoFork(0, 2), DoDup2(2, 0, 0), DoClose(0, 0)], t)
    ensures Stands(t, [NoInput(), NoInput()[0 := R(0)][1 := W(0)], NoInput()[0 := R(0)]])
  {
    hide Step, Stands, Inv, NoFds, Reaches;
    var b := NoInput();
    var b1, b2, k1 := b[0 := R(0)][3 := W(0)], b[0 := R(0)], b[0 := R(0)][1 := W(0)];
    assert b[3] == NOFD && b[0] == NOFD by { NoInputIs(); }
    StandsFacts(s4, [b1, k1], 0);
    Goes(s4, [b1, k1], DoClose(0, 3));
    var s5 := Step(s4, DoClose(0, 3));
    assert b1[3 := NOFD] == b2;
    assert [b1, k1][0 := b2] == [b2, k1];
    Forks(s5, [b2, k1], 0);
    var s6 := Step(s5, DoFork(0, 2));
    assert [b2, k1] + [b2] == [b2, k1, b2];
    StandsFacts(s6, [b2, k1, b2], 2);
    Goes(s6, [b2, k1, b2], DoDup2(2, 0, 0));
    var s7 := Step(s6, DoDup2(2, 0, 0));
    assert b2[0 := b2[0]] == b2;
    assert [b2, k1, b2][2 := b2] == [b2, k1, b2];
    StandsFacts(s7, [b2, k1, b2], 0);
    Goes(s7, [b2, k1, b2], DoClose(0, 0));
    t := Step(s7, DoClose(0, 0));
    assert b2[0 := NOFD] == b;
    assert [b2, k1, b2][0 := b] == [b, k1, b2];
    RunFour(s4, DoClose(0, 3), s5, DoFork(0, 2), s6, DoDup2(2, 0, 0), s7, DoClose(0, 0), t);
  }

  lemma NoInputIs()
    ensures NoInput()[0] == NOFD && NoInput()[3] == NOFD
  {
  }

  lemma TwoStagesRun(s0: State) returns (t: State)
    requires Stands(s0, [NoInput()]) && !s0.pipes[0].used
    ensures Reaches(s0, TwoStages(), t)
    ensures Stands(t, [NoInput(), NoInput()[0 := R(0)][1 := W(0)], NoInput()[0 := R(0)]])
  {
    hide Stands, Reaches, NoInput;
    var s4 := FirstStage(s0);
    t := LastStage(s4);
    RunOn(s0, [DoPipe(0, 0, 0, 3), DoFork(0, 1), DoDup2(1, 3, 1), DoClose(1, 3)], s4,
          [DoClose(0, 3), DoFork(0, 2), DoDup2(2, 0, 0), DoClose(0, 0)], t);
    assert TwoStages() == [DoPipe(0, 0, 0, 3), DoFork(0, 1), DoDup2(1, 3, 1), DoClose(1, 3)]
                        + [DoClose(0, 3), DoFork(0, 2), DoDup2(2, 0, 0), DoClose(0, 0)];
  }

  lemma StandsFacts(s: State, tables: seq<seq<Fd>>, k: nat)
    requires Stands(s, tables) && k < |tables|
    ensures Shape(s) && Running(s, k) && s.tasks[k].fds == tables[k]
  {
    hide PipesOk, WaitsOk;
  }

  /**
   Such a pipeline, built and plumbed from boot by a shell that closed its standard input: it stands as `Building`
   says, the shell has its table back, and both stages read pipe 0.
   */
  lemma WrongRun() returns (s0: State, t: State)
    ensures Reaches(Boot(), [DoSpawn(0), DoClose(0, 0)], s0) && Reaches(s0, TwoStages(), t)
    ensures |s0.tasks| == TASK_MAX && |s0.tasks[0].fds| == FD_MAX && s0.tasks[0].fds[0].kind == Unused
    ensures var kids := [Kid(1, -1, 3, 0, 3, STEPS), Kid(2, 0, -1, -1, -1, STEPS)];
      Building(s0.tasks[0].fds, t, 0, kids, [0], s0.tasks[0].fds) && Plumbed(kids) && !Wired(t, kids, [0], 0)
  {
    hide Reaches;
    s0 := ShellWithoutInput();
    t := TwoStagesRun(s0);
    var kids := [Kid(1, -1, 3, 0, 3, STEPS), Kid(2, 0, -1, -1, -1, STEPS)];
    var base := NoInput();
    StandsFacts(s0, [base], 0);
    assert Building(base, t, 0, kids, [0], base) by { WrongStands(t); }
    WiredWrong(base, t, 0, kids, [0]);
  }

  lemma WrongTables()
    ensures var base := NoInput(); var k := Kid(1, -1, 3, 0, 3, STEPS); Table(Birth(base, k, -1, 0), k, STEPS) == base[0 := R(0)][1 := W(0)]
    ensures var base := NoInput(); var k := Kid(2, 0, -1, -1, -1, STEPS); Table(Birth(base, k, 0, -1), k, STEPS) == base[0 := R(0)]
  {
    var a, b := Kid(1, -1, 3, 0, 3, STEPS), Kid(2, 0, -1, -1, -1, STEPS);
    TableSteps(Birth(NoInput(), a, -1, 0), a);
    TableSteps(Birth(NoInput(), b, 0, -1), b);
  }

  lemma WrongStands(t: State)
    requires Stands(t, [NoInput(), NoInput()[0 := R(0)][1 := W(0)], NoInput()[0 := R(0)]])
    ensures Building(NoInput(), t, 0, [Kid(1, -1, 3, 0, 3, STEPS), Kid(2, 0, -1, -1, -1, STEPS)], [0], NoInput())
  {
    hide PipesOk, WaitsOk, Table, Birth;
    var base := NoInput();
    var kids := [Kid(1, -1, 3, 0, 3, STEPS), Kid(2, 0, -1, -1, -1, STEPS)];
    WrongTables();
    assert kids[0].slot == 1 && kids[1].slot == 2;
    assert LowestUnused(base, 0) == 0;
    assert KidOk(base, t, 0, kids, [0], 0) && KidOk(base, t, 0, kids, [0], 1);
    forall x | 0 <= x < TASK_MAX && x != 0 && !IsKid(kids, x) ensures NoEnd(t.tasks[x].fds, 0) {
      assert x != kids[0].slot && x != kids[1].slot;
    }
  }
}

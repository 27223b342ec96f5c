/** How tasks end, over every run: exit statuses are told truly, and a fatal signal is the end. */
module KernelEnds {
  import opened Options
  import opened Bytes
  import opened Pipes
  import opened KernelState
  import opened KernelInv
  import opened KernelSteps
  import opened KernelLife
  import opened KernelBlock
  import opened KernelSched
  import opened KernelRuns
  import opened KernelTheorems
  import opened KernelCalls
  import opened KernelFates
  import opened KernelHistory

  // ---- the running task itself ----------------------------------------------------------------

  /** A signal that can end task `t` during `call`: fatal, at its default action, and pending or sent to itself. */
  ghost predicate DiesOf(t: Task, call: Option<Call>, sig: nat) {
    && sig < NSIG == |t.handlers| && Fatal(sig) && t.handlers[sig] == Default
    && (sig in t.sig || call == Some(SysKill(t.pid, sig)))
  }

  /** The running task got this status through this call. */
  ghost predicate EndedIn(t: Task, call: Option<Call>, status: int) {
    call == Some(SysExit(status)) || exists sig: nat :: DiesOf(t, call, sig) && status == 0 - sig
  }

  /** The same task, alive or with the status it had, or ended just now. */
  ghost predicate Continues(t: Task, t': Task, call: Option<Call>) {
    && t'.pid == t.pid && t'.parent == t.parent
    && (t'.zombie ==> (t.zombie && t'.status == t.status) || EndedIn(t, call, t'.status))
  }

  lemma KeptContinues(t: Task, t': Task, call: Option<Call>)
    requires t'.pid == t.pid && t'.parent == t.parent && t'.zombie == t.zombie && t'.status == t.status
    ensures Continues(t, t', call)
  {
  }

  lemma KillOwn(s: State, pid: int, sig: nat)
    requires Inv(s) && Cur(s).at == User && |Cur(s).handlers| == NSIG
    ensures var g := Kill(s, pid, sig);
      |g.s.tasks| == |s.tasks| && g.s.current == s.current && Continues(Cur(s), Cur(g.s), Some(SysKill(pid, sig)))
  {
    hide Good, AllParked, Kill, From, NoFds;
    var i, k := KillMeans(s, pid, sig);
    var g := Kill(s, pid, sig);
    if 0 < sig < NSIG && Known(s, pid) && i == s.current && g.switches {
      assert DiesOf(Cur(s), Some(SysKill(pid, sig)), k);
    }
  }

  lemma BodyOwn(s: State, call: Call, ints: Ints)
    requires Inv(s) && Shaped(s) && Cur(s).at == User
    ensures var g := Body(s, call, ints);
      |g.s.tasks| == |s.tasks| && g.s.current == s.current && Continues(Cur(s), Cur(g.s), Some(call))
  {
    hide Good, AllParked, Continues, Bystanders, PipeRead, PipeWrite, Fork, Kill, DoDup2, SysPipeBody, Waitpid, FdPut,
      Exit,
      RingsKept, Slots, FdSlots, InFlight, RingOk, NoTask, LowestUnused;
    InCall(s);
    var g, t := Body(s, call, ints), Cur(s);
    KeptContinues(t, t, Some(call));
    match call {
      case SysPipe(addr) => PipeOwn(s, addr);
      case SysOpen(inode) => OpenMeans(s, inode, ints); KeptContinues(t, Cur(g.s), Some(call));
      case SysDup(fd) => DupOwn(s, fd, ints);
      case SysDup2(oldfd, newfd) => Dup2Own(s, oldfd, newfd);
      case SysClose(fd) => CloseOwn(s, fd, ints);
      case SysRead(fd, n) =>
        if FdGet(t, fd) && t.fds[fd].pipe in s.pipes {
          PipeReadFate(s, fd, t.fds[fd].pipe, n, ints, s.current);
          KeptContinues(t, Cur(g.s), Some(call));
        }
      case SysWrite(fd, d) =>
        if FdGet(t, fd) && t.fds[fd].pipe in s.pipes {
          PipeWriteFate(s, fd, t.fds[fd].pipe, d, 0, ints, s.current);
          KeptContinues(t, Cur(g.s), Some(call));
        }
      case SysFork(memory) =>
        ForkFate(s, memory, s.current);
        KeptContinues(t, Cur(g.s), Some(call));
      case SysExit(code) => ExitOwn(s, code);
      case SysWaitpid(pid) => WaitpidOwn(s, pid);
      case SysKill(pid, sig) => KillOwn(s, pid, sig);
      case SysSignal(sig, action) => KeptContinues(t, Cur(g.s), Some(call));
      case SysYield =>
    }
  }

  lemma PipeOwn(s: State, addr: nat)
    requires Inv(s) && Cur(s).at == User
    ensures var r := SysPipeBody(s, addr).s;
      |r.tasks| == |s.tasks| && r.current == s.current && Continues(Cur(s), Cur(r), Some(SysPipe(addr)))
  {
    hide Good, AllParked, InFlight, RingOk;
    if addr != 0 && addr !in s.pipes { PipeMeans(s, addr); }
  }

  lemma DupOwn(s: State, fd: int, ints: Ints)
    requires Inv(s) && Shaped(s) && Cur(s).at == User
    ensures var r := Body(s, SysDup(fd), ints).s;
      |r.tasks| == |s.tasks| && r.current == s.current && Continues(Cur(s), Cur(r), Some(SysDup(fd)))
  {
    hide Inv, Body, RingsKept;
    DupMeans(s, fd, ints);
  }

  lemma Dup2Own(s: State, oldfd: int, newfd: int)
    requires Inv(s) && Cur(s).at == User
    ensures var r := DoDup2(s, oldfd, newfd).s;
      |r.tasks| == |s.tasks| && r.current == s.current && Continues(Cur(s), Cur(r), Some(SysDup2(oldfd, newfd)))
  {
    hide Good, AllParked, DoDup2, RingsKept;
    Dup2Means(s, oldfd, newfd);
  }

  lemma CloseOwn(s: State, fd: int, ints: Ints)
    requires Inv(s) && Shaped(s) && Cur(s).at == User
    ensures var r := Body(s, SysClose(fd), ints).s;
      |r.tasks| == |s.tasks| && r.current == s.current && Continues(Cur(s), Cur(r), Some(SysClose(fd)))
  {
    hide Inv, Body, RingsKept;
    CloseMeans(s, fd, ints);
  }

  lemma ExitOwn(s: State, code: int)
    requires Inv(s) && Cur(s).at == User
    ensures var r := Exit(s, code).s;
      |r.tasks| == |s.tasks| && r.current == s.current && Continues(Cur(s), Cur(r), Some(SysExit(code)))
  {
    hide Good, AllParked, Exit;
    ExitMeans(s, code);
  }

  lemma WaitpidOwn(s: State, pid: int)
    requires Inv(s) && s.current != 0 && Cur(s).waitPipe == 0
    ensures var r := Waitpid(s, pid).s;
      && |r.tasks| == |s.tasks| && r.current == s.current && Continues(Cur(s), Cur(r), Some(SysWaitpid(pid)))
      && Kept(Cur(s), Cur(r)) && !Cur(r).at.Entered?
  {
    hide Good, AllParked, Waitpid, RingsKept;
    var i := WaitpidMeans(s, pid);
  }

  /** What gave the running task its status in this step. */
  ghost predicate OwnCause(s: State, c: Cmd, status: int)
    requires Shaped(s)
  {
    EndedIn(Cur(s), Acting(s, c), status) || (c.Fault? && Cur(s).at == User && status == 0 - SIGSEGV)
  }

  ghost predicate OwnFate(s: State, c: Cmd, t': Task)
    requires Shaped(s)
  {
    && t'.pid == Cur(s).pid && t'.parent == Cur(s).parent
    && (t'.zombie ==> (Cur(s).zombie && t'.status == Cur(s).status) || OwnCause(s, c, t'.status))
  }

  lemma EnterOwn(s: State, call: Call, preempt: bool)
    requires Inv(s) && Shaped(s)
    ensures var c := Enter(call, preempt);
      var g := Run(s, c);
      |g.s.tasks| == |s.tasks| && g.s.current == s.current && OwnFate(s, c, Cur(g.s))
  {
    hide Good, AllParked, Deliver, Body, NoFds, RingsKept;
    if Cur(s).at == User {
      var k := DeliverMeans(s);
      var d := Deliver(s);
      if d.switches {
        assert DiesOf(Cur(s), None, k);
      } else if !preempt {
        PendingInv(s, Cur(d.s).sig);
        InvShaped(d.s);
        BodyOwn(d.s, call, []);
        var st := Cur(Body(d.s, call, []).s).status;
        if sig: nat :| DiesOf(Cur(d.s), Some(call), sig) && st == 0 - sig { assert DiesOf(Cur(s), Some(call), sig); }
      }
    }
  }

  lemma ContinueOwn(s: State, ints: Ints)
    requires Inv(s) && Shaped(s)
    ensures var g := Continue(s, ints);
      && |g.s.tasks| == |s.tasks| && g.s.current == s.current
      && Continues(Cur(s), Cur(g.s), if Cur(s).at.Entered? then Some(Cur(s).at.call) else None)
      && (!Cur(s).at.Entered? ==> Kept(Cur(s), Cur(g.s)) && !Cur(g.s).at.Entered?)
  {
    assert Parked(Cur(s));
    assert s.current == 0 ==> Cur(s).at == Idling;
    hide Good, AllParked, Body, PipeRead, PipeWrite, Waitpid;
    match Cur(s).at {
      case Entered(call) =>
        BackToUser(s, NoReply);
        var m := SetCur(s, Cur(s).(at := User));
        InvShaped(m);
        BodyOwn(m, call, ints);
        var st := Cur(Body(m, call, ints).s).status;
        if sig: nat :| DiesOf(Cur(m), Some(call), sig) && st == 0 - sig { assert DiesOf(Cur(s), Some(call), sig); }
      case Reading(fd, p, n) =>
        if p in s.pipes { PipeReadFate(SetCur(s, Cur(s).(waitPipe := 0)), fd, p, n, ints, s.current); }
      case Writing(fd, p, d, done) =>
        if p in s.pipes { PipeWriteFate(SetCur(s, Cur(s).(waitPipe := 0)), fd, p, d, done, ints, s.current); }
      case Waiting(pid) => WaitpidOwn(s, pid);
      case _ =>
    }
  }

  /** The running task after one segment. */
  lemma RunOwn(s: State, c: Cmd)
    requires Inv(s) && Shaped(s)
    ensures var g := Run(s, c);
      |g.s.tasks| == |s.tasks| && g.s.current == s.current && OwnFate(s, c, Cur(g.s))
  {
    hide Good, AllParked, Deliver, Body, Continue, RaiseSigint, Exit, EndedIn;
    match c {
      case Enter(call, preempt) => EnterOwn(s, call, preempt);
      case Resume(ints, late) =>
        ContinueOwn(s, ints);
        RaiseMarked(Continue(s, ints).s, late, s.current);
      case Fault => if Cur(s).at == User { ExitMeans(s, 0 - SIGSEGV); }
      case Sigint(group) => RaiseMarked(s, group, s.current);
      case Nudge(i) =>
      case IdleTick =>
    }
  }

  // ---- exit statuses --------------------------------------------------------------------------

  /** What gave slot `i` its status in this step: its own doing, or SIGKILL from somebody else. */
  ghost predicate Cause(s: State, c: Cmd, i: nat, status: int)
    requires Shaped(s) && i < |s.tasks|
  {
    if i == s.current then OwnCause(s, c, status)
    else Acting(s, c) == Some(SysKill(s.tasks[i].pid, SIGKILL)) && status == 0 - SIGKILL
  }

  lemma YieldTask(s: State, i: nat)
    requires s.current < |s.tasks| && i < |s.tasks|
    ensures |Yield(s).tasks| == |s.tasks|
    ensures var t, t' := s.tasks[i], Yield(s).tasks[i];
      t' == t.(state := t'.state) && (t.state == Free ==> t'.state == Free)
  {
    hide ScanFrom;
    var k := ScanFirst(s.tasks, s.current, 1);
  }

  lemma StepTask(s: State, c: Cmd, i: nat)
    requires Inv(s) && Shaped(s) && i < |s.tasks|
    ensures var g := Run(s, c);
      && |Step(s, c).tasks| == |g.s.tasks| == |s.tasks|
      && var t, t' := g.s.tasks[i], Step(s, c).tasks[i];
         t' == t.(state := t'.state) && (t.state == Free ==> t'.state == Free)
  {
    hide Run, Inv, Yield, OwnFate;
    RunOwn(s, c);
    if Run(s, c).switches { YieldTask(Run(s, c).s, i); }
  }

  /** A zombie was one before, with that status, or something in this step made it one. */
  lemma StatusStep(s: State, c: Cmd, i: nat)
    requires Inv(s) && Shaped(s) && i < |s.tasks| && |Step(s, c).tasks| == |s.tasks|
    ensures var t, t' := s.tasks[i], Step(s, c).tasks[i];
      t'.state != Free && t'.zombie ==>
        && t.state != Free && t.pid == t'.pid
        && ((t.zombie && t.status == t'.status) || Cause(s, c, i, t'.status))
  {
    assert Cur(s).state != Free;
    hide Inv, Run, Step, Acting, OwnCause, NoTask;
    StepTask(s, c, i);
    if i == s.current {
      RunOwn(s, c);
    } else {
      OthersFate(s, c, i);
      NoTaskFree();
    }
  }

  lemma NoTaskFree()
    ensures NoTask().state == Free
  {
  }

  /** At step `k` of the run task `pid` in slot `i` got this status. */
  ghost predicate CauseAt(s: State, cmds: seq<Cmd>, k: nat, i: nat, pid: int, status: int)
    requires Inv(s)
  {
    && k < |cmds| && i < MAX_TASKS
    && var m := Exec(s, cmds[..k]);
       Shaped(m) && m.tasks[i].state != Free && m.tasks[i].pid == pid && Cause(m, cmds[k], i, status)
  }

  lemma {:induction false} StatusOver(s: State, cmds: seq<Cmd>, i: nat)
    requires Inv(s) && i < MAX_TASKS
    ensures |Exec(s, cmds).tasks| == MAX_TASKS == |s.tasks|
    ensures var t := Exec(s, cmds).tasks[i];
      t.state != Free && t.zombie ==>
        || (s.tasks[i].state != Free && s.tasks[i].zombie && s.tasks[i].pid == t.pid && s.tasks[i].status == t.status)
        || exists k: nat :: CauseAt(s, cmds, k, i, t.pid, t.status)
    decreases |cmds|
  {
    hide Good, AllParked, Step, Later, Cause;
    TablesOk(s);
    TablesOk(Exec(s, cmds));
    if cmds != [] {
      var front, c := cmds[..|cmds| - 1], cmds[|cmds| - 1];
      StatusOver(s, front, i);
      var m := Exec(s, front);
      InvShaped(m);
      StatusStep(m, c, i);
      var t := Exec(s, cmds).tasks[i];
      if t.state != Free && t.zombie {
        if Cause(m, c, i, t.status) {
          assert CauseAt(s, cmds, |front|, i, t.pid, t.status);
        } else if k: nat :| CauseAt(s, front, k, i, t.pid, t.status) {
          assert front[..k] == cmds[..k];
          assert CauseAt(s, cmds, k, i, t.pid, t.status);
        }
      }
    }
  }

  /**
   In every reachable state the status of a zombie is what its own exit passed, minus the fatal
   signal that ended it, minus SIGSEGV after a fault, or minus SIGKILL when somebody sent it.
   */
  lemma StatusesAreTrue(parents: seq<int>, cmds: seq<Cmd>, i: nat)
    requires BootParents(parents) && i < MAX_TASKS
    ensures Inv(Boot(parents))
    ensures var t := Reached(parents, cmds).tasks[i];
      t.state != Free && t.zombie ==> exists k: nat :: CauseAt(Boot(parents), cmds, k, i, t.pid, t.status)
  {
    hide Inv, Exec;
    BootInv(parents);
    NobodyDeadAtBoot(parents, i);
    StatusOver(Boot(parents), cmds, i);
  }

  lemma NobodyDeadAtBoot(parents: seq<int>, i: nat)
    requires BootParents(parents) && i < MAX_TASKS
    ensures |Boot(parents).tasks| == MAX_TASKS && !Boot(parents).tasks[i].zombie
  {
  }

  /** The reply reports the zombie in slot `i`, a child of the running task. */
  ghost predicate Reports(s: State, reply: Reply, i: nat)
    requires s.current < |s.tasks|
  {
    && i < |s.tasks| && s.tasks[i].state != Free && s.tasks[i].zombie && s.tasks[i].parent == Cur(s).pid
    && reply == Reaped(s.tasks[i].pid, s.tasks[i].status)
  }

  /** Only waitpid reports a child, and the child it reports is a zombie of the caller's. */
  lemma ReportIsZombie(s: State, c: Cmd) returns (i: nat)
    requires Inv(s) && Shaped(s)
    ensures Run(s, c).reply.Reaped? ==> Reports(s, Run(s, c).reply, i)
  {
    hide Good, AllParked, Deliver, Body, Continue, RaiseSigint, Exit, Ended;
    i := 0;
    match c {
      case Enter(call, preempt) => if Cur(s).at == User { i := EnterReport(s, call, preempt); }
      case Resume(ints, late) => i := ResumeReport(s, ints);
      case Fault => if Cur(s).at == User { ExitMeans(s, 0 - SIGSEGV); }
      case _ =>
    }
  }

  lemma EnterReport(s: State, call: Call, preempt: bool) returns (i: nat)
    requires Inv(s) && Shaped(s) && Cur(s).at == User
    ensures var r := Run(s, Enter(call, preempt)).reply; r.Reaped? ==> Reports(s, r, i)
  {
    hide Good, AllParked, Deliver, Body, From, Stops, NoFds, Ended, RingsKept;
    i := 0;
    var k := DeliverMeans(s);
    var d := Deliver(s);
    if !d.switches && !preempt {
      PendingInv(s, Cur(d.s).sig);
      InvShaped(d.s);
      i := BodyReport(d.s, call, []);
    }
  }

  lemma ResumeReport(s: State, ints: Ints) returns (i: nat)
    requires Inv(s) && Shaped(s)
    ensures var r := Continue(s, ints).reply; r.Reaped? ==> Reports(s, r, i)
  {
    assert Parked(Cur(s));
    assert s.current == 0 ==> Cur(s).at == Idling;
    hide Good, AllParked, Body, PipeRead, PipeWrite, Waitpid, RingsKept, Bystander, NoTask;
    i := 0;
    match Cur(s).at {
      case Entered(call) =>
        BackToUser(s, NoReply);
        var m := SetCur(s, Cur(s).(at := User));
        InvShaped(m);
        i := BodyReport(m, call, ints);
      case Waiting(pid) => i := WaitpidMeans(s, pid);
      case Reading(fd, p, n) =>
        if p in s.pipes { ReadReplies(SetCur(s, Cur(s).(waitPipe := 0)), fd, p, n, ints); }
      case _ =>
    }
  }

  lemma ReadReplies(s: State, fd: nat, p: nat, n: nat, ints: Ints)
    requires s.current < |s.tasks| && p in s.pipes && RingOk(s.pipes[p])
    ensures !PipeRead(s, fd, p, n, ints).reply.Reaped?
  {
  }

  lemma BodyReport(s: State, call: Call, ints: Ints) returns (i: nat)
    requires Inv(s) && Shaped(s) && Cur(s).at == User
    ensures var r := Body(s, call, ints).reply; r.Reaped? ==> Reports(s, r, i)
  {
    hide Good, AllParked, PipeRead, PipeWrite, Waitpid, Deliver, FdPut, RefAll, NoFds, RingsKept, Bystander, NoTask,
      Ended;
    InCall(s);
    i := 0;
    match call {
      case SysWaitpid(pid) => i := WaitpidMeans(s, pid);
      case SysRead(fd, n) =>
        if FdGet(Cur(s), fd) && Cur(s).fds[fd].pipe in s.pipes { ReadReplies(s, fd, Cur(s).fds[fd].pipe, n, ints); }
      case SysKill(pid, sig) => var a, b := KillMeans(s, pid, sig);
      case _ =>
    }
  }

  /** Whenever waitpid reports a child, over any run, the status is the one that child ended with. */
  lemma WaitpidTellsTruth(parents: seq<int>, cmds: seq<Cmd>, c: Cmd) returns (i: nat)
    requires BootParents(parents)
    ensures Inv(Boot(parents)) && Shaped(Reached(parents, cmds))
    ensures var r := Run(Reached(parents, cmds), c).reply;
      r.Reaped? ==> exists k: nat :: CauseAt(Boot(parents), cmds, k, i, r.pid, r.status)
  {
    hide Inv, Exec, Run;
    BootInv(parents);
    var s := Reached(parents, cmds);
    InvShaped(s);
    i := ReportIsZombie(s, c);
    if Run(s, c).reply.Reaped? { StatusesAreTrue(parents, cmds, i); }
  }

  // ---- fatal signals -------------------------------------------------------------------------

  /** A fatal signal at its default action is pending, no lower one is caught, and no call is under way. */
  ghost predicate Doomed(t: Task, sig: nat) {
    && sig < NSIG == |t.handlers| && sig in t.sig && Fatal(sig) && t.handlers[sig] == Default
    && (forall j :: 0 <= j < sig ==> !t.handlers[j].Handler?)
    && !t.at.Entered?
  }

  lemma DoomedKept(t: Task, t': Task, sig: nat)
    requires Doomed(t, sig) && t'.handlers == t.handlers && t.sig <= t'.sig && !t'.at.Entered?
    ensures Doomed(t', sig)
  {
  }

  /** A doomed task that makes a system call gets no answer and is a zombie afterwards. */
  lemma DoomedEnds(s: State, call: Call, preempt: bool, sig: nat)
    requires Inv(s) && Shaped(s) && Cur(s).at == User && Doomed(Cur(s), sig)
    ensures var g := Run(s, Enter(call, preempt));
      && g.switches && g.reply == NoReply && g.s.current == s.current < |g.s.tasks|
      && Cur(g.s).zombie && Cur(g.s).at == Dead && Doomed(Cur(g.s), sig) && Cur(g.s).pid == Cur(s).pid
      && exists k: nat :: k <= sig && DiesOf(Cur(s), None, k) && Cur(g.s).status == 0 - k
  {
    hide Good, AllParked, Deliver, Body, RingsKept;
    var k := DeliverMeans(s);
    assert Stops(Cur(s), sig);
    assert k <= sig && DiesOf(Cur(s), None, k);
  }

  lemma DoomedOwn(s: State, c: Cmd, sig: nat)
    requires Inv(s) && Shaped(s) && Doomed(Cur(s), sig)
    ensures var g := Run(s, c);
      |g.s.tasks| == |s.tasks| && g.s.current == s.current && Cur(g.s).pid == Cur(s).pid && Doomed(Cur(g.s), sig)
  {
    hide Good, AllParked, Deliver, Body, Continue, RaiseSigint, Exit, Doomed, OwnFate;
    RunOwn(s, c);
    match c {
      case Enter(call, preempt) => if Cur(s).at == User { DoomedEnds(s, call, preempt, sig); }
      case Resume(ints, late) =>
        DoomedAt(Cur(s), sig);
        ContinueOwn(s, ints);
        var m := Continue(s, ints).s;
        RaiseMarked(m, late, s.current);
        DoomedKept(Cur(s), RaiseSigint(m, late).tasks[s.current], sig);
      case Fault =>
        if Cur(s).at == User {
          ExitMeans(s, 0 - SIGSEGV);
          DoomedKept(Cur(s), Cur(Exit(s, 0 - SIGSEGV).s), sig);
        }
      case Sigint(group) =>
        DoomedAt(Cur(s), sig);
        RaiseMarked(s, group, s.current);
        DoomedKept(Cur(s), RaiseSigint(s, group).tasks[s.current], sig);
      case Nudge(i) =>
      case IdleTick =>
    }
  }

  lemma DoomedAt(t: Task, sig: nat)
    requires Doomed(t, sig)
    ensures !t.at.Entered?
  {
  }

  lemma DoomedStep(s: State, c: Cmd, i: nat, sig: nat)
    requires Inv(s) && Shaped(s) && i < |s.tasks| && |Step(s, c).tasks| == |s.tasks|
    requires s.tasks[i].state != Free && Doomed(s.tasks[i], sig)
    ensures var t, t' := s.tasks[i], Step(s, c).tasks[i]; t'.state == Free || (t'.pid == t.pid && Doomed(t', sig))
  {
    hide Inv, Run, Step, Acting, Doomed, NoTask;
    StepTask(s, c, i);
    if i == s.current {
      DoomedOwn(s, c, sig);
      DoomedState(Cur(Run(s, c).s), Step(s, c).tasks[i].state, sig);
    } else {
      OthersFate(s, c, i);
      NoTaskFree();
      DoomedAt(s.tasks[i], sig);
      var t' := Step(s, c).tasks[i];
      if t'.state != Free { DoomedKept(s.tasks[i], t', sig); }
    }
  }

  lemma DoomedState(t: Task, state: RunState, sig: nat)
    requires Doomed(t, sig)
    ensures Doomed(t.(state := state), sig)
  {
  }

  /**
   Whatever anybody does, a task with a fatal signal pending keeps it until it is reaped, so its next
   system call is its end (`DoomedEnds`).
   */
  lemma {:induction false} DoomedForever(s: State, cmds: seq<Cmd>, i: nat, sig: nat)
    requires Inv(s) && i < MAX_TASKS && i < |s.tasks| && s.tasks[i].state != Free && Doomed(s.tasks[i], sig)
    ensures |Exec(s, cmds).tasks| == MAX_TASKS
    ensures var t := Exec(s, cmds).tasks[i];
      t.state == Free || t.pid != s.tasks[i].pid || Doomed(t, sig)
    decreases |cmds|
  {
    hide Good, AllParked, Step, Doomed, Later;
    TablesOk(Exec(s, cmds));
    if cmds != [] {
      var front, c := cmds[..|cmds| - 1], cmds[|cmds| - 1];
      DoomedForever(s, front, i, sig);
      var m := Exec(s, front);
      InvShaped(m);
      StepKeeps(m, c);
      PidNeverBack(s, m, Exec(s, cmds), i);
      if m.tasks[i].state != Free && m.tasks[i].pid == s.tasks[i].pid { DoomedStep(m, c, i, sig); }
    }
  }

  /** A pid that has left its slot does not come back to it. */
  lemma PidNeverBack(s: State, m: State, r: State, i: nat)
    requires Inv(s) && Later(s, m) && Later(m, r) && i < |s.tasks| && s.tasks[i].state != Free
    ensures |m.tasks| == |r.tasks| == |s.tasks|
    ensures r.tasks[i].state != Free && r.tasks[i].pid == s.tasks[i].pid ==>
      m.tasks[i].state != Free && m.tasks[i].pid == s.tasks[i].pid
  {
    hide StreamsOk, SlotsCounted, NoMissedChild, TaskOk;
    assert i == 0 || PidOk(s.tasks[i], s.nextPid);
    assert TaskLater(s.tasks[i], m.tasks[i], s.nextPid) && TaskLater(m.tasks[i], r.tasks[i], m.nextPid);
  }
}

/** The invariant over every run, and what it says about pipes, processes and the scheduler. */
module KernelRuns {
  import opened Bytes
  import opened Pipes
  import opened KernelState
  import opened KernelInv
  import opened KernelSteps
  import opened KernelLife
  import opened KernelShare
  import opened KernelFork
  import opened KernelInterrupt
  import opened KernelBlock
  import opened KernelSignal
  import opened KernelSched

  // ---- every command keeps the invariant ---------------------------------

  lemma InvShaped(s: State)
    requires Inv(s)
    ensures Shaped(s)
  {
    forall i | 0 <= i < MAX_TASKS ensures |s.tasks[i].fds| == MAX_FDS && |s.tasks[i].handlers| == NSIG {
      assert TaskOk(s.tasks[i], s.pipes);
    }
    forall p | p in s.pipes ensures RingOk(s.pipes[p]) { assert StreamOk(s.pipes[p]); }
  }

  lemma OpenKeeps(s: State, fd: nat, inode: nat)
    requires Inv(s) && Cur(s).at == User && fd < MAX_FDS && !InUse(Cur(s).fds[fd]) && inode != 0
    ensures SegmentOk(s, Segment(SetFd(s, s.current, fd, NO_FILE.(node := inode)), false, Value(fd)))
  {
    var f := NO_FILE.(node := inode);
    var r := SetFd(s, s.current, fd, f);
    forall p | p in s.pipes ensures CountsOk(r.tasks, p, s.pipes[p]) {
      assert CountsOk(s.tasks, p, s.pipes[p]);
      SlotCount(s.tasks, s.current, fd, f, p, ReadEnd);
      SlotCount(s.tasks, s.current, fd, f, p, WriteEnd);
    }
    NewPipeTasks(s, s.current, s.pipes, r.tasks);
    hide TasksOk, SlotsCounted, StreamsOk, TasksLater, PipesLater;
    assert Later(s, r) by { LaterReflexive(s); }
    OwnOnlyEnds(s, r, Value(fd));
  }

  lemma CloseKeeps(s: State, fd: nat)
    requires Inv(s) && Cur(s).at == User && fd < MAX_FDS
    ensures SegmentOk(s, Segment(FdPut(s, s.current, fd), false, Value(0)))
  {
    FdPutKeeps(s, s.current, fd);
    hide FdPut;
    OwnOnlyEnds(s, FdPut(s, s.current, fd), Value(0));
  }

  lemma SignalKeeps(s: State, sig: nat, action: Action)
    requires Inv(s) && Cur(s).at == User && sig < NSIG
    ensures |Cur(s).handlers| == NSIG
    ensures SegmentOk(s, Signal(s, sig, action))
  {
    assert TaskOk(Cur(s), s.pipes);
    QuietKeeps(s, s.current, Cur(s).(handlers := Cur(s).handlers[sig := action]));
  }

  lemma StayKeeps(s: State, switches: bool, reply: Reply)
    requires Inv(s)
    ensures SegmentOk(s, Segment(s, switches, reply))
  {
    LaterReflexive(s);
  }

  lemma BodyKeeps(s: State, c: Call, ints: Ints)
    requires Inv(s) && Shaped(s) && Cur(s).at == User
    ensures SegmentOk(s, Body(s, c, ints))
  {
    hide Inv, SegmentOk, Shaped, PipeRead, PipeWrite, Fork, Kill, DoDup2, SysPipeBody, Waitpid, FdPut;
    InCall(s);
    StayKeeps(s, false, Value(-1));
    StayKeeps(s, false, NoReply);
    match c {
      case SysPipe(addr) => SysPipeKeeps(s, addr);
      case SysOpen(inode) =>
        var fd := FdAlloc(Cur(s).fds, 0);
        if inode != 0 && fd < MAX_FDS { OpenKeeps(s, fd, inode); }
      case SysDup(fd) =>
        var newfd := FdAlloc(Cur(s).fds, 0);
        if FdGet(Cur(s), fd) && newfd < MAX_FDS { DoDup2Keeps(s, fd, newfd); }
      case SysDup2(oldfd, newfd) => DoDup2Keeps(s, oldfd, newfd);
      case SysClose(fd) => if FdGet(Cur(s), fd) { CloseKeeps(s, fd); }
      case SysRead(fd, n) =>
        if FdGet(Cur(s), fd) && n > 0 && Cur(s).fds[fd].rd && Cur(s).fds[fd].pipe in s.pipes {
          ReadKeeps(s, fd, n, ints);
        }
      case SysWrite(fd, d) =>
        StayKeeps(s, false, Value(|d|));
        if FdGet(Cur(s), fd) && d != [] && Cur(s).fds[fd].wr && Cur(s).fds[fd].pipe in s.pipes {
          WriteKeeps(s, fd, d, ints);
        }
      case SysFork(memory) => ForkKeeps(s, memory);
      case SysExit(code) => ExitKeeps(s, code);
      case SysWaitpid(pid) => WaitpidKeeps(s, pid);
      case SysKill(pid, sig) => KillKeeps(s, pid, sig);
      case SysSignal(sig, action) => if sig < NSIG { SignalKeeps(s, sig, action); }
      case SysYield => StayKeeps(s, true, Value(0));
    }
  }

  lemma InCall(s: State)
    requires Inv(s) && Shaped(s) && Cur(s).at == User
    ensures |s.tasks| == MAX_TASKS && 0 < s.current < MAX_TASKS && Cur(s).waitPipe == 0 && |Cur(s).fds| == MAX_FDS
    ensures forall p <- s.pipes :: RingOk(s.pipes[p])
  {
    assert Parked(Cur(s));
    TablesOk(s);
  }

  lemma ReadKeeps(s: State, fd: nat, n: nat, ints: Ints)
    requires Inv(s) && s.current != 0 && Cur(s).waitPipe == 0
    requires fd < |Cur(s).fds| && n > 0 && Cur(s).fds[fd].rd && Cur(s).fds[fd].pipe in s.pipes
    requires RingOk(s.pipes[Cur(s).fds[fd].pipe])
    ensures SegmentOk(s, PipeRead(s, fd, Cur(s).fds[fd].pipe, n, ints))
  {
    PipeReadKeeps(s, fd, Cur(s).fds[fd].pipe, n, ints);
  }

  lemma WriteKeeps(s: State, fd: nat, d: seq<byte>, ints: Ints)
    requires Inv(s) && s.current != 0 && Cur(s).waitPipe == 0
    requires fd < |Cur(s).fds| && Cur(s).fds[fd].wr && Cur(s).fds[fd].pipe in s.pipes
    requires RingOk(s.pipes[Cur(s).fds[fd].pipe])
    ensures SegmentOk(s, PipeWrite(s, fd, Cur(s).fds[fd].pipe, d, 0, ints))
  {
    PipeWriteKeeps(s, fd, Cur(s).fds[fd].pipe, d, 0, ints);
  }

  lemma ExitKeeps(s: State, code: int)
    requires Inv(s) && Cur(s).at == User
    ensures SegmentOk(s, Exit(s, code))
  {
    BuryKeeps(s, code);
  }

  /** Whatever the current task was doing, clearing its wait mark first changes nothing for the others. */
  lemma UnmarkKeeps(s: State)
    requires Inv(s) && s.current != 0
    ensures var m := SetCur(s, Cur(s).(waitPipe := 0)); Inv(m) && Later(s, m) && Local(s, m)
  {
    assert TaskOk(Cur(s), s.pipes);
    hide StreamsOk, SlotsCounted, PidsOk, NoMissedChild, PipesLater, TasksLater;
    QuietKeeps(s, s.current, Cur(s).(waitPipe := 0));
  }

  lemma ContinueKeeps(s: State, ints: Ints)
    requires Inv(s) && Shaped(s)
    ensures SegmentOk(s, Continue(s, ints))
  {
    StayKeeps(s, false, NoReply);
    assert Parked(Cur(s));
    assert s.current == 0 ==> Cur(s).at == Idling;
    hide SegmentOk, PipeRead, PipeWrite, Waitpid, Body, Good, AllParked;
    match Cur(s).at {
      case Entered(c) =>
        var m := SetCur(s, Cur(s).(at := User));
        BackToUser(s, NoReply);
        InvShaped(m);
        BodyKeeps(m, c, ints);
        FromUser(s, Body(m, c, ints));
      case Reading(fd, p, n) =>
        if p in s.pipes {
          UnmarkKeeps(s);
          var m := SetCur(s, Cur(s).(waitPipe := 0));
          PipeReadKeeps(m, fd, p, n, ints);
          LocalThen(s, m, PipeRead(m, fd, p, n, ints));
        }
      case Writing(fd, p, d, done) =>
        if p in s.pipes {
          UnmarkKeeps(s);
          var m := SetCur(s, Cur(s).(waitPipe := 0));
          PipeWriteKeeps(m, fd, p, d, done, ints);
          LocalThen(s, m, PipeWrite(m, fd, p, d, done, ints));
        }
      case Waiting(pid) => WaitpidKeeps(s, pid);
      case _ =>
    }
  }

  lemma FromUser(s: State, g: Segment)
    requires Inv(s) && s.current != 0 && Cur(s).waitPipe == 0
    requires SegmentOk(SetCur(s, Cur(s).(at := User)), g)
    ensures SegmentOk(s, g)
  {
    BackToUser(s, NoReply);
    hide Good, AllParked;
    LocalThen(s, SetCur(s, Cur(s).(at := User)), g);
  }

  lemma PreemptKeeps(s: State, c: Call)
    requires Inv(s) && Cur(s).at == User
    ensures SegmentOk(s, Segment(SetCur(s, Cur(s).(at := Entered(c))), true, NoReply))
  {
    assert TaskOk(Cur(s), s.pipes);
    hide StreamsOk, SlotsCounted, PidsOk, NoMissedChild, PipesLater, TasksLater;
    QuietKeeps(s, s.current, Cur(s).(at := Entered(c)));
  }

  lemma RunKeeps(s: State, c: Cmd)
    requires Inv(s) && Shaped(s)
    ensures SegmentOk(s, Run(s, c))
  {
    StayKeeps(s, false, NoReply);
    hide SegmentOk, Good, AllParked, Body, Continue, Deliver, RaiseSigint, Exit;
    match c {
      case Enter(call, preempt) =>
        if Cur(s).at == User {
          DeliverKeeps(s);
          var d := Deliver(s);
          if !d.switches {
            SegmentLocal(s, d);
            if preempt {
              PreemptKeeps(d.s, call);
              LocalThen(s, d.s, Segment(SetCur(d.s, Cur(d.s).(at := Entered(call))), true, NoReply));
            } else {
              InvShaped(d.s);
              BodyKeeps(d.s, call, []);
              LocalThen(s, d.s, Body(d.s, call, []));
            }
          }
        }
      case Resume(ints, late) =>
        ContinueKeeps(s, ints);
        LateKeeps(s, Continue(s, ints), late);
      case Fault => if Cur(s).at == User { ExitKeeps(s, 0 - SIGSEGV); }
      case Sigint(group) => SigintKeeps(s, group);
      case Nudge(i) => if i < |s.tasks| { NudgeKeeps(s, i); }
      case IdleTick => StayKeeps(s, true, NoReply);
    }
  }

  lemma SegmentLocal(s: State, g: Segment)
    requires SegmentOk(s, g)
    ensures Later(s, g.s) && Local(s, g.s)
  {
  }

  lemma NudgeKeeps(s: State, i: nat)
    requires Inv(s) && i < MAX_TASKS
    ensures SegmentOk(s, Segment(SetTask(s, i, Wake(s.tasks[i])), false, NoReply))
  {
    WakeOneKeeps(s, i);
    hide Good, Later;
    RemoteEnds(s, SetTask(s, i, Wake(s.tasks[i])), NoReply);
  }

  lemma StepKeeps(s: State, c: Cmd)
    requires Inv(s) && Shaped(s)
    ensures Inv(Step(s, c)) && Later(s, Step(s, c))
  {
    RunKeeps(s, c);
    var g := Run(s, c);
    hide Run;
    if g.switches { YieldKeeps(s, g); } else { SegmentInv(s, g); }
  }

  lemma SegmentInv(s: State, g: Segment)
    requires Inv(s) && SegmentOk(s, g) && !g.switches
    ensures Inv(g.s) && Later(s, g.s)
  {
    hide Good, Later, AllParked;
  }
}

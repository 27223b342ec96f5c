/** A Ctrl+C is missed only between a test of a pipe loop and the park: nothing else touches that history. */
module KernelMissed {
  import opened Bytes
  import opened Pipes
  import opened KernelState

  /** No Ctrl+C for slot `i` comes between the tests of a pipe loop. */
  predicate SparesAll(ints: Ints, i: nat) {
    forall k :: 0 <= k < |ints| ==> i !in ints[k]
  }

  predicate Spares(c: Cmd, i: nat) {
    c.Resume? ==> SparesAll(c.ints, i)
  }

  /** Slot `i` has missed nothing more in `s'` than in `s`. */
  predicate NoNews(s: State, s': State, i: nat) {
    |s'.tasks| == |s.tasks| && i < |s.tasks| && (s'.tasks[i].missed ==> s.tasks[i].missed)
  }

  lemma FdPutNews(s: State, j: nat, fd: nat, i: nat)
    requires i < |s.tasks| && j < |s.tasks| && fd < |s.tasks[j].fds|
    ensures NoNews(s, FdPut(s, j, fd), i)
  {
  }

  lemma {:induction false} FdsReleaseNews(s: State, j: nat, fd: nat, i: nat)
    requires i < |s.tasks| && j < |s.tasks| && fd <= |s.tasks[j].fds|
    ensures NoNews(s, FdsRelease(s, j, fd), i)
    decreases |s.tasks[j].fds| - fd
  {
    hide FdPut;
    if fd < |s.tasks[j].fds| {
      FdPutNews(s, j, fd, i);
      FdsReleaseNews(FdPut(s, j, fd), j, fd + 1, i);
    }
  }

  lemma DoDup2News(s: State, oldfd: int, newfd: int, i: nat)
    requires s.current < |s.tasks| && i < |s.tasks|
    ensures NoNews(s, DoDup2(s, oldfd, newfd).s, i)
  {
    hide UnrefPipes, RefPipes;
    if FdGet(Cur(s), newfd) { FdPutNews(s, s.current, newfd, i); }
  }

  lemma SysPipeNews(s: State, addr: nat, i: nat)
    requires s.current < |s.tasks| && i < |s.tasks|
    ensures NoNews(s, SysPipeBody(s, addr).s, i)
  {
    hide FdAlloc, Create, UnrefPipes;
  }

  lemma TerminateNews(s: State, sig: nat, i: nat)
    requires s.current < |s.tasks| && i < |s.tasks|
    ensures NoNews(s, Terminate(s, sig).s, i)
  {
    hide FdsRelease, FindPid;
    FdsReleaseNews(Bury(s, 0 - sig), s.current, 0, i);
  }

  lemma {:induction false} DeliverNews(s: State, i: nat)
    requires s.current < |s.tasks| && |Cur(s).handlers| == NSIG && i < |s.tasks|
    ensures NoNews(s, Deliver(s).s, i)
    decreases |Cur(s).sig|
  {
    hide Terminate, Lowest;
    var sig := Lowest(Cur(s).sig, 0);
    if sig < NSIG {
      TerminateNews(s, sig, i);
      if !Cur(s).handlers[sig].Handler? && !(Cur(s).handlers[sig] == Default && Fatal(sig)) {
        DeliverNews(SetCur(s, Cur(s).(sig := Cur(s).sig - {sig})), i);
      }
    }
  }

  lemma KillNews(s: State, pid: int, sig: nat, i: nat)
    requires s.current < |s.tasks| && |Cur(s).handlers| == NSIG && i < |s.tasks|
    ensures NoNews(s, Kill(s, pid, sig).s, i)
  {
    hide Deliver, FindPid;
    var j := FindPid(s.tasks, pid, 0);
    if j == s.current {
      DeliverNews(SetCur(s, Cur(s).(sig := Cur(s).sig + {sig})), i);
    }
  }

  lemma WaitpidNews(s: State, pid: int, i: nat)
    requires s.current < |s.tasks| && i < |s.tasks|
    ensures NoNews(s, Waitpid(s, pid).s, i)
  {
    hide FdsRelease, FindZombie, HasChildren;
    var j := FindZombie(s.tasks, Cur(s).pid, pid, 0);
    if j < |s.tasks| { FdsReleaseNews(SetCur(s, Cur(s).(at := User)), j, 0, i); }
  }

  lemma ForkNews(s: State, memory: ForkMemory, i: nat)
    requires s.current < |s.tasks| && i < |s.tasks|
    ensures NoNews(s, Fork(s, memory).s, i)
  {
    hide AllocSlot, RefAll;
  }

  lemma SigintNews(s: State, group: set<nat>, i: nat)
    requires i < |s.tasks|
    ensures NoNews(s, RaiseSigint(s, group), i)
  {
  }

  lemma PipeReadNews(s: State, fd: nat, p: nat, n: nat, ints: Ints, i: nat)
    requires s.current < |s.tasks| && p in s.pipes && RingOk(s.pipes[p]) && i < |s.tasks| && SparesAll(ints, i)
    ensures NoNews(s, PipeRead(s, fd, p, n, ints).s, i)
  {
    hide RaiseSigint, PopAll, Oldest, RingOk;
    if ints != [] { SigintNews(s, ints[0], i); }
  }

  lemma {:induction false} PipeWriteNews(s: State, fd: nat, p: nat, d: seq<byte>, done: nat, ints: Ints, i: nat)
    requires s.current < |s.tasks| && p in s.pipes && RingOk(s.pipes[p]) && i < |s.tasks| && SparesAll(ints, i)
    requires done <= |d|
    ensures NoNews(s, PipeWrite(s, fd, p, d, done, ints).s, i)
    decreases |d| - done
  {
    hide RaiseSigint, PushAll, RingOk, InFlight;
    if ints != [] { SigintNews(s, ints[0], i); }
    var q := s.pipes[p];
    if done < |d| && q.readers != 0 && Cur(s).sig == {} && q.len < CAPACITY {
      var n := Min(|d| - done, CAPACITY - q.len);
      var m := PipeWake(Land(s, ints).(pipes := s.pipes[p := PushAll(q, d[done..done + n])]), p);
      PipeWriteNews(m, fd, p, d, done + n, Rest(ints), i);
    }
  }

  lemma BodyNews(s: State, c: Call, ints: Ints, i: nat)
    requires Shaped(s) && i < |s.tasks| && SparesAll(ints, i)
    ensures NoNews(s, Body(s, c, ints).s, i)
  {
    hide PipeRead, PipeWrite, Fork, Kill, DoDup2, SysPipeBody, Waitpid, FdPut, FindPid, SparesAll;
    match c {
      case SysPipe(addr) => SysPipeNews(s, addr, i);
      case SysDup(fd) => DoDup2News(s, fd, FdAlloc(Cur(s).fds, 0), i);
      case SysDup2(oldfd, newfd) => DoDup2News(s, oldfd, newfd, i);
      case SysClose(fd) => if FdGet(Cur(s), fd) { FdPutNews(s, s.current, fd, i); }
      case SysRead(fd, n) =>
        if FdGet(Cur(s), fd) && Cur(s).fds[fd].pipe in s.pipes {
          PipeReadNews(s, fd, Cur(s).fds[fd].pipe, n, ints, i);
        }
      case SysWrite(fd, d) =>
        if FdGet(Cur(s), fd) && Cur(s).fds[fd].pipe in s.pipes {
          PipeWriteNews(s, fd, Cur(s).fds[fd].pipe, d, 0, ints, i);
        }
      case SysFork(memory) => ForkNews(s, memory, i);
      case SysWaitpid(pid) => WaitpidNews(s, pid, i);
      case SysKill(pid, sig) => KillNews(s, pid, sig, i);
      case _ =>
    }
  }

  lemma ContinueNews(s: State, ints: Ints, i: nat)
    requires Shaped(s) && i < |s.tasks| && SparesAll(ints, i)
    ensures NoNews(s, Continue(s, ints).s, i)
  {
    hide PipeRead, PipeWrite, Waitpid, Body, SparesAll;
    match Cur(s).at {
      case Entered(c) => BodyNews(SetCur(s, Cur(s).(at := User)), c, ints, i);
      case Reading(fd, p, n) =>
        if p in s.pipes { PipeReadNews(SetCur(s, Cur(s).(waitPipe := 0)), fd, p, n, ints, i); }
      case Writing(fd, p, d, done) =>
        if p in s.pipes && done <= |d| {
          PipeWriteNews(SetCur(s, Cur(s).(waitPipe := 0)), fd, p, d, done, ints, i);
        }
      case Waiting(pid) => WaitpidNews(s, pid, i);
      case _ =>
    }
  }

  lemma RunNews(s: State, c: Cmd, i: nat)
    requires Shaped(s) && i < |s.tasks| && Spares(c, i)
    ensures NoNews(s, Run(s, c).s, i)
  {
    hide Deliver, Body, Continue, RaiseSigint, FindPid, SparesAll;
    match c {
      case Enter(call, preempt) =>
        if Cur(s).at == User {
          DeliverNews(s, i);
          var d := Deliver(s);
          if !d.switches && !preempt {
            assert SparesAll([], i) by { NoInts(i); }
            BodyNews(d.s, call, [], i);
          }
        }
      case Resume(ints, late) =>
        ContinueNews(s, ints, i);
        SigintNews(Continue(s, ints).s, late, i);
      case Sigint(group) => SigintNews(s, group, i);
      case _ =>
    }
  }

  lemma NoInts(i: nat)
    ensures SparesAll([], i)
  {
  }

  /** A step in which no Ctrl+C for slot `i` falls into a gap leaves the slot nothing new to miss. */
  lemma StepSpares(s: State, c: Cmd, i: nat)
    requires Shaped(s) && i < |s.tasks| && Spares(c, i)
    ensures NoNews(s, Step(s, c), i)
  {
    hide Run, ScanFrom;
    RunNews(s, c, i);
  }
}

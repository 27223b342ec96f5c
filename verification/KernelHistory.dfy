/** What one step can do to any one task, and what that means over runs: exit statuses and fatal signals. */
module KernelHistory {
  import opened Options
  import opened Bytes
  import opened Pipes
  import opened KernelState
  import opened KernelInv
  import opened KernelSteps
  import opened KernelLife
  import opened KernelInterrupt
  import opened KernelBlock
  import opened KernelSched
  import opened KernelRuns
  import opened KernelTheorems
  import opened KernelCalls
  import opened KernelFates

  /** The call whose body the running task goes through in this step, from its beginning. */
  ghost function Acting(s: State, c: Cmd): Option<Call>
    requires Shaped(s)
  {
    match c
    case Enter(call, preempt) =>
      if Cur(s).at == User && !preempt && !Deliver(s).switches then Some(call) else None
    case Resume(_, _) => if Cur(s).at.Entered? then Some(Cur(s).at.call) else None
    case _ => None
  }

  /** Identity, descriptors, actions and fate are kept, and no pending signal is lost. */
  ghost predicate Kept(t: Task, t': Task) {
    && t'.pid == t.pid && t'.parent == t.parent && t'.zombie == t.zombie && t'.status == t.status
    && t'.fds == t.fds && t'.handlers == t.handlers && t.sig <= t'.sig
  }

  /** What others may do to a task that they neither kill nor reap: send it signals and wake it. */
  ghost predicate Marked(t: Task, t': Task) {
    && Kept(t, t') && t'.at == t.at && t'.missed == t.missed
    && (t'.state == t.state || (t.state == Blocked && !t.zombie && t'.state == Ready))
    && (t'.waitPipe == t.waitPipe || t'.waitPipe == 0)
  }

  lemma BystanderMarked(t: Task, t': Task)
    requires Bystander(t, t')
    ensures Marked(t, t')
  {
  }

  // ---- the pipe loops ----------------------------------------------------------------------

  lemma RaiseMarked(s: State, group: set<nat>, j: nat)
    requires j < |s.tasks|
    ensures Marked(s.tasks[j], RaiseSigint(s, group).tasks[j])
  {
  }

  lemma LandMarked(s: State, ints: Ints, j: nat)
    requires j < |s.tasks|
    ensures Marked(s.tasks[j], Land(s, ints).tasks[j])
  {
    hide RaiseSigint;
    if ints != [] { RaiseMarked(s, ints[0], j); }
  }

  lemma PipeReadFate(s: State, fd: nat, p: nat, n: nat, ints: Ints, j: nat)
    requires s.current < |s.tasks| && p in s.pipes && RingOk(s.pipes[p]) && j < |s.tasks|
    ensures var g := PipeRead(s, fd, p, n, ints);
      && g.s.current == s.current && |g.s.tasks| == |s.tasks|
      && (if j == s.current then Kept(s.tasks[j], g.s.tasks[j]) && !g.s.tasks[j].at.Entered?
          else Marked(s.tasks[j], g.s.tasks[j]))
  {
    hide Land, PopAll, Oldest, RingOk, WakeAll;
    LandMarked(s, ints, j);
    WakeAllBystanders(s.tasks, p);
  }

  lemma {:induction false} PipeWriteFate(s: State, fd: nat, p: nat, d: seq<byte>, done: nat, ints: Ints, j: nat)
    requires s.current < |s.tasks| && p in s.pipes && RingOk(s.pipes[p]) && j < |s.tasks| && done <= |d|
    ensures var g := PipeWrite(s, fd, p, d, done, ints);
      && g.s.current == s.current && |g.s.tasks| == |s.tasks|
      && (if j == s.current then Kept(s.tasks[j], g.s.tasks[j]) && !g.s.tasks[j].at.Entered?
          else Marked(s.tasks[j], g.s.tasks[j]))
    decreases |d| - done
  {
    hide Land, PushAll, RingOk, InFlight, WakeAll;
    LandMarked(s, ints, j);
    var q := s.pipes[p];
    if done < |d| && q.readers != 0 && Cur(s).sig == {} && q.len < CAPACITY {
      var n := Min(|d| - done, CAPACITY - q.len);
      var a := Land(s, ints);
      var m := PipeWake(a.(pipes := s.pipes[p := PushAll(q, d[done..done + n])]), p);
      WakeAllBystanders(a.tasks, p);
      PipeWriteFate(m, fd, p, d, done + n, Rest(ints), j);
    }
  }

  // ---- one call ----------------------------------------------------------------------------

  /** What became of task `t` of another slot through this call. */
  ghost predicate Fate(call: Call, t: Task, t': Task, reply: Reply) {
    || Marked(t, t')
    || (call == SysKill(t.pid, SIGKILL) && t.state != Free && Hit(t, t', SIGKILL))
    || (call.SysWaitpid? && Reaps(t, t', reply))
    || (call.SysFork? && Born(t, t'))
  }

  ghost predicate Born(t: Task, t': Task) {
    t.state == Free && (t'.state == Free || !t'.zombie)
  }

  ghost predicate Reaps(t: Task, t': Task, reply: Reply) {
    t.state != Free && t.zombie && t' == NoTask() && reply == Reaped(t.pid, t.status)
  }

  lemma HitMarked(t: Task, t': Task, sig: nat)
    requires Hit(t, t', sig) && !(sig == SIGKILL && (t.state == Blocked || t.state == Ready))
    ensures Marked(t, t')
  {
  }

  lemma KillFate(s: State, pid: int, sig: nat, j: nat)
    requires Inv(s) && Cur(s).at == User && j < |s.tasks| && j != s.current && |Cur(s).handlers| == NSIG
    ensures var g := Kill(s, pid, sig);
      |g.s.tasks| == |s.tasks| && g.s.current == s.current && Fate(SysKill(pid, sig), s.tasks[j], g.s.tasks[j], g.reply)
  {
    hide Good, AllParked, Kill, From, Stops, Marked, Hit;
    var i, k := KillMeans(s, pid, sig);
    var g := Kill(s, pid, sig);
    BystanderMarked(s.tasks[j], s.tasks[j]);
    if 0 < sig < NSIG && Known(s, pid) {
      if i == s.current || j != i {
        assert Bystander(s.tasks[j], g.s.tasks[j]);
        BystanderMarked(s.tasks[j], g.s.tasks[j]);
      } else if !(sig == SIGKILL && (s.tasks[j].state == Blocked || s.tasks[j].state == Ready)) {
        HitMarked(s.tasks[j], g.s.tasks[j], sig);
      }
    }
  }

  lemma WaitpidFate(s: State, pid: int, j: nat)
    requires Inv(s) && s.current != 0 && Cur(s).waitPipe == 0 && j < |s.tasks| && j != s.current
    ensures var g := Waitpid(s, pid);
      && |g.s.tasks| == |s.tasks| && g.s.current == s.current
      && (Marked(s.tasks[j], g.s.tasks[j]) || Reaps(s.tasks[j], g.s.tasks[j], g.reply))
  {
    hide Good, AllParked, Waitpid, Marked, NoTask;
    var i := WaitpidMeans(s, pid);
    BystanderMarked(s.tasks[j], s.tasks[j]);
    var g := Waitpid(s, pid);
    if g.reply.Reaped? && j != i { BystanderMarked(s.tasks[j], g.s.tasks[j]); }
  }

  lemma ForkFate(s: State, memory: ForkMemory, j: nat)
    requires Inv(s) && Cur(s).at == User && j < |s.tasks|
    ensures var g := Fork(s, memory);
      && |g.s.tasks| == |s.tasks| && g.s.current == s.current
      && (Born(s.tasks[j], g.s.tasks[j]) || (s.tasks[j].state != Free && g.s.tasks[j] == s.tasks[j]))
  {
    hide Good, AllParked, Fork, Slots, FdSlots, RingsKept;
    var i := ForkMeans(s, memory);
  }

  lemma SlotOf(s: State, s': State, j: nat)
    requires s.current < |s.tasks| && Bystanders(s.tasks, s'.tasks, s.current) && j < |s.tasks| && j != s.current
    ensures |s'.tasks| == |s.tasks| && Marked(s.tasks[j], s'.tasks[j])
  {
    BystanderMarked(s.tasks[j], s'.tasks[j]);
  }

  /** Every other slot after the body of a call. */
  lemma BodyFate(s: State, call: Call, ints: Ints, j: nat)
    requires Inv(s) && Shaped(s) && Cur(s).at == User && j < |s.tasks| && j != s.current
    ensures var g := Body(s, call, ints);
      |g.s.tasks| == |s.tasks| && g.s.current == s.current && Fate(call, s.tasks[j], g.s.tasks[j], g.reply)
  {
    hide Inv, Marked, Kept, Bystanders, PipeRead, PipeWrite, Fork, Kill, DoDup2, SysPipeBody, Waitpid, FdPut, Exit,
      Signal,
      RingsKept, Reaps, Hit;
    InCall(s);
    BystanderMarked(s.tasks[j], s.tasks[j]);
    match call {
      case SysPipe(addr) => PipeFate(s, addr, j);
      case SysOpen(inode) => OpenFate(s, inode, ints, j);
      case SysDup(fd) => DupFate(s, fd, ints, j);
      case SysDup2(oldfd, newfd) => Dup2Fate(s, oldfd, newfd, j);
      case SysClose(fd) => CloseFate(s, fd, ints, j);
      case SysRead(fd, n) =>
        if FdGet(Cur(s), fd) && Cur(s).fds[fd].pipe in s.pipes {
          PipeReadFate(s, fd, Cur(s).fds[fd].pipe, n, ints, j);
        }
      case SysWrite(fd, d) =>
        if FdGet(Cur(s), fd) && Cur(s).fds[fd].pipe in s.pipes {
          PipeWriteFate(s, fd, Cur(s).fds[fd].pipe, d, 0, ints, j);
        }
      case SysFork(memory) => ForkFate(s, memory, j);
      case SysExit(code) => ExitFate(s, code, j);
      case SysWaitpid(pid) => WaitpidFate(s, pid, j);
      case SysKill(pid, sig) => KillFate(s, pid, sig, j);
      case SysSignal(sig, action) => SignalFate(s, sig, action, j);
      case SysYield =>
    }
  }

  lemma PipeFate(s: State, addr: nat, j: nat)
    requires Inv(s) && Cur(s).at == User && j < |s.tasks| && j != s.current
    ensures var r := SysPipeBody(s, addr).s;
      |r.tasks| == |s.tasks| && r.current == s.current && Marked(s.tasks[j], r.tasks[j])
  {
    BystanderMarked(s.tasks[j], s.tasks[j]);
    if addr != 0 && addr !in s.pipes {
      hide Good, AllParked, Marked, SysPipeBody, InFlight, RingOk;
      PipeMeans(s, addr);
      SlotOf(s, SysPipeBody(s, addr).s, j);
    }
  }

  lemma OpenFate(s: State, inode: nat, ints: Ints, j: nat)
    requires Inv(s) && Shaped(s) && Cur(s).at == User && j < |s.tasks| && j != s.current
    ensures var r := Body(s, SysOpen(inode), ints).s;
      |r.tasks| == |s.tasks| && r.current == s.current && Marked(s.tasks[j], r.tasks[j])
  {
    hide Inv, Marked, Body;
    BystanderMarked(s.tasks[j], s.tasks[j]);
    OpenMeans(s, inode, ints);
    var g := Body(s, SysOpen(inode), ints);
    if g.reply != Value(-1) { SlotOf(s, g.s, j); }
  }

  lemma DupFate(s: State, fd: int, ints: Ints, j: nat)
    requires Inv(s) && Shaped(s) && Cur(s).at == User && j < |s.tasks| && j != s.current
    ensures var r := Body(s, SysDup(fd), ints).s;
      |r.tasks| == |s.tasks| && r.current == s.current && Marked(s.tasks[j], r.tasks[j])
  {
    hide Inv, Marked, Body, RingsKept;
    BystanderMarked(s.tasks[j], s.tasks[j]);
    DupMeans(s, fd, ints);
    var g := Body(s, SysDup(fd), ints);
    if g.reply != Value(-1) { SlotOf(s, g.s, j); }
  }

  lemma Dup2Fate(s: State, oldfd: int, newfd: int, j: nat)
    requires Inv(s) && Cur(s).at == User && j < |s.tasks| && j != s.current
    ensures var r := DoDup2(s, oldfd, newfd).s;
      |r.tasks| == |s.tasks| && r.current == s.current && Marked(s.tasks[j], r.tasks[j])
  {
    hide Good, AllParked, Marked, DoDup2, RingsKept;
    BystanderMarked(s.tasks[j], s.tasks[j]);
    Dup2Means(s, oldfd, newfd);
    if FdGet(Cur(s), oldfd) && 0 <= newfd < MAX_FDS { SlotOf(s, DoDup2(s, oldfd, newfd).s, j); }
  }

  lemma CloseFate(s: State, fd: int, ints: Ints, j: nat)
    requires Inv(s) && Shaped(s) && Cur(s).at == User && j < |s.tasks| && j != s.current
    ensures var r := Body(s, SysClose(fd), ints).s;
      |r.tasks| == |s.tasks| && r.current == s.current && Marked(s.tasks[j], r.tasks[j])
  {
    hide Inv, Marked, Body, RingsKept;
    BystanderMarked(s.tasks[j], s.tasks[j]);
    CloseMeans(s, fd, ints);
    if FdGet(Cur(s), fd) { SlotOf(s, Body(s, SysClose(fd), ints).s, j); }
  }

  lemma ExitFate(s: State, code: int, j: nat)
    requires Inv(s) && Cur(s).at == User && j < |s.tasks| && j != s.current
    ensures var r := Exit(s, code).s; |r.tasks| == |s.tasks| && r.current == s.current && Marked(s.tasks[j], r.tasks[j])
  {
    hide Good, AllParked, Marked, Exit;
    ExitMeans(s, code);
    SlotOf(s, Exit(s, code).s, j);
  }

  lemma SignalFate(s: State, sig: nat, action: Action, j: nat)
    requires Inv(s) && Cur(s).at == User && j < |s.tasks| && j != s.current && |Cur(s).handlers| == NSIG
    ensures var r := Signal(s, sig, action).s;
      |r.tasks| == |s.tasks| && r.current == s.current && Marked(s.tasks[j], r.tasks[j])
  {
    BystanderMarked(s.tasks[j], s.tasks[j]);
  }

  // ---- one step ----------------------------------------------------------------------------

  /** What became of a task in another slot through one segment. */
  ghost predicate FateIn(s: State, c: Cmd, t: Task, t': Task, reply: Reply)
    requires Shaped(s)
  {
    || Marked(t, t')
    || (Acting(s, c) == Some(SysKill(t.pid, SIGKILL)) && t.state != Free && KilledBy(t, t'))
    || Reaps(t, t', reply)
    || (Acting(s, c).Some? && Acting(s, c).value.SysFork? && Born(t, t'))
  }

  ghost predicate KilledBy(t: Task, t': Task) {
    && t'.zombie && t'.status == 0 - SIGKILL && t'.pid == t.pid && t'.parent == t.parent && t'.at == t.at
    && t'.fds == t.fds && t'.handlers == t.handlers && t.sig <= t'.sig
  }

  /**
   What a segment of the running task can do to any other task: wake it and send it signals; kill it
   by SIGKILL; reap it, if it is a zombie, and report its pid and status; or, if the slot was free,
   put a child there.
   */
  lemma OthersFate(s: State, c: Cmd, j: nat)
    requires Inv(s) && Shaped(s) && j < |s.tasks| && j != s.current
    ensures var g := Run(s, c);
      |g.s.tasks| == |s.tasks| && g.s.current == s.current && FateIn(s, c, s.tasks[j], g.s.tasks[j], g.reply)
  {
    hide Inv, Marked, KilledBy, Reaps, Deliver, Continue, Body, RaiseSigint;
    BystanderMarked(s.tasks[j], s.tasks[j]);
    match c {
      case Enter(call, preempt) => EnterFate(s, call, preempt, j);
      case Resume(ints, late) =>
        ContinueFate(s, ints, late, j);
        LateFate(s, ints, late, j);
      case Fault => if Cur(s).at == User { ExitFate(s, 0 - SIGSEGV, j); }
      case Sigint(group) => RaiseMarked(s, group, j);
      case Nudge(i) => NudgeMarked(s.tasks[j]);
      case IdleTick =>
    }
  }

  lemma NudgeMarked(t: Task)
    ensures Marked(t, Wake(t))
  {
  }

  lemma HitKilled(t: Task, t': Task)
    requires Hit(t, t', SIGKILL)
    ensures Marked(t, t') || KilledBy(t, t')
  {
    if !(t.state == Blocked || t.state == Ready) { HitMarked(t, t', SIGKILL); }
  }

  lemma EnterFate(s: State, call: Call, preempt: bool, j: nat)
    requires Inv(s) && Shaped(s) && j < |s.tasks| && j != s.current
    ensures var g := Run(s, Enter(call, preempt));
      && |g.s.tasks| == |s.tasks| && g.s.current == s.current
      && FateIn(s, Enter(call, preempt), s.tasks[j], g.s.tasks[j], g.reply)
  {
    hide Good, AllParked, Marked, KilledBy, Reaps, Deliver, Body, From, Stops, Hit, NoFds;
    BystanderMarked(s.tasks[j], s.tasks[j]);
    if Cur(s).at == User {
      var k := DeliverMeans(s);
      var d := Deliver(s);
      if d.switches {
        SlotOf(Pending(s, From(Cur(s).sig, k)), d.s, j);
      } else if !preempt {
        PendingInv(s, Cur(d.s).sig);
        InvShaped(d.s);
        BodyFate(d.s, call, [], j);
        var t' := Body(d.s, call, []).s.tasks[j];
        if Hit(s.tasks[j], t', SIGKILL) { HitKilled(s.tasks[j], t'); }
      }
    }
  }

  lemma ContinueFate(s: State, ints: Ints, late: set<nat>, j: nat)
    requires Inv(s) && Shaped(s) && j < |s.tasks| && j != s.current
    ensures var g := Continue(s, ints);
      && |g.s.tasks| == |s.tasks| && g.s.current == s.current
      && FateIn(s, Resume(ints, late), s.tasks[j], g.s.tasks[j], g.reply)
  {
    assert Parked(Cur(s));
    assert s.current == 0 ==> Cur(s).at == Idling;
    hide Good, AllParked, Marked, KilledBy, Reaps, Body, Hit, PipeRead, PipeWrite, Waitpid;
    BystanderMarked(s.tasks[j], s.tasks[j]);
    match Cur(s).at {
      case Entered(call) =>
        BackToUser(s, NoReply);
        var m := SetCur(s, Cur(s).(at := User));
        InvShaped(m);
        BodyFate(m, call, ints, j);
        var t' := Body(m, call, ints).s.tasks[j];
        if Hit(s.tasks[j], t', SIGKILL) { HitKilled(s.tasks[j], t'); }
      case Reading(fd, p, n) =>
        if p in s.pipes { PipeReadFate(SetCur(s, Cur(s).(waitPipe := 0)), fd, p, n, ints, j); }
      case Writing(fd, p, d, done) =>
        if p in s.pipes { PipeWriteFate(SetCur(s, Cur(s).(waitPipe := 0)), fd, p, d, done, ints, j); }
      case Waiting(pid) => WaitpidFate(s, pid, j);
      case _ =>
    }
  }

  lemma LateFate(s: State, ints: Ints, late: set<nat>, j: nat)
    requires Inv(s) && Shaped(s) && j < |s.tasks| && j != s.current
    requires var g := Continue(s, ints);
      && |g.s.tasks| == |s.tasks| && g.s.current == s.current
      && FateIn(s, Resume(ints, late), s.tasks[j], g.s.tasks[j], g.reply)
    ensures var g := Continue(s, ints);
      FateIn(s, Resume(ints, late), s.tasks[j], RaiseSigint(g.s, late).tasks[j], g.reply)
  {
    hide Inv, Continue, RaiseSigint;
    var g := Continue(s, ints);
    RaiseMarked(g.s, late, j);
    FreeUnmarked(g.s, late, j);
  }

  lemma FreeUnmarked(s: State, group: set<nat>, j: nat)
    requires j < |s.tasks|
    ensures s.tasks[j].state == Free ==> RaiseSigint(s, group).tasks[j] == s.tasks[j]
  {
  }
}

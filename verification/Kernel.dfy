/**
 The kernel as it is written: one task table and one set of pipes, changed in
 place by scan loops.  Every method is one segment, and its contract says that it
 does exactly what the step function of `KernelState` says.
 */
module Kernel {
  import opened Bytes
  import opened Pipes
  import opened KernelState
  import opened KernelInv
  import opened KernelSteps
  import opened KernelLife
  import opened KernelBlock
  import opened KernelRuns
  import opened KernelTheorems
  import KernelInterrupt
  import KernelSignal
  import K = KernelState

  class Machine {
    var tasks: seq<Task>
    var current: nat
    var nextPid: int
    var pipes: map<nat, Pipe>
    var nextGen: nat

    ghost function Now(): State
      reads this
    {
      State(tasks, current, nextPid, pipes, nextGen)
    }

    // ---- sched.c -----------------------------------------------------------

    method SchedWake(i: nat)
      requires i < |tasks|
      modifies this
      ensures Now() == SetTask(old(Now()), i, Wake(old(tasks)[i]))
    {
      if tasks[i].state == Blocked && !tasks[i].zombie {
        tasks := tasks[i := tasks[i].(state := Ready)];
      } else {
        assert tasks[i := tasks[i]] == tasks;
      }
    }

    method FindPid(pid: int) returns (i: nat)
      ensures i == K.FindPid(tasks, pid, 0)
    {
      i := 0;
      while i < |tasks|
        invariant i <= |tasks| && K.FindPid(tasks, pid, 0) == K.FindPid(tasks, pid, i)
      {
        if tasks[i].state != Free && tasks[i].pid == pid { return; }
        i := i + 1;
      }
    }

    method AllocSlot() returns (i: nat)
      ensures i == K.AllocSlot(tasks, 0)
    {
      i := 0;
      while i < |tasks|
        invariant i <= |tasks| && K.AllocSlot(tasks, 0) == K.AllocSlot(tasks, i)
      {
        if tasks[i].state == Free { return; }
        i := i + 1;
      }
    }

    method WakeParent(pid: int)
      modifies this
      ensures Now() == WakePid(old(Now()), pid)
    {
      var i := FindPid(pid);
      if i < |tasks| { SchedWake(i); }
    }

    method SchedYield()
      requires current < |tasks|
      modifies this
      ensures Now() == Yield(old(Now()))
    {
      var next, i := current, 1;
      while i <= |tasks|
        invariant 1 <= i <= |tasks| + 1 && next == current && ScanFrom(tasks, current, 1) == ScanFrom(tasks, current, i)
      {
        if RunnableAt(tasks, current, i) {
          next := (current + i) % |tasks|;
          break;
        }
        i := i + 1;
      }
      if next == current { return; }
      var prev := tasks[current];
      if prev.state == Running {
        tasks := tasks[current := prev.(state := if prev.zombie then Blocked else Ready)];
      } else {
        assert tasks[current := prev] == tasks;
      }
      tasks := tasks[next := tasks[next].(state := Running)];
      current := next;
    }

    // ---- pipe.c ------------------------------------------------------------

    method PipeWake(p: nat)
      modifies this
      ensures Now() == K.PipeWake(old(Now()), p)
    {
      ghost var ts := tasks;
      var i := 0;
      while i < |tasks|
        invariant i <= |tasks| == |ts|
        invariant forall j :: 0 <= j < |ts| ==> tasks[j] == if j < i then WakeOn(ts[j], p) else ts[j]
        invariant current == old(current) && nextPid == old(nextPid) && pipes == old(pipes) && nextGen == old(nextGen)
      {
        if tasks[i].state == Blocked && tasks[i].waitPipe == p {
          tasks := tasks[i := tasks[i].(waitPipe := 0)];
          SchedWake(i);
        }
        i := i + 1;
      }
      assert tasks == WakeAll(ts, p);
    }

    method PipeRef(p: nat, rd: bool, wr: bool)
      requires p in pipes
      modifies this
      ensures Now() == K.PipeRef(old(Now()), p, rd, wr)
    {
      var q := pipes[p];
      pipes := pipes[p := q.(readers := q.readers + Bit(rd), writers := q.writers + Bit(wr))];
    }

    method PipeUnref(p: nat, rd: bool, wr: bool)
      requires p in pipes
      modifies this
      ensures Now() == K.PipeUnref(old(Now()), p, rd, wr)
    {
      var q := pipes[p].(readers := pipes[p].readers - Bit(rd), writers := pipes[p].writers - Bit(wr));
      pipes := pipes[p := q];
      PipeWake(p);
      if q.readers <= 0 && q.writers <= 0 {
        pipes := pipes - {p};
        assert pipes == old(pipes) - {p};
      }
    }

    /** pipe_read from the top of its loop; `parked` when it went to sleep instead of returning. */
    method PipeRead(fd: nat, p: nat, n: nat, ints: Ints) returns (reply: Reply, parked: bool)
      requires current < |tasks| && p in pipes && RingOk(pipes[p])
      modifies this
      ensures Segment(Now(), parked, reply) == K.PipeRead(old(Now()), fd, p, n, ints)
    {
      var q := pipes[p];
      parked := false;
      if q.len > 0 {
        var got := if n < q.len then n else q.len;
        hide PopAll, Oldest, InFlight;
        var out := PipeDrain(p, got);
        PipeWake(p);
        tasks := tasks[current := tasks[current].(at := User)];
        reply := Reply.Bytes(out);
      } else if q.writers == 0 {
        tasks := tasks[current := tasks[current].(at := User)];
        reply := Reply.Bytes([]);
      } else if tasks[current].sig != {} {
        tasks := tasks[current := tasks[current].(at := User)];
        reply := Value(-1);
      } else {
        Park(p, Reading(fd, p, n), ints);
        reply, parked := NoReply, true;
      }
    }

    /** The next Ctrl+C of a schedule. */
    method Interrupt(ints: Ints)
      modifies this
      ensures Now() == Land(old(Now()), ints)
    {
      if ints != [] { RaiseSigint(ints[0]); }
    }

    /** The last two stores before sched_yield in the pipe loops, and a Ctrl+C in front of them. */
    method Park(p: nat, at: Place, ints: Ints)
      requires current < |tasks|
      modifies this
      ensures Segment(Now(), true, NoReply) == K.Park(old(Now()), p, at, ints)
    {
      var hit := ints != [] && current in ints[0] && tasks[current].pid >= 1;
      Interrupt(ints);
      tasks := tasks[current := tasks[current].(waitPipe := p, missed := hit, at := at)];
      tasks := tasks[current := tasks[current].(state := Blocked)];
    }

    /** The copy loop of pipe_read. */
    method PipeDrain(p: nat, got: nat) returns (out: seq<byte>)
      requires p in pipes && RingOk(pipes[p]) && got <= pipes[p].len
      modifies this
      ensures out == Oldest(old(pipes)[p], got)
      ensures Now() == old(Now()).(pipes := old(pipes)[p := PopAll(old(pipes)[p], got)])
    {
      var q := pipes[p];
      OldestNone(q);
      hide RingOk, InFlight, Oldest;
      var tail := q.tail;
      out := [];
      for i := 0 to got
        invariant Now() == old(Now()) && tail == (q.tail + i) % CAPACITY && out == Oldest(q, i)
      {
        OldestMore(q, i);
        out := out + [q.buf[tail]];
        tail := (tail + 1) % CAPACITY;
      }
      PopAllAtOnce(q, got);
      pipes := pipes[p := q.(tail := tail, len := q.len - got, received := q.received + out)];
    }

    /** pipe_write from the top of its loop, `start` bytes already accepted. */
    method PipeWrite(fd: nat, p: nat, d: seq<byte>, start: nat, ints: Ints) returns (reply: Reply, parked: bool)
      requires current < |tasks| && p in pipes && RingOk(pipes[p]) && start <= |d|
      modifies this
      ensures Segment(Now(), parked, reply) == K.PipeWrite(old(Now()), fd, p, d, start, ints)
    {
      hide PushAll, InFlight, RingOk, Land, K.Park, WakeAll;
      var done, left := start, ints;
      ghost var goal := K.PipeWrite(Now(), fd, p, d, start, ints);
      while done < |d|
        invariant start <= done <= |d| && current < |tasks| && p in pipes && RingOk(pipes[p])
        invariant goal == K.PipeWrite(Now(), fd, p, d, done, left)
      {
        if pipes[p].readers == 0 || tasks[current].sig != {} {
          tasks := tasks[current := tasks[current].(at := User)];
          return Value(-1), false;
        }
        RingBound(pipes[p]);
        if pipes[p].len < CAPACITY {
          Interrupt(left);
          left := Rest(left);
          done := PipeFill(p, d, done);
          PipeWake(p);
        } else {
          Park(p, Writing(fd, p, d, done), left);
          return NoReply, true;
        }
      }
      tasks := tasks[current := tasks[current].(at := User)];
      return Value(done), false;
    }

    /** The inner copy loop of pipe_write. */
    method PipeFill(p: nat, d: seq<byte>, start: nat) returns (done: nat)
      requires p in pipes && RingOk(pipes[p]) && start <= |d|
      modifies this
      ensures done == start + Min(|d| - start, CAPACITY - old(pipes)[p].len)
      ensures Now() == old(Now()).(pipes := old(pipes)[p := PushAll(old(pipes)[p], d[start..done])])
      ensures RingOk(pipes[p])
    {
      done := start;
      var q := pipes[p];
      assert d[start..done] == [];
      while done < |d| && q.len < CAPACITY
        invariant Now() == old(Now())
        invariant start <= done <= |d| && done - start <= CAPACITY - old(pipes)[p].len
        invariant q == PushAll(old(pipes)[p], d[start..done]) && q.len == old(pipes)[p].len + (done - start)
      {
        PushAllOneMore(old(pipes)[p], d[start..done], d[done]);
        assert d[start..done + 1] == d[start..done] + [d[done]];
        q := q.(buf := q.buf[q.head := d[done]], head := (q.head + 1) % CAPACITY, len := q.len + 1,
          sent := q.sent + [d[done]]);
        done := done + 1;
      }
      pipes := pipes[p := q];
    }

    // ---- syscall.c: descriptors ---------------------------------------------

    method FdAlloc(i: nat) returns (fd: nat)
      requires i < |tasks|
      ensures fd == K.FdAlloc(tasks[i].fds, 0)
    {
      fd := 0;
      while fd < |tasks[i].fds|
        invariant fd <= |tasks[i].fds| && K.FdAlloc(tasks[i].fds, 0) == K.FdAlloc(tasks[i].fds, fd)
      {
        if !InUse(tasks[i].fds[fd]) { return; }
        fd := fd + 1;
      }
    }

    method FdPut(i: nat, fd: nat)
      requires Good(Now()) && i < MAX_TASKS && fd < MAX_FDS
      modifies this
      ensures Now() == K.FdPut(old(Now()), i, fd) && Good(Now())
      ensures tasks[i].fds == old(tasks)[i].fds[fd := NO_FILE]
    {
      FdPutKeeps(Now(), i, fd);
      assert TaskOk(tasks[i], pipes) && FileOk(tasks[i].fds[fd], pipes);
      hide Good;
      var f := tasks[i].fds[fd];
      if f.pipe != 0 { PipeUnref(f.pipe, f.rd, f.wr); }
      tasks := tasks[i := tasks[i].(fds := tasks[i].fds[fd := NO_FILE])];
    }

    method FdsRelease(i: nat)
      requires Good(Now()) && i < MAX_TASKS
      modifies this
      ensures Now() == K.FdsRelease(old(Now()), i, 0) && Good(Now())
    {
      ghost var goal := K.FdsRelease(Now(), i, 0);
      for fd := 0 to MAX_FDS
        invariant Good(Now()) && goal == K.FdsRelease(Now(), i, fd)
      {
        assert TaskOk(tasks[i], pipes);
        hide Good;
        FdPut(i, fd);
      }
      assert TaskOk(tasks[i], pipes);
    }

    method DoDup2(oldfd: int, newfd: int) returns (reply: Reply)
      requires Inv(Now())
      modifies this
      ensures Segment(Now(), false, reply) == K.DoDup2(old(Now()), oldfd, newfd)
    {
      var cur := current;
      assert TaskOk(tasks[cur], pipes);
      if !FdGet(tasks[cur], oldfd) || newfd < 0 || newfd >= |tasks[cur].fds| { return Value(-1); }
      if oldfd == newfd { return Value(newfd); }
      if FdGet(tasks[cur], newfd) { FdPut(cur, newfd); }
      assert Good(Now()) && TaskOk(tasks[cur], pipes);
      var f := tasks[cur].fds[oldfd];
      assert FileOk(f, pipes);
      hide Good;
      tasks := tasks[cur := tasks[cur].(fds := tasks[cur].fds[newfd := f])];
      if f.pipe != 0 { PipeRef(f.pipe, f.rd, f.wr); }
      return Value(newfd);
    }

    method SysPipe(addr: nat) returns (reply: Reply)
      requires Inv(Now())
      modifies this
      ensures Segment(Now(), false, reply) == SysPipeBody(old(Now()), addr)
    {
      if addr == 0 || addr in pipes { return Value(-1); }
      assert TaskOk(tasks[current], pipes);
      hide Inv;
      pipes, nextGen := pipes[addr := Create(nextGen)], nextGen + 1;
      var rd := FdAlloc(current);
      if rd == |tasks[current].fds| {
        PipeUnref(addr, true, true);
        return Value(-1);
      }
      tasks := tasks[current := tasks[current].(fds := tasks[current].fds[rd := NO_FILE.(pipe := addr)])];
      var wr := FdAlloc(current);
      if wr == |tasks[current].fds| {
        tasks := tasks[current := tasks[current].(fds := tasks[current].fds[rd := NO_FILE])];
        PipeUnref(addr, true, true);
        return Value(-1);
      }
      tasks := tasks[current := tasks[current].(fds := tasks[current].fds[rd := NO_FILE.(pipe := addr, rd := true)])];
      tasks := tasks[current := tasks[current].(fds := tasks[current].fds[wr := NO_FILE.(pipe := addr, wr := true)])];
      return Ends(rd, wr);
    }

    // ---- syscall.c: process lifetime ------------------------------------------

    method Bury(status: int)
      requires current < |tasks|
      modifies this
      ensures Now() == K.Bury(old(Now()), status)
    {
      tasks := tasks[current := tasks[current].(status := status, zombie := true, at := Dead)];
      WakeParent(tasks[current].parent);
    }

    method TerminateCurrent(sig: nat)
      requires Inv(Now()) && tasks[current].at == User
      modifies this
      ensures Segment(Now(), true, NoReply) == Terminate(old(Now()), sig)
    {
      BuryKeeps(Now(), 0 - sig);
      hide Inv;
      Bury(0 - sig);
      FdsRelease(current);
    }

    method Reap(i: nat)
      requires Good(Now()) && i < MAX_TASKS
      modifies this
      ensures Now() == K.Reap(old(Now()), i)
    {
      FdsRelease(i);
      hide K.FdsRelease;
      tasks := tasks[i := NoTask()];
    }

    method SysFork(memory: ForkMemory) returns (reply: Reply)
      requires Inv(Now())
      modifies this
      ensures Segment(Now(), false, reply) == Fork(old(Now()), memory)
    {
      if memory == NoSpace { return Value(-1); }
      var i := AllocSlot();
      if i == |tasks| { return Value(-1); }
      assert TaskOk(tasks[current], pipes) && i != current;
      forall k | 0 <= k < MAX_FDS ensures FileOk(tasks[current].fds[k], pipes) { }
      hide Inv, TaskOk;
      var child := Spawned(nextPid, tasks[current].pid);
      nextPid := nextPid + 1;
      if memory == NoStack {
        tasks := tasks[i := child.(fds := NoFds(MAX_FDS), state := Free)];
        return Value(-1);
      }
      tasks := tasks[i := child.(fds := tasks[current].fds)];
      RefFds(tasks[current].fds);
      return Value(child.pid);
    }

    /** One more reference for every pipe end of a table. */
    method RefFds(fds: seq<File>)
      requires |fds| == MAX_FDS && forall k | 0 <= k < MAX_FDS :: FileOk(fds[k], pipes)
      modifies this
      ensures Now() == old(Now()).(pipes := RefAll(old(pipes), fds, 0))
    {
      ghost var was := Now();
      for fd := 0 to MAX_FDS
        invariant Now() == was.(pipes := pipes) && pipes.Keys == was.pipes.Keys
        invariant RefAll(was.pipes, fds, 0) == RefAll(pipes, fds, fd)
      {
        assert FileOk(fds[fd], was.pipes);
        if fds[fd].pipe != 0 { PipeRef(fds[fd].pipe, fds[fd].rd, fds[fd].wr); }
      }
    }

    /** The scan of sys_waitpid: the first zombie asked for, and whether there is any child at all. */
    method ScanChildren(me: int, pid: int) returns (i: nat, haveChildren: bool)
      ensures i == FindZombie(tasks, me, pid, 0) && (i == |tasks| ==> haveChildren == HasChildren(tasks, me))
    {
      haveChildren, i := false, 0;
      while i < |tasks|
        invariant 0 <= i <= |tasks|
        invariant haveChildren <==> exists j :: 0 <= j < i && IsChild(tasks[j], me)
        invariant FindZombie(tasks, me, pid, 0) == FindZombie(tasks, me, pid, i)
      {
        if IsChild(tasks[i], me) {
          haveChildren := true;
          if (pid == -1 || pid == tasks[i].pid) && tasks[i].zombie { return; }
        }
        i := i + 1;
      }
    }

    /** sys_waitpid from the top of its loop. */
    method SysWaitpid(pid: int) returns (reply: Reply, parked: bool)
      requires Inv(Now()) && current != 0 && tasks[current].waitPipe == 0
      modifies this
      ensures Segment(Now(), parked, reply) == Waitpid(old(Now()), pid)
    {
      hide FindZombie, HasChildren, K.Reap;
      var i, haveChildren := ScanChildren(tasks[current].pid, pid);
      if i < |tasks| {
        var reaped, status := tasks[i].pid, tasks[i].status;
        BackToUser(Now(), NoReply);
        tasks := tasks[current := tasks[current].(at := User)];
        Reap(i);
        return Reaped(reaped, status), false;
      }
      if !haveChildren {
        tasks := tasks[current := tasks[current].(at := User)];
        return Value(-1), false;
      }
      tasks := tasks[current := tasks[current].(state := Blocked, at := Waiting(pid))];
      return NoReply, true;
    }

    // ---- syscall.c, kbd.c: signals ----------------------------------------------

    method LowestSignal(i: nat) returns (sig: nat)
      requires i < |tasks|
      ensures sig == Lowest(tasks[i].sig, 0)
    {
      sig := 0;
      while sig < NSIG && sig !in tasks[i].sig
        invariant sig <= NSIG && Lowest(tasks[i].sig, 0) == Lowest(tasks[i].sig, sig)
      {
        sig := sig + 1;
      }
    }

    method DeliverSignals() returns (terminated: bool)
      requires Inv(Now()) && tasks[current].at == User
      modifies this
      ensures |old(tasks)[old(current)].handlers| == NSIG
      ensures Segment(Now(), terminated, NoReply) == Deliver(old(Now()))
    {
      assert TaskOk(tasks[current], pipes);
      ghost var goal := Deliver(Now());
      while true
        invariant Inv(Now()) && tasks[current].at == User && |tasks[current].handlers| == NSIG
        invariant goal == Deliver(Now())
        decreases |tasks[current].sig|
      {
        var sig := LowestSignal(current);
        if sig == NSIG { return false; }
        var t := tasks[current].(sig := tasks[current].sig - {sig});
        QuietSignal(Now(), sig);
        hide Good, AllParked;
        match tasks[current].handlers[sig] {
          case Handler(_) =>
            tasks := tasks[current := t];
            return false;
          case Ignore =>
            tasks := tasks[current := t];
          case Default =>
            if Fatal(sig) {
              TerminateCurrent(sig);
              return true;
            }
            tasks := tasks[current := t];
        }
      }
    }

    static lemma QuietSignal(s: State, sig: nat)
      requires Inv(s) && Cur(s).at == User
      ensures Inv(SetCur(s, Cur(s).(sig := Cur(s).sig - {sig})))
    {
      assert TaskOk(Cur(s), s.pipes);
      hide StreamsOk, SlotsCounted, PidsOk, NoMissedChild, PipesLater, TasksLater;
      QuietKeeps(s, s.current, Cur(s).(sig := Cur(s).sig - {sig}));
    }

    method SysKill(pid: int, sig: nat) returns (reply: Reply, terminated: bool)
      requires Inv(Now()) && tasks[current].at == User
      modifies this
      ensures |old(tasks)[old(current)].handlers| == NSIG
      ensures Segment(Now(), terminated, reply) == Kill(old(Now()), pid, sig)
    {
      assert TaskOk(tasks[current], pipes);
      if sig == 0 || sig >= NSIG { return Value(-1), false; }
      var i := FindPid(pid);
      if i == |tasks| || tasks[i].pid == 0 { return Value(-1), false; }
      if i == current {
        KernelSignal.SignalQuietKeeps(Now(), i, sig);
        hide Good, Later;
        KernelInterrupt.RemoteEnds(Now(), SetTask(Now(), i, tasks[i].(sig := tasks[i].sig + {sig})), NoReply);
        tasks := tasks[i := tasks[i].(sig := tasks[i].sig + {sig})];
        terminated := DeliverSignals();
        return if terminated then NoReply else Value(0), terminated;
      }
      hide Inv;
      terminated, reply := false, Value(0);
      tasks := tasks[i := tasks[i].(sig := tasks[i].sig + {sig})];
      if sig == SIGKILL && (tasks[i].state == Blocked || tasks[i].state == Ready) {
        tasks := tasks[i := tasks[i].(status := 0 - SIGKILL, zombie := true)];
        WakeParent(tasks[i].parent);
        if tasks[i].waitPipe != 0 {
          var wp := tasks[i].waitPipe;
          tasks := tasks[i := tasks[i].(waitPipe := 0)];
          PipeWake(wp);
        } else {
          SchedWake(i);
        }
      } else if tasks[i].waitPipe != 0 {
        PipeWake(tasks[i].waitPipe);
      }
    }

    method RaiseSigint(group: set<nat>)
      modifies this
      ensures Now() == K.RaiseSigint(old(Now()), group)
    {
      ghost var ts := tasks;
      var i := 0;
      while i < |tasks|
        invariant i <= |tasks| == |ts|
        invariant forall j :: 0 <= j < |ts| ==> tasks[j] == if j < i then InterruptedIn(ts[j], j in group) else ts[j]
        invariant Now() == old(Now()).(tasks := tasks)
      {
        var t := tasks[i];
        if i in group && t.state != Free && t.pid >= 1 {
          tasks := tasks[i := tasks[i].(sig := t.sig + {SIGINT})];
          if t.state == Blocked && t.waitPipe != 0 {
            tasks := tasks[i := tasks[i].(waitPipe := 0)];
            SchedWake(i);
          }
        }
        i := i + 1;
      }
    }

    // ---- the whole machine --------------------------------------------------------

    /** A new task in the first free slot, with a fresh pid and the console streams; -1 when the table is full. */
    method SchedSpawn(parent: int) returns (pid: int)
      modifies this
      ensures var i := K.AllocSlot(old(tasks), 0);
        if i < |old(tasks)| then
          && pid == old(nextPid)
          && Now() == SetTask(old(Now()), i, Spawned(old(nextPid), parent)).(nextPid := old(nextPid) + 1)
        else pid == -1 && Now() == old(Now())
    {
      var i := AllocSlot();
      if i == |tasks| { return -1; }
      tasks := tasks[i := Spawned(nextPid, parent)];
      nextPid := nextPid + 1;
      pid := tasks[i].pid;
    }

    /** Makes the ready task of the highest slot above idle's current, if there is one. */
    method SchedStart()
      requires |tasks| == MAX_TASKS
      modifies this
      ensures (forall i :: 0 < i < |old(tasks)| ==> old(tasks)[i].state != Ready) ==> Now() == old(Now())
      ensures (exists i :: 0 < i < |old(tasks)| && old(tasks)[i].state == Ready) ==>
        && 0 < current < |old(tasks)| && old(tasks)[current].state == Ready
        && (forall i :: current < i < |old(tasks)| ==> old(tasks)[i].state != Ready)
        && Now() == SetTask(old(Now()), current, old(tasks)[current].(state := Running)).(current := current)
    {
      var i := MAX_TASKS - 1;
      while i > 0
        invariant 0 <= i < |tasks| && Now() == old(Now())
        invariant forall j :: i < j < |tasks| ==> tasks[j].state != Ready
      {
        if tasks[i].state == Ready {
          tasks := tasks[i := tasks[i].(state := Running)];
          current := i;
          return;
        }
        i := i - 1;
      }
    }

    /** sched_init, one spawn per entry, and sched_start. */
    constructor Boot(parents: seq<int>)
      requires BootParents(parents)
      ensures Now() == KernelTheorems.Boot(parents) && Inv(Now())
    {
      hide Inv;
      tasks, nextPid := seq(MAX_TASKS, i => NoTask()), 1;
      current, pipes, nextGen := 0, map[], 0;
      new;
      var idle := AllocSlot();
      tasks := tasks[idle := IdleTask()];
      assert tasks == Prepared(parents, 0);
      for k := 0 to |parents|
        invariant Now() == State(Prepared(parents, k), 0, k + 1, map[], 0)
      {
        PreparedNext(parents, k);
        var pid := SchedSpawn(parents[k]);
      }
      assert tasks[|parents|].state == Ready;
      SchedStart();
      BootInv(parents);
    }

    /** The syscall table, after signal delivery and preemption. */
    method Syscall(c: Call, ints: Ints) returns (reply: Reply, switches: bool)
      requires Inv(Now()) && Shaped(Now()) && tasks[current].at == User
      modifies this
      ensures Segment(Now(), switches, reply) == Body(old(Now()), c, ints)
    {
      switches := false;
      assert tasks[current].waitPipe == 0 && Parked(tasks[current]);
      hide Good, AllParked;
      match c {
        case SysPipe(addr) => reply := SysPipe(addr);
        case SysOpen(inode) =>
          var fd := FdAlloc(current);
          if inode == 0 || fd == |tasks[current].fds| { return Value(-1), false; }
          tasks := tasks[current := tasks[current].(fds := tasks[current].fds[fd := NO_FILE.(node := inode)])];
          reply := Value(fd);
        case SysDup(fd) =>
          if !FdGet(tasks[current], fd) { return Value(-1), false; }
          var newfd := FdAlloc(current);
          if newfd == |tasks[current].fds| { return Value(-1), false; }
          reply := DoDup2(fd, newfd);
        case SysDup2(oldfd, newfd) => reply := DoDup2(oldfd, newfd);
        case SysClose(fd) =>
          if !FdGet(tasks[current], fd) { return Value(-1), false; }
          FdPut(current, fd);
          reply := Value(0);
        case SysRead(fd, n) =>
          if !FdGet(tasks[current], fd) || n == 0 { return Value(-1), false; }
          var f := tasks[current].fds[fd];
          if f.rd && f.pipe in pipes {
            reply, switches := PipeRead(fd, f.pipe, n, ints);
          } else {
            reply := if f.consoleIn || f.node != 0 then NoReply else Value(-1);
          }
        case SysWrite(fd, d) =>
          if !FdGet(tasks[current], fd) || d == [] { return Value(-1), false; }
          var f := tasks[current].fds[fd];
          if f.wr && f.pipe in pipes {
            reply, switches := PipeWrite(fd, f.pipe, d, 0, ints);
          } else {
            reply := if f.node != 0 then NoReply else Value(if f.consoleOut then |d| else -1);
          }
        case SysFork(memory) => reply := SysFork(memory);
        case SysExit(code) => Bury(code); reply, switches := NoReply, true;
        case SysWaitpid(pid) => reply, switches := SysWaitpid(pid);
        case SysKill(pid, sig) => reply, switches := SysKill(pid, sig);
        case SysSignal(sig, action) =>
          if sig == 0 || sig >= NSIG || sig == SIGKILL { return Value(-1), false; }
          var was := tasks[current].handlers[sig];
          tasks := tasks[current := tasks[current].(handlers := tasks[current].handlers[sig := action])];
          reply := Value(Code(was));
        case SysYield => reply, switches := Value(0), true;
      }
    }

    /** The running task goes on where it yielded. */
    method Resumed(ints: Ints) returns (reply: Reply, switches: bool)
      requires Inv(Now()) && Shaped(Now())
      modifies this
      ensures Segment(Now(), switches, reply) == Continue(old(Now()), ints)
    {
      reply, switches := NoReply, false;
      assert Parked(tasks[current]);
      assert current == 0 ==> tasks[current].at == Idling;
      hide Good, AllParked;
      match tasks[current].at {
        case Entered(c) =>
          BackToUser(Now(), NoReply);
          tasks := tasks[current := tasks[current].(at := User)];
          InvShaped(Now());
          reply, switches := Syscall(c, ints);
        case Reading(fd, p, n) =>
          if p in pipes {
            tasks := tasks[current := tasks[current].(waitPipe := 0)];
            reply, switches := PipeRead(fd, p, n, ints);
          }
        case Writing(fd, p, d, done) =>
          if p in pipes {
            tasks := tasks[current := tasks[current].(waitPipe := 0)];
            reply, switches := PipeWrite(fd, p, d, done, ints);
          }
        case Waiting(pid) => reply, switches := SysWaitpid(pid);
        case _ =>
      }
    }

    /** One step of the machine does what the step function says, and the invariant survives it. */
    method Execute(c: Cmd) returns (reply: Reply)
      requires Inv(Now())
      modifies this
      ensures Shaped(old(Now())) && Now() == Step(old(Now()), c) && Inv(Now()) && Later(old(Now()), Now())
    {
      InvShaped(Now());
      RunKeeps(Now(), c);
      StepKeeps(Now(), c);
      hide Inv, Later;
      var switches;
      reply, switches := Segmented(c);
      hide Run;
      if switches { SchedYield(); }
    }

    method Segmented(c: Cmd) returns (reply: Reply, switches: bool)
      requires Inv(Now()) && Shaped(Now())
      modifies this
      ensures Segment(Now(), switches, reply) == Run(old(Now()), c)
    {
      reply, switches := NoReply, false;
      match c {
        case Enter(call, preempt) =>
          if tasks[current].at != User { return; }
          DeliverKeeps(Now());
          hide Good, AllParked;
          switches := DeliverSignals();
          if switches { return; }
          if preempt {
            tasks := tasks[current := tasks[current].(at := Entered(call))];
            switches := true;
          } else {
            InvShaped(Now());
            reply, switches := Syscall(call, []);
          }
        case Resume(ints, late) =>
          reply, switches := Resumed(ints);
          RaiseSigint(late);
        case Fault =>
          if tasks[current].at == User {
            Bury(0 - SIGSEGV);
            switches := true;
          }
        case Sigint(group) => RaiseSigint(group);
        case Nudge(i) => if i < |tasks| { SchedWake(i); }
        case IdleTick => switches := tasks[current].at == Idling;
      }
    }
  }
}

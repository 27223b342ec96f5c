/** Forking: the child's copied descriptors are counted, one reference per slot. */
module KernelFork {
  import opened Bytes
  import opened Pipes
  import opened KernelState
  import opened KernelInv
  import opened KernelSteps
  import opened KernelLife
  import opened KernelShare

  /** `fds[fd..]` counted into the pipes, as a difference of prefixes. */
  lemma {:induction false} RefAllAdds(pipes: map<nat, Pipe>, fds: seq<File>, fd: nat, p: nat)
    requires fd <= |fds| && p in pipes && p != 0
    ensures var r := RefAll(pipes, fds, fd);
      && r.Keys == pipes.Keys
      && r[p] == pipes[p].(
           readers := pipes[p].readers + CountFds(fds, p, ReadEnd) - CountFds(fds[..fd], p, ReadEnd),
           writers := pipes[p].writers + CountFds(fds, p, WriteEnd) - CountFds(fds[..fd], p, WriteEnd))
    decreases |fds| - fd
  {
    if fd == |fds| {
      assert fds[..fd] == fds;
    } else {
      var f := fds[fd];
      assert fds[..fd + 1][..fd] == fds[..fd];
      RefAllAdds(if f.pipe != 0 then RefPipes(pipes, f.pipe, f.rd, f.wr) else pipes, fds, fd + 1, p);
    }
  }

  lemma {:induction false} RefAllKeys(pipes: map<nat, Pipe>, fds: seq<File>, fd: nat)
    requires fd <= |fds|
    ensures RefAll(pipes, fds, fd).Keys == pipes.Keys
    decreases |fds| - fd
  {
    if fd < |fds| {
      var f := fds[fd];
      RefAllKeys(if f.pipe != 0 then RefPipes(pipes, f.pipe, f.rd, f.wr) else pipes, fds, fd + 1);
    }
  }

  /** The child holds what the parent holds: one reference per slot, and none where there was none. */
  lemma ForkCounts(s: State, i: nat, child: Task, p: nat)
    requires Good(s) && i < MAX_TASKS && s.tasks[i].state == Free && p in s.pipes
    requires child.fds == Cur(s).fds
    ensures var pipes := RefAll(s.pipes, child.fds, 0);
      && p in pipes && CountsOk(s.tasks[i := child], p, pipes[p])
      && PipeGrows(s.pipes[p], pipes[p]) && MoreRef(s.pipes[p], pipes[p])
  {
    hide NoMissedChild, PidsOk, WaitsForReason;
    assert TaskOk(s.tasks[i], s.pipes);
    assert CountsOk(s.tasks, p, s.pipes[p]);
    RefAllAdds(s.pipes, child.fds, 0, p);
    forall e: End ensures CountSlots(s.tasks[i := child], p, e) == CountSlots(s.tasks, p, e) + CountFds(child.fds, p, e)
                       && CountFds(child.fds, p, e) <= CountSlots(s.tasks, p, e)
    {
      CountSlotsUpdate(s.tasks, i, child, p, e);
      CountFdsZero(s.tasks[i].fds, p, e);
      CountOneTask(s.tasks, s.current, p, e);
    }
  }

  /** A fresh live task in a free slot. */
  lemma BirthTasks(s: State, i: nat, child: Task, pipes: map<nat, Pipe>)
    requires Good(s) && 0 < i < MAX_TASKS && s.tasks[i].state == Free
    requires child.pid == s.nextPid && 0 <= child.parent < child.pid && child.state != Blocked && !child.zombie
    requires child.at == User
    requires TaskOk(child, pipes) && MoreRefs(s.pipes, pipes)
    ensures TasksOk(s.tasks[i := child], pipes, s.nextPid + 1)
    ensures TasksLater(s.tasks, s.tasks[i := child], s.nextPid)
  {
    var ts := s.tasks[i := child];
    forall a: nat, b: nat | a < MAX_TASKS && b < MAX_TASKS ensures !Misses(ts, a, b) && !SamePid(ts, a, b) {
      assert !Misses(s.tasks, a, b) && !SamePid(s.tasks, a, b);
      assert (a == 0 || PidOk(s.tasks[a], s.nextPid)) && (b == 0 || PidOk(s.tasks[b], s.nextPid));
    }
    forall j | 0 <= j < MAX_TASKS ensures TaskOk(ts[j], pipes) && (0 < j ==> PidOk(ts[j], s.nextPid + 1)) {
      assert TaskOk(s.tasks[j], s.pipes) && (0 < j ==> PidOk(s.tasks[j], s.nextPid));
      MoreRefsKeepTask(s.tasks[j], s.pipes, pipes);
    }
  }

  lemma CurPid(s: State)
    requires Inv(s)
    ensures 1 <= s.nextPid && 0 <= Cur(s).pid < s.nextPid
  {
    if s.current != 0 { assert PidOk(Cur(s), s.nextPid); }
  }

  lemma NoStackKeeps(s: State, i: nat)
    requires Good(s) && 0 < i < MAX_TASKS && s.tasks[i].state == Free && s.current != i
    requires 0 <= Cur(s).pid < s.nextPid
    ensures var t := Spawned(s.nextPid, Cur(s).pid).(fds := NoFds(MAX_FDS), state := Free);
      var r := SetTask(s, i, t).(nextPid := s.nextPid + 1);
      Good(r) && Later(s, r)
  {
    var child := Spawned(s.nextPid, Cur(s).pid).(fds := NoFds(MAX_FDS), state := Free);
    BirthTasks(s, i, child, s.pipes);
    forall p | p in s.pipes ensures CountsOk(s.tasks[i := child], p, s.pipes[p]) {
      CountSlotsSame(s.tasks, s.tasks[i := child], p, ReadEnd);
      CountSlotsSame(s.tasks, s.tasks[i := child], p, WriteEnd);
      assert CountsOk(s.tasks, p, s.pipes[p]);
    }
  }

  lemma ForkEnoughKeeps(s: State, i: nat, child: Task)
    requires Good(s) && 0 < i < MAX_TASKS && s.tasks[i].state == Free && s.current != i && Cur(s).state != Free
    requires 0 <= Cur(s).pid < s.nextPid && child == Spawned(s.nextPid, Cur(s).pid).(fds := Cur(s).fds)
    ensures var r := SetTask(s, i, child).(nextPid := s.nextPid + 1, pipes := RefAll(s.pipes, Cur(s).fds, 0));
      Good(r) && Later(s, r)
  {
    hide StreamOk, PidsOk, NoMissedChild, WaitsForReason;
    var pipes := RefAll(s.pipes, Cur(s).fds, 0);
    RefAllKeys(s.pipes, Cur(s).fds, 0);
    forall p | p in s.pipes
      ensures CountsOk(s.tasks[i := child], p, pipes[p]) && PipeGrows(s.pipes[p], pipes[p])
      ensures MoreRef(s.pipes[p], pipes[p])
    {
      ForkCounts(s, i, child, p);
    }
    hide CountsOk, PipeGrows, RefAll, MoreRef, SlotsCounted, StreamsOk, TasksOk;
    assert MoreRefs(s.pipes, pipes);
    ForkTasks(s, i, child, pipes);
    MoreRefsKeepStreams(s.pipes, pipes, s.nextGen);
  }

  lemma ForkTasks(s: State, i: nat, child: Task, pipes: map<nat, Pipe>)
    requires Good(s) && 0 < i < MAX_TASKS && s.tasks[i].state == Free && s.current != i && Cur(s).state != Free
    requires 0 <= Cur(s).pid < s.nextPid && child == Spawned(s.nextPid, Cur(s).pid).(fds := Cur(s).fds)
    requires MoreRefs(s.pipes, pipes)
    ensures TasksOk(s.tasks[i := child], pipes, s.nextPid + 1) && TasksLater(s.tasks, s.tasks[i := child], s.nextPid)
  {
    MoreRefsKeepTask(Cur(s), s.pipes, pipes);
    BirthTasks(s, i, child, pipes);
  }

  /** A segment that only filled a free slot. */
  lemma BirthEnds(s: State, r: State, i: nat, reply: Reply)
    requires Inv(s) && Good(r) && Later(s, r) && r.current == s.current
    requires i < |s.tasks| && i != s.current && s.tasks[i].state == Free
    requires |r.tasks| == |s.tasks| && r.tasks == s.tasks[i := r.tasks[i]]
    requires (r.tasks[i].state == Free || r.tasks[i].state == Ready) && Parked(r.tasks[i])
    ensures SegmentOk(s, Segment(r, false, reply))
  {
    hide Good, Later, Parked;
    forall j | 0 <= j < |r.tasks| && j != i ensures r.tasks[j] == s.tasks[j] { }
  }

  lemma ForkKeeps(s: State, memory: ForkMemory)
    requires Inv(s) && Cur(s).at == User
    ensures SegmentOk(s, Fork(s, memory))
  {
    hide Good, Later, AllParked, SegmentOk, RefAll, AllocSlot, NoFds, ConsoleFds, DefaultActions;
    LaterReflexive(s);
    CurPid(s);
    TablesOk(s);
    var i := AllocSlot(s.tasks, 0);
    var r := Fork(s, memory).s;
    if i < MAX_TASKS && memory != NoSpace {
      assert i != 0 && i != s.current;
      if memory == NoStack {
        NoStackKeeps(s, i);
      } else {
        ForkEnoughKeeps(s, i, Spawned(s.nextPid, Cur(s).pid).(fds := Cur(s).fds));
      }
      BirthEnds(s, r, i, Fork(s, memory).reply);
    } else {
      UnchangedEnds(s, Value(-1));
    }
  }

  lemma UnchangedEnds(s: State, reply: Reply)
    requires Inv(s)
    ensures SegmentOk(s, Segment(s, false, reply))
  {
    hide Good, AllParked;
    LaterReflexive(s);
  }
}

/** What each system call means to its caller and to everybody else, apart from the invariant. */
module KernelCalls {
  import opened Bytes
  import opened Pipes
  import opened KernelState
  import opened KernelInv
  import opened KernelSteps
  import opened KernelLife
  import opened KernelShare
  import opened KernelFork
  import opened KernelBlock
  import opened KernelTheorems

  // ---- what stays ------------------------------------------------------------------------

  /** A task that is at most woken. */
  ghost predicate Bystander(t: Task, t': Task) {
    Woken(t, t') && t'.fds == t.fds
  }

  ghost predicate Bystanders(ts: seq<Task>, ts': seq<Task>, i: nat) {
    |ts'| == |ts| && forall j :: 0 <= j < |ts| && j != i ==> Bystander(ts[j], ts'[j])
  }

  /** The pipes that are left hold and have seen the same bytes. */
  ghost predicate RingsKept(pipes: map<nat, Pipe>, pipes': map<nat, Pipe>) {
    forall p <- pipes' ::
      p in pipes && pipes'[p] == pipes[p].(readers := pipes'[p].readers, writers := pipes'[p].writers)
  }

  lemma RingsTransitive(a: map<nat, Pipe>, b: map<nat, Pipe>, c: map<nat, Pipe>)
    requires RingsKept(a, b) && RingsKept(b, c)
    ensures RingsKept(a, c)
  {
  }

  lemma FdPutRings(s: State, i: nat, fd: nat)
    requires i < |s.tasks| && fd < |s.tasks[i].fds|
    ensures RingsKept(s.pipes, FdPut(s, i, fd).pipes)
  {
    hide WakeAll;
  }

  lemma {:induction false} FdsReleaseRings(s: State, i: nat, fd: nat)
    requires i < |s.tasks| && fd <= |s.tasks[i].fds|
    ensures RingsKept(s.pipes, FdsRelease(s, i, fd).pipes)
    decreases |s.tasks[i].fds| - fd
  {
    hide FdPut;
    if fd < |s.tasks[i].fds| {
      FdPutRings(s, i, fd);
      FdsReleaseRings(FdPut(s, i, fd), i, fd + 1);
      RingsTransitive(s.pipes, FdPut(s, i, fd).pipes, FdsRelease(s, i, fd).pipes);
    }
  }

  // ---- fork ------------------------------------------------------------------------------

  /** There is room for a child. */
  ghost predicate FreeSlot(s: State) {
    exists i :: 0 <= i < |s.tasks| && s.tasks[i].state == Free
  }

  /** Slot `i` became the child of the running task, with a copy of its descriptors, ready to return to user mode. */
  ghost predicate ChildIn(s: State, s': State, i: nat)
    requires s.current < |s.tasks|
  {
    && i < |s.tasks| == |s'.tasks| && s.tasks[i].state == Free
    && (forall j :: 0 <= j < |s.tasks| && j != i ==> s'.tasks[j] == s.tasks[j])
    && var c := s'.tasks[i];
       && c.state == Ready && c.at == User && !c.zombie && c.waitPipe == 0 && c.sig == {}
       && c.parent == Cur(s).pid && c.fds == Cur(s).fds
       && c.pid > 0 && (forall j :: 0 <= j < |s.tasks| && s.tasks[j].state != Free ==> s.tasks[j].pid != c.pid)
       && |c.handlers| == NSIG && forall k :: 0 <= k < NSIG ==> c.handlers[k] == Default
  }

  /**
   fork fails exactly for want of memory or of a slot, and then nobody notices.  Otherwise one free
   slot becomes a child, its fresh pid is the answer, and every pipe end that the caller holds has
   as many more slots as the caller has.
   */
  lemma ForkMeans(s: State, memory: ForkMemory) returns (i: nat)
    requires Inv(s) && Cur(s).at == User
    ensures var g := Fork(s, memory);
      && !g.switches && g.s.current == s.current && (g.reply == Value(-1) <==> memory != Enough || !FreeSlot(s))
      && (g.reply == Value(-1) ==>
            && g.s.pipes == s.pipes && |g.s.tasks| == |s.tasks|
            && forall j :: 0 <= j < |s.tasks| ==>
                 g.s.tasks[j] == s.tasks[j] || (s.tasks[j].state == Free && g.s.tasks[j].state == Free))
      && (g.reply != Value(-1) ==>
            && ChildIn(s, g.s, i) && g.reply == Value(g.s.tasks[i].pid)
            && g.s.pipes.Keys == s.pipes.Keys && RingsKept(s.pipes, g.s.pipes)
            && forall p: nat, e: End | p != 0 ::
                 |Slots(g.s.tasks, p, e)| == |Slots(s.tasks, p, e)| + |FdSlots(Cur(s).fds, s.current, p, e)|)
  {
    hide StreamsOk, SlotsCounted, NoMissedChild, WaitsForReason, Slots, FdSlots, CountSlots, CountFds, RefAll, NoFds,
      ConsoleFds, AllocSlot;
    TablesOk(s);
    CurPid(s);
    i := AllocSlot(s.tasks, 0);
    if memory == Enough && i < MAX_TASKS {
      var g := Fork(s, memory);
      forall j | 0 <= j < MAX_TASKS && s.tasks[j].state != Free ensures s.tasks[j].pid != s.nextPid {
        assert j == 0 || PidOk(s.tasks[j], s.nextPid);
      }
      NullIsNoPipe(s);
      ForkRings(s.pipes, Cur(s).fds);
      forall p: nat, e: End | p != 0
        ensures |Slots(g.s.tasks, p, e)| == |Slots(s.tasks, p, e)| + |FdSlots(Cur(s).fds, s.current, p, e)|
      {
        ForkSlots(s, i, g.s.tasks[i], p, e);
      }
    }
  }

  lemma NullIsNoPipe(s: State)
    requires Good(s)
    ensures 0 !in s.pipes
  {
  }

  lemma ForkRings(pipes: map<nat, Pipe>, fds: seq<File>)
    requires 0 !in pipes
    ensures RefAll(pipes, fds, 0).Keys == pipes.Keys && RingsKept(pipes, RefAll(pipes, fds, 0))
  {
    hide CountFds;
    RefAllKeys(pipes, fds, 0);
    forall p <- pipes ensures RefAll(pipes, fds, 0)[p] == pipes[p].(readers := RefAll(pipes, fds, 0)[p].readers,
                                                                      writers := RefAll(pipes, fds, 0)[p].writers)
    {
      RefAllAdds(pipes, fds, 0, p);
    }
  }

  lemma ForkSlots(s: State, i: nat, child: Task, p: nat, e: End)
    requires i < |s.tasks| && s.current < |s.tasks| && s.tasks[i].fds == NoFds(MAX_FDS) && p != 0
    requires child.fds == Cur(s).fds
    ensures |Slots(s.tasks[i := child], p, e)| == |Slots(s.tasks, p, e)| + |FdSlots(Cur(s).fds, s.current, p, e)|
  {
    hide Slots, FdSlots, CountSlots, CountFds;
    CountIsCardinality(s.tasks, p, e);
    CountIsCardinality(s.tasks[i := child], p, e);
    CountFdsIsCardinality(Cur(s).fds, s.current, p, e);
    CountSlotsUpdate(s.tasks, i, child, p, e);
    CountFdsZero(s.tasks[i].fds, p, e);
  }

  // ---- waitpid ---------------------------------------------------------------------------

  /** Slot `i` is the first with a zombie child of `me` that was asked for. */
  ghost predicate FirstWanted(ts: seq<Task>, me: int, pid: int, i: nat) {
    i < |ts| && Wanted(ts[i], me, pid) && forall j :: 0 <= j < i ==> !Wanted(ts[j], me, pid)
  }

  /**
   waitpid answers with the pid and the status of the first zombie child it was asked for, whose
   slot is then free, if there is one; with -1 exactly without any child; else it sleeps.  Nobody
   else notices.
   */
  lemma WaitpidMeans(s: State, pid: int) returns (i: nat)
    requires Inv(s) && s.current != 0 && Cur(s).waitPipe == 0
    ensures var g := Waitpid(s, pid);
      var me := Cur(s).pid;
      var any := exists j :: 0 <= j < |s.tasks| && Wanted(s.tasks[j], me, pid);
      && g.s.current == s.current && RingsKept(s.pipes, g.s.pipes)
      && (g.reply.Reaped? <==> any)
      && (g.reply == Value(-1) <==> !HasChildren(s.tasks, me))
      && (g.switches <==> HasChildren(s.tasks, me) && !any)
      && (any ==>
            && FirstWanted(s.tasks, me, pid, i) && i != s.current
            && g.reply == Reaped(s.tasks[i].pid, s.tasks[i].status)
            && |g.s.tasks| == |s.tasks| && g.s.tasks[i] == NoTask()
            && Bystander(Cur(s).(at := User), Cur(g.s))
            && forall j :: 0 <= j < |s.tasks| && j != i && j != s.current ==> Bystander(s.tasks[j], g.s.tasks[j]))
      && (!any ==> g.s == SetCur(s, if g.switches then Cur(s).(state := Blocked, at := Waiting(pid))
                                     else Cur(s).(at := User)))
  {
    hide StreamsOk, SlotsCounted, NoMissedChild, PidsOk, WaitsForReason, FdsRelease, FindZombie;
    TablesOk(s);
    var me := Cur(s).pid;
    i := FindZombie(s.tasks, me, pid, 0);
    if i < MAX_TASKS {
      assert IsChild(s.tasks[i], me);
      NotOwnChild(s, i);
      BackToUser(s, NoReply);
      var m := SetCur(s, Cur(s).(at := User));
      FdsReleaseKeeps(m, i, 0);
      FdsReleaseRings(m, i, 0);
    } else {
      assert forall j :: 0 <= j < |s.tasks| ==> !Wanted(s.tasks[j], me, pid);
    }
  }

  lemma NotOwnChild(s: State, i: nat)
    requires Inv(s) && i < MAX_TASKS && IsChild(s.tasks[i], Cur(s).pid)
    ensures i != s.current
  {
    hide StreamsOk, SlotsCounted, NoMissedChild, TaskOk;
    assert i == 0 || PidOk(s.tasks[i], s.nextPid);
  }

  /** After the answer that pid is in no slot, and every other pid is where it was. */
  lemma ReapedIsGone(s: State, pid: int)
    requires Inv(s) && s.current != 0 && Cur(s).waitPipe == 0 && Waitpid(s, pid).reply.Reaped?
    ensures var g := Waitpid(s, pid);
      && |g.s.tasks| == |s.tasks|
      && (forall j :: 0 <= j < |s.tasks| && g.s.tasks[j].state != Free ==> g.s.tasks[j].pid != g.reply.pid)
      && (forall j :: 0 <= j < |s.tasks| && s.tasks[j].state != Free && s.tasks[j].pid != g.reply.pid ==>
            g.s.tasks[j].state != Free && g.s.tasks[j].pid == s.tasks[j].pid)
  {
    hide Waitpid, StreamsOk, SlotsCounted, NoMissedChild, TaskOk;
    TablesOk(s);
    var i := WaitpidMeans(s, pid);
    var g := Waitpid(s, pid);
    forall j: nat | j < |s.tasks| && j != i
      ensures g.s.tasks[j].pid == s.tasks[j].pid && (g.s.tasks[j].state == Free <==> s.tasks[j].state == Free)
      ensures s.tasks[j].state != Free ==> s.tasks[j].pid != s.tasks[i].pid
    {
      assert !SamePid(s.tasks, i, j);
      assert j == s.current || Bystander(s.tasks[j], g.s.tasks[j]);
    }
  }

  // ---- exit and fatal signals --------------------------------------------------------------

  /** The running task is over, with this status, and its parent, if it slept, is awake. */
  ghost predicate Ended(s: State, s': State, status: int)
    requires s.current < |s.tasks|
  {
    && s'.current == s.current && Bystanders(s.tasks, s'.tasks, s.current)
    && Cur(s') == Cur(s).(zombie := true, status := status, at := Dead, fds := Cur(s').fds)
    && forall j :: 0 <= j < |s.tasks| && s.tasks[j].state == Blocked && !s.tasks[j].zombie
         && s.tasks[j].pid == Cur(s).parent
         ==> s'.tasks[j].state == Ready
  }

  lemma BuryMeans(s: State, status: int)
    requires Inv(s) && Cur(s).at == User
    ensures var r := Bury(s, status); Ended(s, r, status) && Cur(r).fds == Cur(s).fds && r.pipes == s.pipes && Good(r)
  {
    hide StreamsOk, SlotsCounted, NoMissedChild;
    TablesOk(s);
    var t := Cur(s).(status := status, zombie := true, at := Dead);
    assert TaskOk(t, s.pipes);
    hide TaskOk;
    DeathKeeps(s, s.current, t);
    ParentAwake(s, t);
  }

  lemma ParentAwake(s: State, t: Task)
    requires Good(s) && s.current != 0 && SameIdentity(Cur(s), t) && Cur(s).state != Free
    ensures var r := WakePid(SetCur(s, t), t.parent);
      forall j :: 0 <= j < |s.tasks| && j != s.current && s.tasks[j].pid == t.parent ==>
        s.tasks[j].state == Blocked && !s.tasks[j].zombie ==> r.tasks[j].state == Ready
  {
    hide StreamsOk, SlotsCounted, NoMissedChild, TaskOk;
    var m := s.tasks[s.current := t];
    var k := FindPid(m, t.parent, 0);
    forall j: nat | j < |s.tasks| && s.tasks[j].state == Blocked && s.tasks[j].pid == t.parent && j != s.current
      ensures j == k
    {
      assert PidOk(Cur(s), s.nextPid);
      assert m[j].state != Free && m[j].pid == t.parent;
      assert !SamePid(s.tasks, j, k);
    }
  }

  /** exit: the status is the argument, and the descriptors stay until the reaping. */
  lemma ExitMeans(s: State, status: int)
    requires Inv(s) && Cur(s).at == User
    ensures var g := Exit(s, status);
      g.switches && g.reply == NoReply && Ended(s, g.s, status) && Cur(g.s).fds == Cur(s).fds && g.s.pipes == s.pipes
  {
    hide Inv, Ended, Bury;
    BuryMeans(s, status);
  }

  /** A fatal signal: the status is its number, negated, and the descriptors go at once. */
  lemma TerminateMeans(s: State, sig: nat)
    requires Inv(s) && Cur(s).at == User
    ensures var g := Terminate(s, sig);
      && g.switches && g.reply == NoReply && Ended(s, g.s, 0 - sig) && g.s.current == s.current < |g.s.tasks|
      && Cur(g.s).fds == NoFds(MAX_FDS) && RingsKept(s.pipes, g.s.pipes)
  {
    hide Good, AllParked, Bury, FdsRelease;
    BuryMeans(s, 0 - sig);
    var b := Bury(s, 0 - sig);
    TablesOk(b);
    FdsReleaseKeeps(b, s.current, 0);
    FdsReleaseRings(b, s.current, 0);
    var r := FdsRelease(b, s.current, 0);
    forall j | 0 <= j < |s.tasks| && j != s.current
      ensures Bystander(s.tasks[j], r.tasks[j]) && (b.tasks[j].state == Ready ==> r.tasks[j].state == Ready)
    {
      assert Bystander(s.tasks[j], b.tasks[j]) && Woken(b.tasks[j], r.tasks[j]);
    }
    assert Woken(Cur(b), Cur(r));
    OwnParent(s);
  }

  lemma OwnParent(s: State)
    requires Inv(s) && Cur(s).at == User
    ensures Cur(s).pid != Cur(s).parent && Cur(s).waitPipe == 0 && Cur(s).state == Running
  {
    hide StreamsOk, SlotsCounted, NoMissedChild;
    assert Parked(Cur(s));
    assert s.current == 0 || PidOk(Cur(s), s.nextPid);
  }

  // ---- descriptors --------------------------------------------------------------------------

  /** The running task has this descriptor table now; nobody else's changed, and nothing else of anybody's. */
  ghost predicate OwnFds(s: State, s': State, fds: seq<File>)
    requires s.current < |s.tasks|
  {
    && s'.current == s.current && Bystanders(s.tasks, s'.tasks, s.current)
    && Cur(s') == Cur(s).(fds := fds)
  }

  lemma FdPutMeans(s: State, fd: nat)
    requires Inv(s) && Cur(s).at == User && fd < MAX_FDS
    ensures |Cur(s).fds| == MAX_FDS
    ensures var r := FdPut(s, s.current, fd);
      Good(r) && OwnFds(s, r, Cur(s).fds[fd := NO_FILE]) && RingsKept(s.pipes, r.pipes)
  {
    hide AllParked, FdPut, StreamsOk, SlotsCounted, NoMissedChild, PidsOk, WaitsForReason;
    TablesOk(s);
    FdPutKeeps(s, s.current, fd);
    FdPutRings(s, s.current, fd);
    OwnParent(s);
    var r := FdPut(s, s.current, fd);
    forall j | 0 <= j < |s.tasks| ensures Woken(s.tasks[j], r.tasks[j]) { }
  }

  /** close */
  lemma CloseMeans(s: State, fd: int, ints: Ints)
    requires Inv(s) && Shaped(s) && Cur(s).at == User
    ensures var g := Body(s, SysClose(fd), ints);
      if FdGet(Cur(s), fd) then
        && !g.switches && g.reply == Value(0) && RingsKept(s.pipes, g.s.pipes)
        && OwnFds(s, g.s, Cur(s).fds[fd := NO_FILE])
      else g == Segment(s, false, Value(-1))
  {
    hide Inv, OwnFds, RingsKept, FdPut;
    if FdGet(Cur(s), fd) { FdPutMeans(s, fd); }
  }

  /** open: the lowest unused descriptor names the file. */
  lemma OpenMeans(s: State, inode: nat, ints: Ints)
    requires Inv(s) && Shaped(s) && Cur(s).at == User
    ensures var g := Body(s, SysOpen(inode), ints);
      && !g.switches && g.s.pipes == s.pipes
      && (g.reply == Value(-1) <==> inode == 0 || forall k :: 0 <= k < MAX_FDS ==> InUse(Cur(s).fds[k]))
      && (g.reply == Value(-1) ==> g.s == s)
      && (g.reply != Value(-1) ==>
            && g.reply.Value? && LowestUnused(Cur(s).fds, g.reply.v)
            && OwnFds(s, g.s, Cur(s).fds[g.reply.v := NO_FILE.(node := inode)]))
  {
    hide Good, AllParked, Scheduled;
  }

  ghost predicate LowestUnused(fds: seq<File>, k: int) {
    0 <= k < |fds| && !InUse(fds[k]) && forall j :: 0 <= j < k ==> InUse(fds[j])
  }

  /** dup2: the target holds the file of the source; whatever it held is closed. */
  lemma Dup2Means(s: State, oldfd: int, newfd: int)
    requires Inv(s) && Cur(s).at == User
    ensures |Cur(s).fds| == MAX_FDS
    ensures var g := DoDup2(s, oldfd, newfd);
      if FdGet(Cur(s), oldfd) && 0 <= newfd < MAX_FDS then
        && !g.switches && g.reply == Value(newfd) && RingsKept(s.pipes, g.s.pipes)
        && OwnFds(s, g.s, Cur(s).fds[newfd := Cur(s).fds[oldfd]])
      else g == Segment(s, false, Value(-1))
  {
    hide Good, AllParked, FdPut, Woken;
    TablesOk(s);
    var fds := Cur(s).fds;
    if FdGet(Cur(s), oldfd) && 0 <= newfd < MAX_FDS {
      if oldfd == newfd {
        assert fds[newfd := fds[oldfd]] == fds;
        Unchanged(s);
      } else {
        var s1 := s;
        Unchanged(s);
        if FdGet(Cur(s), newfd) {
          FdPutMeans(s, newfd);
          s1 := FdPut(s, s.current, newfd);
        }
        assert Cur(s1).fds[newfd := Cur(s1).fds[oldfd]] == fds[newfd := fds[oldfd]];
      }
    }
  }

  lemma Unchanged(s: State)
    requires s.current < |s.tasks|
    ensures OwnFds(s, s, Cur(s).fds) && RingsKept(s.pipes, s.pipes)
  {
  }

  /** dup: the lowest unused descriptor. */
  lemma DupMeans(s: State, fd: int, ints: Ints)
    requires Inv(s) && Shaped(s) && Cur(s).at == User
    ensures var g := Body(s, SysDup(fd), ints);
      && !g.switches && RingsKept(s.pipes, g.s.pipes)
      && (g.reply == Value(-1) <==> !FdGet(Cur(s), fd) || forall k :: 0 <= k < MAX_FDS ==> InUse(Cur(s).fds[k]))
      && (g.reply == Value(-1) ==> g.s == s)
      && (g.reply != Value(-1) ==>
            && g.reply.Value? && LowestUnused(Cur(s).fds, g.reply.v)
            && OwnFds(s, g.s, Cur(s).fds[g.reply.v := Cur(s).fds[fd]]))
  {
    hide Inv, OwnFds, RingsKept, DoDup2;
    Unchanged(s);
    var newfd := FdAlloc(Cur(s).fds, 0);
    if FdGet(Cur(s), fd) && newfd < MAX_FDS { Dup2Means(s, fd, newfd); }
  }

  /**
   pipe: the two lowest unused descriptors are the ends of a new, empty pipe, or, exactly when there
   are not two or no memory for it, nothing has changed.
   */
  lemma PipeMeans(s: State, addr: nat)
    requires Inv(s) && Cur(s).at == User
    ensures |Cur(s).fds| == MAX_FDS
    ensures var g := SysPipeBody(s, addr);
      && !g.switches
      && (g.reply.Ends? ==>
            && addr != 0 && addr !in s.pipes && LowestUnused(Cur(s).fds, g.reply.rd)
            && g.reply.rd < g.reply.wr < MAX_FDS
            && !InUse(Cur(s).fds[g.reply.wr])
            && (forall k :: g.reply.rd < k < g.reply.wr ==> InUse(Cur(s).fds[k]))
            && OwnFds(s, g.s, Cur(s).fds[g.reply.rd := NO_FILE.(pipe := addr, rd := true)]
                                        [g.reply.wr := NO_FILE.(pipe := addr, wr := true)])
            && addr in g.s.pipes && RingOk(g.s.pipes[addr]) && InFlight(g.s.pipes[addr]) == []
            && g.s.pipes[addr].readers == g.s.pipes[addr].writers == 1 && g.s.pipes == s.pipes[addr := g.s.pipes[addr]])
      && (!g.reply.Ends? ==>
            && g.reply == Value(-1) && OwnFds(s, g.s, Cur(s).fds) && g.s.pipes == s.pipes
            && (addr == 0 || addr in s.pipes
                || forall j, k :: 0 <= j < k < MAX_FDS ==> InUse(Cur(s).fds[j]) || InUse(Cur(s).fds[k])))
  {
    hide StreamsOk, SlotsCounted, NoMissedChild, PidsOk, WaitsForReason, FdAlloc, WakeAll;
    TablesOk(s);
    OwnParent(s);
    WakeAllBystanders(s.tasks, addr);
    var fds := Cur(s).fds;
    var rd := FdAlloc(fds, 0);
    assert addr !in s.pipes ==> s.pipes[addr := Create(s.nextGen)] - {addr} == s.pipes;
    if rd < MAX_FDS && addr != 0 && addr !in s.pipes {
      var busy := fds[rd := NO_FILE.(pipe := addr)];
      var wr := FdAlloc(busy, 0);
      assert FileOk(fds[rd], s.pipes);
      assert busy[rd := NO_FILE] == fds;
      assert s.tasks[s.current := Cur(s).(fds := busy)][s.current := Cur(s)] == s.tasks;
      PipeSlots(fds, rd, NO_FILE.(pipe := addr), wr);
    }
  }

  lemma WakeAllBystanders(ts: seq<Task>, p: nat)
    ensures forall j :: 0 <= j < |ts| ==>
      Bystander(ts[j], WakeAll(ts, p)[j]) && (ts[j].state == Running ==> WakeAll(ts, p)[j] == ts[j])
  {
  }

  /** The second lowest unused descriptor is the lowest one once the first is taken. */
  lemma PipeSlots(fds: seq<File>, rd: nat, f: File, wr: nat)
    requires rd < |fds| && LowestUnused(fds, rd) && InUse(f) && wr == FdAlloc(fds[rd := f], 0)
    ensures wr < |fds| ==> rd < wr && !InUse(fds[wr]) && forall k :: rd < k < wr ==> InUse(fds[k])
    ensures wr == |fds| ==> forall k :: 0 <= k < |fds| && k != rd ==> InUse(fds[k])
  {
    hide FdAlloc;
    var busy := fds[rd := f];
    assert forall k :: 0 <= k < |fds| && k != rd ==> busy[k] == fds[k];
  }

  /** signal: the action is replaced and the old one returned. */
  lemma SignalMeans(s: State, sig: nat, action: Action)
    requires Inv(s) && Cur(s).at == User
    ensures |Cur(s).handlers| == NSIG
    ensures var g := Signal(s, sig, action);
      && !g.switches && (sig == 0 || sig >= NSIG || sig == SIGKILL ==> g == Segment(s, false, Value(-1)))
      && (0 < sig < NSIG && sig != SIGKILL ==>
            && g.reply == Value(Code(Cur(s).handlers[sig])) && |g.s.tasks| == |s.tasks| && g.s.pipes == s.pipes
            && Cur(g.s).handlers[sig] == action
            && (forall k :: 0 <= k < NSIG && k != sig ==> Cur(g.s).handlers[k] == Cur(s).handlers[k])
            && Cur(g.s) == Cur(s).(handlers := Cur(g.s).handlers)
            && forall j :: 0 <= j < |s.tasks| && j != s.current ==> g.s.tasks[j] == s.tasks[j])
  {
    TablesOk(s);
  }

  // ---- reading, writing, Ctrl+C, birth ---------------------------------------------------------

  /** read on the read end of a pipe reads from that pipe; on a descriptor without any data behind it, it fails. */
  lemma ReadCall(s: State, fd: int, n: nat, ints: Ints)
    requires Inv(s) && Shaped(s) && Cur(s).at == User
    ensures var g := Body(s, SysRead(fd, n), ints);
      && (!FdGet(Cur(s), fd) || n == 0 ==> g == Segment(s, false, Value(-1)))
      && (FdGet(Cur(s), fd) && n > 0 ==>
            var f := Cur(s).fds[fd];
            && (f.rd ==> f.pipe in s.pipes && RingOk(s.pipes[f.pipe]) && g == PipeRead(s, fd, f.pipe, n, ints))
            && (!f.rd && !f.consoleIn && f.node == 0 ==> g == Segment(s, false, Value(-1))))
  {
    hide Good, AllParked, PipeRead, RingOk;
    if FdGet(Cur(s), fd) { FilesOk(s, s.current, fd); }
  }

  /** write on the write end of a pipe writes to that pipe; on the console everything is taken. */
  lemma WriteCall(s: State, fd: int, d: seq<byte>, ints: Ints)
    requires Inv(s) && Shaped(s) && Cur(s).at == User
    ensures var g := Body(s, SysWrite(fd, d), ints);
      && (!FdGet(Cur(s), fd) || d == [] ==> g == Segment(s, false, Value(-1)))
      && (FdGet(Cur(s), fd) && d != [] ==>
            var f := Cur(s).fds[fd];
            && (f.wr ==> f.pipe in s.pipes && RingOk(s.pipes[f.pipe]) && g == PipeWrite(s, fd, f.pipe, d, 0, ints))
            && (!f.wr && f.node == 0 ==> g == Segment(s, false, Value(if f.consoleOut then |d| else -1))))
  {
    hide Good, AllParked, PipeWrite, RingOk;
    if FdGet(Cur(s), fd) { FilesOk(s, s.current, fd); }
  }

  /** Ctrl+C marks every task of the foreground group, wakes those asleep on a pipe, and leaves the others alone. */
  lemma SigintMeans(s: State, group: set<nat>, i: nat)
    requires i < |s.tasks|
    ensures var t, t' := s.tasks[i], RaiseSigint(s, group).tasks[i];
      if i in group && t.state != Free && t.pid >= 1 then
        && t'.sig == t.sig + {SIGINT} && t' == t.(sig := t'.sig, state := t'.state, waitPipe := t'.waitPipe)
        && t'.state == (if t.state == Blocked && t.waitPipe != 0 && !t.zombie then Ready else t.state)
        && t'.waitPipe == (if t.state == Blocked then 0 else t.waitPipe)
      else t' == t
  {
  }

  /** A spawned task: ready to enter user mode, stdin from the keyboard, stdout and stderr to the console. */
  lemma SpawnedMeans(pid: int, parent: int)
    ensures var t := Spawned(pid, parent);
      && t.pid == pid && t.parent == parent && t.state == Ready && t.at == User && !t.zombie && t.sig == {}
      && t.waitPipe == 0
      && (forall k :: 0 <= k < NSIG ==> t.handlers[k] == Default) && |t.fds| == MAX_FDS
      && (forall k :: 0 <= k < MAX_FDS ==>
            (t.fds[k].consoleIn <==> k == 0) && (t.fds[k].consoleOut <==> k == 1 || k == 2))
      && (forall k :: 0 <= k < MAX_FDS ==> t.fds[k].pipe == 0 && t.fds[k].node == 0 && (InUse(t.fds[k]) <==> k < 3))
  {
  }
}

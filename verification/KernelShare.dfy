/** Creating and sharing descriptors: pipe, open, dup, dup2, fork. */
module KernelShare {
  import opened Bytes
  import opened Pipes
  import opened KernelState
  import opened KernelInv
  import opened KernelSteps
  import opened KernelLife

  ghost predicate MoreRef(q: Pipe, q': Pipe) {
    q' == q.(readers := q'.readers, writers := q'.writers) && q'.readers >= q.readers && q'.writers >= q.writers
  }

  /** `pipes'` differs from `pipes` only by additional references. */
  ghost predicate MoreRefs(pipes: map<nat, Pipe>, pipes': map<nat, Pipe>) {
    pipes'.Keys == pipes.Keys && forall p <- pipes :: MoreRef(pipes[p], pipes'[p])
  }

  lemma MoreRefsKeepTask(t: Task, pipes: map<nat, Pipe>, pipes': map<nat, Pipe>)
    requires TaskOk(t, pipes) && MoreRefs(pipes, pipes')
    ensures TaskOk(t, pipes')
  {
    forall fd | 0 <= fd < MAX_FDS ensures FileOk(t.fds[fd], pipes') { assert FileOk(t.fds[fd], pipes); }
  }

  lemma MoreRefsKeepStreams(pipes: map<nat, Pipe>, pipes': map<nat, Pipe>, nextGen: nat)
    requires StreamsOk(pipes, nextGen) && MoreRefs(pipes, pipes')
    ensures StreamsOk(pipes', nextGen)
  {
    forall p | p in pipes' ensures StreamOk(pipes'[p]) { assert StreamOk(pipes[p]); }
  }

  lemma CountOneTask(ts: seq<Task>, i: nat, p: nat, e: End)
    requires i < |ts|
    ensures CountFds(ts[i].fds, p, e) <= CountSlots(ts, p, e)
  {
    CountSlotsUpdate(ts, i, ts[i].(fds := []), p, e);
  }

  /** One more slot for one more reference. */
  lemma ShareCounts(s: State, i: nat, from: nat, fd: nat, p: nat)
    requires Good(s) && i < MAX_TASKS && from < MAX_FDS && fd < MAX_FDS && p in s.pipes
    requires s.tasks[i].fds[fd].pipe == 0
    ensures var f := s.tasks[i].fds[from];
      var pipes := RefPipes(s.pipes, f.pipe, f.rd, f.wr);
      CountsOk(SetFd(s, i, fd, f).tasks, p, pipes[p]) && PipeGrows(s.pipes[p], pipes[p])
  {
    hide Good, StreamOk, NoMissedChild, PidsOk, WaitsForReason, TaskOk;
    TablesOk(s);
    FilesOk(s, i, from);
    FilesOk(s, i, fd);
    CountsAt(s, p);
    var f := s.tasks[i].fds[from];
    SlotCount(s.tasks, i, fd, f, p, ReadEnd);
    SlotCount(s.tasks, i, fd, f, p, WriteEnd);
    if f.pipe == p { CountSlotsHeld(s.tasks, i, from, p, if f.rd then ReadEnd else WriteEnd); }
  }

  /** Storing a copy of a descriptor that a task already has, and counting it. */
  lemma ShareKeeps(s: State, i: nat, from: nat, fd: nat)
    requires Good(s) && i < MAX_TASKS && s.tasks[i].state != Free
    requires from < MAX_FDS && fd < MAX_FDS && s.tasks[i].fds[fd].pipe == 0
    ensures var f := s.tasks[i].fds[from];
      var s1 := SetFd(s, i, fd, f);
      var r := if f.pipe != 0 then PipeRef(s1, f.pipe, f.rd, f.wr) else s1;
      Good(r) && Later(s, r)
  {
    hide StreamsOk, TaskOk, NoMissedChild, PidsOk, IdleOk, TasksLater;
    TablesOk(s);
    FilesOk(s, i, from);
    FilesOk(s, i, fd);
    var f := s.tasks[i].fds[from];
    var s1 := SetFd(s, i, fd, f);
    var r := if f.pipe != 0 then PipeRef(s1, f.pipe, f.rd, f.wr) else s1;
    assert r == PipeRef(s1, f.pipe, f.rd, f.wr);
    hide TasksOk;
    forall p | p in r.pipes
      ensures CountsOk(r.tasks, p, r.pipes[p]) && PipeGrows(s.pipes[p], r.pipes[p])
    {
      ShareCounts(s, i, from, fd, p);
    }
    MoreRefsKeepStreams(s.pipes, r.pipes, s.nextGen);
    ShareTasks(s, i, from, fd, r);
  }

  lemma ShareTasks(s: State, i: nat, from: nat, fd: nat, r: State)
    requires Good(s) && i < MAX_TASKS && s.tasks[i].state != Free && from < MAX_FDS && fd < MAX_FDS
    requires MoreRefs(s.pipes, r.pipes) && r.nextPid == s.nextPid
    requires r.tasks == SetFd(s, i, fd, s.tasks[i].fds[from]).tasks
    ensures TasksOk(r.tasks, r.pipes, r.nextPid) && TasksLater(s.tasks, r.tasks, s.nextPid)
  {
    hide StreamsOk, SlotsCounted;
    forall j | 0 <= j < MAX_TASKS ensures TaskOk(r.tasks[j], r.pipes) && Woken(s.tasks[j], r.tasks[j]) {
      MoreRefsKeepTask(s.tasks[j], s.pipes, r.pipes);
      assert FileOk(s.tasks[i].fds[from], r.pipes) by { MoreRefsKeepTask(s.tasks[i], s.pipes, r.pipes); }
    }
    WokenKeeps(s.tasks, s.pipes, s.nextPid, r.tasks, r.pipes);
  }

  lemma DoDup2Keeps(s: State, oldfd: int, newfd: int)
    requires Inv(s) && Cur(s).at == User
    ensures SegmentOk(s, DoDup2(s, oldfd, newfd))
  {
    hide FdPut, StreamsOk, SlotsCounted, PidsOk, NoMissedChild, PipesLater, TasksLater, RefPipes, TaskOk, Parked;
    assert |Cur(s).fds| == MAX_FDS by { FilesOk(s, s.current, 0); }
    LaterReflexive(s);
    if FdGet(Cur(s), oldfd) && 0 <= newfd < MAX_FDS && oldfd != newfd {
      var s1 := if FdGet(Cur(s), newfd) then FdPut(s, s.current, newfd) else s;
      if FdGet(Cur(s), newfd) { FdPutKeeps(s, s.current, newfd); }
      ShareKeeps(s1, s1.current, oldfd, newfd);
      var r := DoDup2(s, oldfd, newfd).s;
      LaterTransitive(s, s1, r);
      OwnOnlyEnds(s, r, Value(newfd));
    }
  }

  // ---- pipe --------------------------------------------------------------

  lemma CreatedStream(gen: nat)
    ensures StreamOk(Create(gen))
  {
  }

  /** A fresh pipe with both its ends stored in two unused slots. */
  lemma NewPipeCounts(s: State, i: nat, addr: nat, rd: nat, wr: nat)
    requires Good(s) && i < MAX_TASKS && addr != 0 && addr !in s.pipes
    requires rd < MAX_FDS && wr < MAX_FDS && rd != wr
    requires |s.tasks[i].fds| == MAX_FDS && !InUse(s.tasks[i].fds[rd]) && !InUse(s.tasks[i].fds[wr])
    ensures
      var out, into := NO_FILE.(pipe := addr, rd := true), NO_FILE.(pipe := addr, wr := true);
      var t := s.tasks[i].(fds := s.tasks[i].fds[rd := out][wr := into]);
      SlotsCounted(s.tasks[i := t], s.pipes[addr := Create(s.nextGen)])
  {
    hide TasksOk, StreamsOk, CountSlots;
    TablesOk(s);
    var f, g := NO_FILE.(pipe := addr, rd := true), NO_FILE.(pipe := addr, wr := true);
    var s1 := SetFd(s, i, rd, f);
    var s2 := SetFd(s1, i, wr, g);
    var pipes := s.pipes[addr := Create(s.nextGen)];
    CreatedStream(s.nextGen);
    assert s2.tasks == s.tasks[i := s.tasks[i].(fds := s.tasks[i].fds[rd := f][wr := g])];
    forall p | p in pipes ensures CountsOk(s2.tasks, p, pipes[p]) {
      forall e: End ensures CountSlots(s2.tasks, p, e) == CountSlots(s.tasks, p, e) + (if p == addr then 1 else 0) {
        SlotCount(s.tasks, i, rd, f, p, e);
        SlotCount(s1.tasks, i, wr, g, p, e);
      }
      if p == addr { NobodyHolds(s, addr); } else { assert CountsOk(s.tasks, p, s.pipes[p]); }
    }
  }

  lemma NewPipeKeeps(s: State, i: nat, addr: nat, rd: nat, wr: nat)
    requires Good(s) && i < MAX_TASKS && s.tasks[i].state != Free && addr != 0 && addr !in s.pipes
    requires rd < MAX_FDS && wr < MAX_FDS && rd != wr && !InUse(s.tasks[i].fds[rd]) && !InUse(s.tasks[i].fds[wr])
    ensures
      var out, into := NO_FILE.(pipe := addr, rd := true), NO_FILE.(pipe := addr, wr := true);
      var t := s.tasks[i].(fds := s.tasks[i].fds[rd := out][wr := into]);
      var r := SetTask(s, i, t).(pipes := s.pipes[addr := Create(s.nextGen)], nextGen := s.nextGen + 1);
      Good(r) && Later(s, r)
  {
    hide NoMissedChild, PidsOk, WaitsForReason;
    var f, g := NO_FILE.(pipe := addr, rd := true), NO_FILE.(pipe := addr, wr := true);
    var s1 := SetFd(s, i, rd, f);
    var s2 := SetFd(s1, i, wr, g);
    var pipes := s.pipes[addr := Create(s.nextGen)];
    CreatedStream(s.nextGen);
    NewPipeCounts(s, i, addr, rd, wr);
    NewPipeTasks(s, i, pipes, s2.tasks);
  }

  lemma NobodyHolds(s: State, addr: nat)
    requires Good(s) && addr != 0 && addr !in s.pipes
    ensures CountSlots(s.tasks, addr, ReadEnd) == CountSlots(s.tasks, addr, WriteEnd) == 0
  {
    forall i, k, e: End | 0 <= i < MAX_TASKS && 0 <= k < |s.tasks[i].fds| ensures !Holds(s.tasks[i].fds[k], addr, e) {
      assert TaskOk(s.tasks[i], s.pipes) && FileOk(s.tasks[i].fds[k], s.pipes);
    }
    CountSlotsZero(s.tasks, addr, ReadEnd);
    CountSlotsZero(s.tasks, addr, WriteEnd);
  }

  lemma NewPipeTasks(s: State, i: nat, pipes: map<nat, Pipe>, ts: seq<Task>)
    requires Good(s) && i < MAX_TASKS && s.tasks[i].state != Free
    requires forall p <- s.pipes :: p in pipes && pipes[p] == s.pipes[p]
    requires |ts| == MAX_TASKS && ts == s.tasks[i := s.tasks[i].(fds := ts[i].fds)] && |ts[i].fds| == MAX_FDS
    requires forall k :: 0 <= k < MAX_FDS ==> ts[i].fds[k] == s.tasks[i].fds[k] || FileOk(ts[i].fds[k], pipes)
    ensures TasksOk(ts, pipes, s.nextPid) && TasksLater(s.tasks, ts, s.nextPid)
  {
    hide StreamsOk, SlotsCounted;
    forall j | 0 <= j < MAX_TASKS ensures TaskOk(ts[j], pipes) && Woken(s.tasks[j], ts[j]) {
      assert TaskOk(s.tasks[j], s.pipes);
      forall k | 0 <= k < MAX_FDS ensures FileOk(ts[j].fds[k], pipes) { assert FileOk(s.tasks[j].fds[k], s.pipes); }
    }
    WokenKeeps(s.tasks, s.pipes, s.nextPid, ts, pipes);
  }

  /** A pipe that could not get two descriptors leaves nothing behind but woken strangers. */
  lemma AbandonedPipe(s: State, addr: nat)
    requires Good(s) && addr != 0 && addr !in s.pipes
    ensures var r := s.(tasks := WakeAll(s.tasks, addr), nextGen := s.nextGen + 1);
      Good(r) && Later(s, r)
  {
    PipeWakeKeeps(s, addr);
  }

  /** The state after a pipe was created in slots `rd` and `wr`. */
  function WithPipe(s: State, addr: nat, rd: nat, wr: nat): State
    requires s.current < |s.tasks| && rd < |Cur(s).fds| && wr < |Cur(s).fds|
  {
    var fds := Cur(s).fds[rd := NO_FILE.(pipe := addr, rd := true)][wr := NO_FILE.(pipe := addr, wr := true)];
    SetCur(s, Cur(s).(fds := fds)).(pipes := s.pipes[addr := Create(s.nextGen)], nextGen := s.nextGen + 1)
  }

  /** The two ends of sys_pipe once the pipe is allocated. */
  lemma SysPipeEnds(s: State, addr: nat) returns (rd: nat, wr: nat)
    requires Good(s) && addr != 0 && addr !in s.pipes
    ensures var r := SysPipeBody(s, addr).s;
      if wr < MAX_FDS then
        rd < MAX_FDS && rd != wr && !InUse(Cur(s).fds[rd]) && !InUse(Cur(s).fds[wr]) && r == WithPipe(s, addr, rd, wr)
      else r == s.(tasks := WakeAll(s.tasks, addr), nextGen := s.nextGen + 1)
  {
    hide StreamsOk, SlotsCounted, PidsOk, NoMissedChild, WaitsForReason, WakeAll;
    var t := Cur(s);
    assert TaskOk(t, s.pipes);
    assert s.pipes[addr := Create(s.nextGen)] - {addr} == s.pipes;
    rd, wr := FdAlloc(t.fds, 0), MAX_FDS;
    if rd < MAX_FDS {
      var busy := t.fds[rd := NO_FILE.(pipe := addr)];
      wr := FdAlloc(busy, 0);
      if wr == MAX_FDS {
        assert FileOk(t.fds[rd], s.pipes);
        assert busy[rd := NO_FILE] == t.fds;
        assert s.tasks[s.current := t.(fds := busy)][s.current := t] == s.tasks;
      } else {
        assert busy[rd := NO_FILE.(pipe := addr, rd := true)] == t.fds[rd := NO_FILE.(pipe := addr, rd := true)];
        assert wr != rd && !InUse(t.fds[wr]);
      }
    }
  }

  lemma SysPipeKeeps(s: State, addr: nat)
    requires Inv(s) && Cur(s).at == User
    ensures SegmentOk(s, SysPipeBody(s, addr))
  {
    hide StreamsOk, SlotsCounted, PidsOk, NoMissedChild, TaskOk, PipesLater, TasksLater;
    LaterReflexive(s);
    var r := SysPipeBody(s, addr);
    if addr != 0 && addr !in s.pipes {
      hide SysPipeBody, Create;
      AbandonedPipe(s, addr);
      var rd, wr := SysPipeEnds(s, addr);
      if wr < MAX_FDS { NewPipeKeeps(s, s.current, addr, rd, wr); }
      OwnOnlyEnds(s, r.s, r.reply);
    }
  }
}

/** Every primitive of the kernel keeps the invariant and only moves forward. */
module KernelSteps {
  import opened Bytes
  import opened Pipes
  import opened KernelState
  import opened KernelInv

  // ---- waking -------------------------------------------------------------

  /** `t'` is `t`, possibly woken, possibly with other descriptors. */
  ghost predicate Woken(t: Task, t': Task) {
    && t'.pid == t.pid && t'.parent == t.parent && t'.zombie == t.zombie && t'.status == t.status
    && t'.at == t.at && t'.sig == t.sig && t'.handlers == t.handlers && t'.missed == t.missed
    && (t'.state == t.state || (t.state == Blocked && !t.zombie && t'.state == Ready))
    && (t'.waitPipe == t.waitPipe || t'.waitPipe == 0)
  }

  ghost predicate AllWoken(ts: seq<Task>, ts': seq<Task>) {
    |ts'| == |ts| && forall i :: 0 <= i < |ts| ==> Woken(ts[i], ts'[i])
  }

  lemma WokenTransitive(a: seq<Task>, b: seq<Task>, c: seq<Task>)
    requires AllWoken(a, b) && AllWoken(b, c)
    ensures AllWoken(a, c)
  {
    forall i | 0 <= i < |a| ensures Woken(a[i], c[i]) { assert Woken(a[i], b[i]) && Woken(b[i], c[i]); }
  }

  /** Waking tasks costs nothing but the per-task condition. */
  lemma WokenKeeps(ts: seq<Task>, pipes: map<nat, Pipe>, nextPid: int, ts': seq<Task>, pipes': map<nat, Pipe>)
    requires TasksOk(ts, pipes, nextPid) && AllWoken(ts, ts')
    requires forall i :: 0 <= i < MAX_TASKS ==> TaskOk(ts'[i], pipes')
    ensures TasksOk(ts', pipes', nextPid) && TasksLater(ts, ts', nextPid)
  {
    forall i: nat, j: nat | i < |ts'| && j < |ts'| ensures !Misses(ts', i, j) {
      assert Woken(ts[i], ts'[i]) && Woken(ts[j], ts'[j]);
      assert !Misses(ts, i, j);
    }
    IdentityKeepsPids(ts, ts', nextPid);
    assert Woken(ts[0], ts'[0]);
  }

  lemma WakeAllKeeps(ts: seq<Task>, pipes: map<nat, Pipe>, nextPid: int, p: nat, pipes': map<nat, Pipe>)
    requires TasksOk(ts, pipes, nextPid)
    requires pipes'.Keys == pipes.Keys && forall r <- pipes :: r != p ==> pipes'[r] == pipes[r]
    ensures TasksOk(WakeAll(ts, p), pipes', nextPid) && TasksLater(ts, WakeAll(ts, p), nextPid)
  {
    forall i | 0 <= i < MAX_TASKS ensures TaskOk(WakeAll(ts, p)[i], pipes') {
      assert TaskOk(ts[i], pipes);
    }
    WokenKeeps(ts, pipes, nextPid, WakeAll(ts, p), pipes');
  }

  // ---- pipes and descriptors --------------------------------------------

  /** Changing what a pipe holds and then waking everybody parked on it. */
  lemma RingStepKeeps(s: State, p: nat, q: Pipe)
    requires Good(s) && p in s.pipes
    requires StreamOk(q) && PipeGrows(s.pipes[p], q)
    requires q.readers == s.pipes[p].readers && q.writers == s.pipes[p].writers
    ensures Good(PipeWake(s.(pipes := s.pipes[p := q]), p))
    ensures Later(s, PipeWake(s.(pipes := s.pipes[p := q]), p))
  {
    WakeAllKeeps(s.tasks, s.pipes, s.nextPid, p, s.pipes[p := q]);
    var s' := PipeWake(s.(pipes := s.pipes[p := q]), p);
    forall r | r in s'.pipes ensures CountsOk(s'.tasks, r, s'.pipes[r]) {
      CountSlotsSame(s.tasks, s'.tasks, r, ReadEnd);
      CountSlotsSame(s.tasks, s'.tasks, r, WriteEnd);
      assert CountsOk(s.tasks, r, s.pipes[r]);
    }
  }

  lemma SlotCount(ts: seq<Task>, i: nat, fd: nat, f: File, p: nat, e: End)
    requires i < |ts| && fd < |ts[i].fds|
    ensures CountSlots(ts[i := ts[i].(fds := ts[i].fds[fd := f])], p, e)
         == CountSlots(ts, p, e) - (if Holds(ts[i].fds[fd], p, e) then 1 else 0) + (if Holds(f, p, e) then 1 else 0)
  {
    CountSlotsUpdate(ts, i, ts[i].(fds := ts[i].fds[fd := f]), p, e);
    CountFdsUpdate(ts[i].fds, fd, f, p, e);
  }

  lemma ClearSlotCount(s: State, i: nat, fd: nat, r: nat, e: End)
    requires Good(s) && i < MAX_TASKS && fd < MAX_FDS && r != 0
    ensures CountSlots(FdPut(s, i, fd).tasks, r, e)
         == CountSlots(s.tasks, r, e) - (if Holds(s.tasks[i].fds[fd], r, e) then 1 else 0)
  {
    var f := s.tasks[i].fds[fd];
    var s1 := if f.pipe != 0 then PipeUnref(s, f.pipe, f.rd, f.wr) else s;
    CountSlotsSame(s.tasks, s1.tasks, r, e);
    SlotCount(s1.tasks, i, fd, NO_FILE, r, e);
  }

  lemma FdPutCounts(s: State, i: nat, fd: nat)
    requires Good(s) && i < MAX_TASKS && fd < MAX_FDS
    ensures SlotsCounted(FdPut(s, i, fd).tasks, FdPut(s, i, fd).pipes)
  {
    var s' := FdPut(s, i, fd);
    forall r | r in s'.pipes ensures CountsOk(s'.tasks, r, s'.pipes[r]) {
      ClearSlotCount(s, i, fd, r, ReadEnd);
      ClearSlotCount(s, i, fd, r, WriteEnd);
      assert CountsOk(s.tasks, r, s.pipes[r]);
      assert FileOk(s.tasks[i].fds[fd], s.pipes);
    }
  }

  lemma UnrefStreams(pipes: map<nat, Pipe>, nextGen: nat, p: nat, rd: bool, wr: bool)
    requires StreamsOk(pipes, nextGen)
    ensures StreamsOk(UnrefPipes(pipes, p, rd, wr), nextGen)
  {
    var pipes' := UnrefPipes(pipes, p, rd, wr);
    forall r | r in pipes' ensures StreamOk(pipes'[r]) {
      assert StreamOk(pipes[r]);
    }
  }

  lemma UnrefLater(s: State, p: nat, rd: bool, wr: bool)
    requires Good(s) && (rd ==> p in s.pipes ==> s.pipes[p].readers > 0)
    requires (wr ==> p in s.pipes ==> s.pipes[p].writers > 0)
    ensures PipesLater(s.pipes, s.nextGen, UnrefPipes(s.pipes, p, rd, wr))
  {
  }

  /** A pipe disappears with the last slot that refers to it, so no slot dangles. */
  lemma NobodyRefers(s: State, i: nat, fd: nat, j: nat, k: nat)
    requires Good(s) && i < MAX_TASKS && fd < MAX_FDS && j < MAX_TASKS && k < MAX_FDS
    ensures FileOk(FdPut(s, i, fd).tasks[j].fds[k], FdPut(s, i, fd).pipes)
  {
    hide Good, StreamOk, NoMissedChild, PidsOk, TaskOk;
    FilesOk(s, i, fd);
    FilesOk(s, j, k);
    var s', f := FdPut(s, i, fd), s.tasks[i].fds[fd];
    var g := s'.tasks[j].fds[k];
    if g.pipe != 0 && g.pipe == f.pipe && f.pipe !in s'.pipes {
      var e := if g.rd then ReadEnd else WriteEnd;
      CountsAt(s, f.pipe);
      ClearSlotCount(s, i, fd, f.pipe, e);
      CountSlotsHeld(s'.tasks, j, k, f.pipe, e);
      assert false;
    }
  }

  lemma UnrefReason(t: Task, pipes: map<nat, Pipe>, p: nat, rd: bool, wr: bool)
    requires WaitsForReason(t, pipes)
    ensures WaitsForReason(WakeOn(t, p), UnrefPipes(pipes, p, rd, wr))
  {
  }

  lemma FdPutTask(s: State, i: nat, fd: nat, j: nat)
    requires Good(s) && i < MAX_TASKS && fd < MAX_FDS && j < MAX_TASKS
    ensures TaskOk(FdPut(s, i, fd).tasks[j], FdPut(s, i, fd).pipes)
    ensures Woken(s.tasks[j], FdPut(s, i, fd).tasks[j])
  {
    var s', t, f := FdPut(s, i, fd), s.tasks[j], s.tasks[i].fds[fd];
    assert TaskOk(t, s.pipes);
    UnrefReason(t, s.pipes, f.pipe, f.rd, f.wr);
    var t' := if f.pipe != 0 then WakeOn(t, f.pipe) else t;
    assert s'.tasks[j] == if j == i then t'.(fds := t.fds[fd := NO_FILE]) else t';
    forall k | 0 <= k < MAX_FDS ensures FileOk(s'.tasks[j].fds[k], s'.pipes) { NobodyRefers(s, i, fd, j, k); }
    assert t.state == Free ==> t.fds[fd := NO_FILE] == NoFds(MAX_FDS);
  }

  lemma FdPutKeeps(s: State, i: nat, fd: nat)
    requires Good(s) && i < MAX_TASKS && fd < MAX_FDS
    ensures var r := FdPut(s, i, fd);
      && Good(r) && Later(s, r) && AllWoken(s.tasks, r.tasks) && r.current == s.current
      && r.tasks[i].fds == s.tasks[i].fds[fd := NO_FILE]
      && forall j :: 0 <= j < MAX_TASKS && j != i ==> r.tasks[j].fds == s.tasks[j].fds
  {
    hide NoMissedChild, PidsOk, TaskOk, StreamOk, WaitsForReason;
    FilesOk(s, i, fd);
    var s', f := FdPut(s, i, fd), s.tasks[i].fds[fd];
    FdPutCounts(s, i, fd);
    UnrefStreams(s.pipes, s.nextGen, f.pipe, f.rd, f.wr);
    if f.pipe != 0 {
      CountsAt(s, f.pipe);
      CountSlotsHeld(s.tasks, i, fd, f.pipe, if f.rd then ReadEnd else WriteEnd);
      UnrefLater(s, f.pipe, f.rd, f.wr);
    }
    forall j | 0 <= j < MAX_TASKS ensures TaskOk(s'.tasks[j], s'.pipes) && Woken(s.tasks[j], s'.tasks[j]) {
      FdPutTask(s, i, fd, j);
    }
    WokenKeeps(s.tasks, s.pipes, s.nextPid, s'.tasks, s'.pipes);
  }

  lemma {:induction false} FdsReleaseKeeps(s: State, i: nat, fd: nat)
    requires Good(s) && i < MAX_TASKS && fd <= MAX_FDS
    requires forall k :: 0 <= k < fd ==> s.tasks[i].fds[k] == NO_FILE
    ensures var r := FdsRelease(s, i, fd);
      && Good(r) && Later(s, r) && AllWoken(s.tasks, r.tasks) && r.current == s.current
      && r.tasks[i].fds == NoFds(MAX_FDS)
      && forall j :: 0 <= j < MAX_TASKS && j != i ==> r.tasks[j].fds == s.tasks[j].fds
    decreases MAX_FDS - fd
  {
    if fd < MAX_FDS {
      var m := FdPut(s, i, fd);
      FdPutKeeps(s, i, fd);
      var r := FdsRelease(m, i, fd + 1);
      FdsReleaseKeeps(m, i, fd + 1);
      LaterTransitive(s, m, r);
      WokenTransitive(s.tasks, m.tasks, r.tasks);
    }
  }
}

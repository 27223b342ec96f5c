/**
 What every segment of kernel code keeps: reference counts equal descriptor
 slots, parked tasks wait for something that has not happened yet, and each pipe
 is a faithful byte stream.
 */
module KernelInv {
  import opened Bytes
  import opened Pipes
  import opened KernelState

  datatype End = ReadEnd | WriteEnd

  // ---- counting descriptor slots ---------------------------------------

  predicate Holds(f: File, p: nat, e: End) {
    f.pipe == p && (if e == ReadEnd then f.rd else f.wr)
  }

  /** Number of slots of one table that hold end `e` of pipe `p`. */
  ghost function CountFds(fds: seq<File>, p: nat, e: End): nat {
    if fds == [] then 0
    else CountFds(fds[..|fds| - 1], p, e) + (if Holds(fds[|fds| - 1], p, e) then 1 else 0)
  }

  /** Number of slots of all tasks, zombies included, that hold end `e` of pipe `p`. */
  ghost function CountSlots(ts: seq<Task>, p: nat, e: End): nat {
    if ts == [] then 0
    else CountSlots(ts[..|ts| - 1], p, e) + CountFds(ts[|ts| - 1].fds, p, e)
  }

  lemma {:induction false} CountFdsUpdate(fds: seq<File>, k: nat, f: File, p: nat, e: End)
    requires k < |fds|
    ensures CountFds(fds[k := f], p, e)
         == CountFds(fds, p, e) - (if Holds(fds[k], p, e) then 1 else 0) + (if Holds(f, p, e) then 1 else 0)
  {
    var n := |fds| - 1;
    if k == n {
      assert fds[k := f][..n] == fds[..n];
    } else {
      assert fds[k := f][..n] == fds[..n][k := f];
      CountFdsUpdate(fds[..n], k, f, p, e);
    }
  }

  lemma {:induction false} CountFdsZero(fds: seq<File>, p: nat, e: End)
    requires forall k :: 0 <= k < |fds| ==> !Holds(fds[k], p, e)
    ensures CountFds(fds, p, e) == 0
  {
    if fds != [] { CountFdsZero(fds[..|fds| - 1], p, e); }
  }

  lemma {:induction false} CountFdsHeld(fds: seq<File>, k: nat, p: nat, e: End)
    requires k < |fds| && Holds(fds[k], p, e)
    ensures CountFds(fds, p, e) >= 1
  {
    if k < |fds| - 1 { CountFdsHeld(fds[..|fds| - 1], k, p, e); }
  }

  lemma {:induction false} CountSlotsUpdate(ts: seq<Task>, i: nat, t: Task, p: nat, e: End)
    requires i < |ts|
    ensures CountSlots(ts[i := t], p, e) == CountSlots(ts, p, e) - CountFds(ts[i].fds, p, e) + CountFds(t.fds, p, e)
  {
    var n := |ts| - 1;
    if i == n {
      assert ts[i := t][..n] == ts[..n];
    } else {
      assert ts[i := t][..n] == ts[..n][i := t];
      CountSlotsUpdate(ts[..n], i, t, p, e);
    }
  }

  lemma {:induction false} CountSlotsHeld(ts: seq<Task>, i: nat, fd: nat, p: nat, e: End)
    requires i < |ts| && fd < |ts[i].fds| && Holds(ts[i].fds[fd], p, e)
    ensures CountSlots(ts, p, e) >= 1
  {
    if i == |ts| - 1 { CountFdsHeld(ts[i].fds, fd, p, e); }
    else { CountSlotsHeld(ts[..|ts| - 1], i, fd, p, e); }
  }

  lemma {:induction false} CountSlotsZero(ts: seq<Task>, p: nat, e: End)
    requires forall i, k :: 0 <= i < |ts| && 0 <= k < |ts[i].fds| ==> !Holds(ts[i].fds[k], p, e)
    ensures CountSlots(ts, p, e) == 0
  {
    if ts != [] {
      CountFdsZero(ts[|ts| - 1].fds, p, e);
      CountSlotsZero(ts[..|ts| - 1], p, e);
    }
  }

  ghost predicate SameFds(ts: seq<Task>, ts': seq<Task>) {
    |ts| == |ts'| && forall i :: 0 <= i < |ts| ==> ts'[i].fds == ts[i].fds
  }

  lemma {:induction false} CountSlotsSame(ts: seq<Task>, ts': seq<Task>, p: nat, e: End)
    requires SameFds(ts, ts')
    ensures CountSlots(ts, p, e) == CountSlots(ts', p, e)
  {
    if ts != [] { CountSlotsSame(ts[..|ts| - 1], ts'[..|ts| - 1], p, e); }
  }

  // ---- the invariant ----------------------------------------------------

  /** A pipe slot holds exactly one end of a live pipe. */
  ghost predicate FileOk(f: File, pipes: map<nat, Pipe>) {
    if f.pipe == 0 then !f.rd && !f.wr && (InUse(f) || f == NO_FILE)
    else f.pipe in pipes && f.node == 0 && f.rd != f.wr
  }

  /** What a pipe sleeper has pending: nothing, or the Ctrl+C that came between its last test and its park. */
  ghost predicate OnlyMissed(t: Task) {
    t.sig == if t.missed then {SIGINT} else {}
  }

  /** A live blocked task waits for something that has not happened, a missed Ctrl+C excepted. */
  ghost predicate WaitsForReason(t: Task, pipes: map<nat, Pipe>) {
    t.state == Blocked && !t.zombie ==>
      match t.at
      case Reading(_, p, _) =>
        t.waitPipe == p && p in pipes && pipes[p].len == 0 && pipes[p].writers > 0 && OnlyMissed(t)
      case Writing(_, p, _, _) =>
        t.waitPipe == p && p in pipes && pipes[p].len == CAPACITY && pipes[p].readers > 0 && OnlyMissed(t)
      case Waiting(_) => true
      case _ => false
  }

  ghost predicate TaskOk(t: Task, pipes: map<nat, Pipe>) {
    && |t.fds| == MAX_FDS && |t.handlers| == NSIG
    && (forall fd :: 0 <= fd < MAX_FDS ==> FileOk(t.fds[fd], pipes))
    && (t.state == Free ==> t.fds == NoFds(MAX_FDS))
    && (t.at == Dead ==> t.zombie && t.state != Ready)
    && WaitsForReason(t, pipes)
  }

  /** Task `i` sleeps in waitpid although its child `j` is a zombie it asked for. */
  ghost predicate Misses(ts: seq<Task>, i: nat, j: nat)
    requires i < |ts| && j < |ts|
  {
    && ts[i].state == Blocked && !ts[i].zombie && ts[i].at.Waiting?
    && Wanted(ts[j], ts[i].pid, ts[i].at.pid)
  }

  ghost predicate NoMissedChild(ts: seq<Task>) {
    forall i: nat, j: nat | i < |ts| && j < |ts| :: !Misses(ts, i, j)
  }

  ghost predicate PidOk(t: Task, nextPid: int) {
    t.state != Free ==> 0 <= t.parent < t.pid < nextPid
  }

  ghost predicate SamePid(ts: seq<Task>, i: nat, j: nat)
    requires i < |ts| && j < |ts|
  {
    i != j && ts[i].state != Free && ts[j].state != Free && ts[i].pid == ts[j].pid
  }

  ghost predicate PidsOk(ts: seq<Task>, nextPid: int) {
    && 1 <= nextPid
    && (forall i :: 0 < i < |ts| ==> PidOk(ts[i], nextPid))
    && (forall i: nat, j: nat | i < |ts| && j < |ts| :: !SamePid(ts, i, j))
  }

  ghost predicate IdleOk(t: Task) {
    t.pid == 0 && t.at == Idling && !t.zombie && Runnable(t)
  }

  ghost predicate CountsOk(ts: seq<Task>, p: nat, q: Pipe) {
    && q.readers == CountSlots(ts, p, ReadEnd)
    && q.writers == CountSlots(ts, p, WriteEnd)
    && q.readers + q.writers > 0
  }

  ghost predicate StreamsOk(pipes: map<nat, Pipe>, nextGen: nat) {
    0 !in pipes && forall p <- pipes :: StreamOk(pipes[p]) && pipes[p].gen < nextGen
  }

  ghost predicate SlotsCounted(ts: seq<Task>, pipes: map<nat, Pipe>) {
    forall p <- pipes :: CountsOk(ts, p, pipes[p])
  }

  ghost predicate TasksOk(ts: seq<Task>, pipes: map<nat, Pipe>, nextPid: int) {
    && |ts| == MAX_TASKS
    && (forall i :: 0 <= i < MAX_TASKS ==> TaskOk(ts[i], pipes))
    && NoMissedChild(ts)
    && PidsOk(ts, nextPid)
    && IdleOk(ts[0])
  }

  ghost predicate Good(s: State) {
    && s.current < MAX_TASKS
    && TasksOk(s.tasks, s.pipes, s.nextPid)
    && StreamsOk(s.pipes, s.nextGen)
    && SlotsCounted(s.tasks, s.pipes)
  }

  lemma TablesOk(s: State)
    requires Good(s)
    ensures |s.tasks| == MAX_TASKS && NoMissedChild(s.tasks) && PidsOk(s.tasks, s.nextPid) && IdleOk(s.tasks[0])
    ensures forall i :: 0 <= i < MAX_TASKS ==> TaskOk(s.tasks[i], s.pipes)
  {
  }

  lemma FilesOk(s: State, i: nat, fd: nat)
    requires Good(s) && i < MAX_TASKS && fd < MAX_FDS
    ensures |s.tasks| == MAX_TASKS && |s.tasks[i].fds| == MAX_FDS && FileOk(s.tasks[i].fds[fd], s.pipes)
  {
    assert TaskOk(s.tasks[i], s.pipes);
  }

  lemma CountsAt(s: State, p: nat)
    requires Good(s) && p in s.pipes
    ensures p != 0 && CountsOk(s.tasks, p, s.pipes[p])
  {
  }

  /** A task inside a pipe operation still holds the descriptor it came through. */
  ghost predicate Parked(t: Task) {
    && (match t.at
        case Reading(fd, p, n) => fd < |t.fds| && p != 0 && n > 0 && Holds(t.fds[fd], p, ReadEnd)
        case Writing(fd, p, d, done) => fd < |t.fds| && p != 0 && done < |d| && Holds(t.fds[fd], p, WriteEnd)
        case _ => true)
    && (t.waitPipe != 0 ==> (t.at.Reading? || t.at.Writing?) && t.at.pipe == t.waitPipe)
  }

  ghost predicate AllParked(ts: seq<Task>) {
    forall i :: 0 <= i < |ts| && ts[i].state != Free ==> Parked(ts[i])
  }

  /** Exactly the current task runs, and it has something to run. */
  ghost predicate Scheduled(s: State) {
    && s.current < |s.tasks|
    && Cur(s).state == Running && Cur(s).at != Dead
    && forall i :: 0 <= i < |s.tasks| && i != s.current ==> s.tasks[i].state != Running
  }

  ghost predicate Inv(s: State) {
    Good(s) && AllParked(s.tasks) && Scheduled(s)
  }

  // ---- what never goes back --------------------------------------------

  ghost predicate PipeGrows(q: Pipe, q': Pipe) {
    && q.gen == q'.gen && q.sent <= q'.sent && q.received <= q'.received
    && (q.writers == 0 ==> q'.writers == 0 && q'.sent == q.sent)
    && (q.readers == 0 ==> q'.readers == 0 && q'.received == q.received)
  }

  ghost predicate PipesLater(pipes: map<nat, Pipe>, nextGen: nat, pipes': map<nat, Pipe>) {
    forall p <- pipes' :: pipes'[p].gen >= nextGen || (p in pipes && PipeGrows(pipes[p], pipes'[p]))
  }

  ghost predicate TaskLater(t: Task, t': Task, nextPid: int) {
    t'.state != Free ==>
      || t'.pid >= nextPid
      || (&& t.state != Free && t.pid == t'.pid && t.parent == t'.parent
          && (t.zombie ==> t'.zombie)
          && (t.zombie && t.state == Blocked ==> t'.state == Blocked))
  }

  ghost predicate TasksLater(ts: seq<Task>, ts': seq<Task>, nextPid: int) {
    |ts| == |ts'| && forall j :: 0 <= j < |ts| ==> TaskLater(ts[j], ts'[j], nextPid)
  }

  ghost predicate Later(s: State, s': State) {
    && s.nextGen <= s'.nextGen && PipesLater(s.pipes, s.nextGen, s'.pipes)
    && s.nextPid <= s'.nextPid && TasksLater(s.tasks, s'.tasks, s.nextPid)
  }

  lemma LaterReflexive(s: State)
    ensures Later(s, s)
  {
  }

  lemma LaterTransitive(a: State, b: State, c: State)
    requires Later(a, b) && Later(b, c)
    ensures Later(a, c)
  {
    forall j | 0 <= j < |a.tasks| ensures TaskLater(a.tasks[j], c.tasks[j], a.nextPid) {
      assert TaskLater(a.tasks[j], b.tasks[j], a.nextPid) && TaskLater(b.tasks[j], c.tasks[j], b.nextPid);
    }
  }

  /** What the code of the running task does to the others before it yields: nobody else starts or stops. */
  ghost predicate Local(s: State, s': State) {
    && s'.current == s.current && |s'.tasks| == |s.tasks|
    && forall j :: 0 <= j < |s.tasks| && j != s.current ==>
         && (s.tasks[j].state == Ready || s.tasks[j].state == Free ==>
           s'.tasks[j].state == Ready || s'.tasks[j].state == Free)
         && (s.tasks[j].state != Running ==> s'.tasks[j].state != Running)
  }

  // ---- changes that leave descriptors alone ------------------------------

  ghost predicate SameIdentity(t: Task, t': Task) {
    && t'.fds == t.fds && t'.pid == t.pid && t'.parent == t.parent
    && (t.state == Free <==> t'.state == Free)
  }

  lemma IdentityKeepsPids(ts: seq<Task>, ts': seq<Task>, nextPid: int)
    requires PidsOk(ts, nextPid) && |ts| == |ts'|
    requires forall i :: 0 <= i < |ts| ==>
      ts'[i].pid == ts[i].pid && ts'[i].parent == ts[i].parent && (ts'[i].state != Free ==> ts[i].state != Free)
    ensures PidsOk(ts', nextPid)
  {
    forall i: nat, j: nat | i < |ts'| && j < |ts'| ensures !SamePid(ts', i, j) { assert !SamePid(ts, i, j); }
    forall i | 0 < i < |ts'| ensures PidOk(ts'[i], nextPid) { assert PidOk(ts[i], nextPid); }
  }

  /** Changing states, signals and places keeps the invariant if each task and the waitpid condition keep theirs. */
  lemma TasksChange(s: State, ts: seq<Task>)
    requires Good(s) && |ts| == MAX_TASKS
    requires forall i :: 0 <= i < MAX_TASKS ==> SameIdentity(s.tasks[i], ts[i]) && TaskOk(ts[i], s.pipes)
    requires NoMissedChild(ts) && IdleOk(ts[0])
    ensures Good(s.(tasks := ts))
  {
    IdentityKeepsPids(s.tasks, ts, s.nextPid);
    forall p | p in s.pipes ensures CountsOk(ts, p, s.pipes[p]) {
      CountSlotsSame(s.tasks, ts, p, ReadEnd);
      CountSlotsSame(s.tasks, ts, p, WriteEnd);
    }
  }

  lemma SetTaskChange(s: State, i: nat, t: Task)
    requires Good(s) && i < MAX_TASKS && i != 0
    requires SameIdentity(s.tasks[i], t) && TaskOk(t, s.pipes)
    requires NoMissedChild(s.tasks[i := t])
    ensures Good(SetTask(s, i, t))
  {
    TasksChange(s, s.tasks[i := t]);
  }

  lemma WakeOneKeeps(s: State, i: nat)
    requires Good(s) && i < MAX_TASKS
    ensures Good(SetTask(s, i, Wake(s.tasks[i])))
    ensures Later(s, SetTask(s, i, Wake(s.tasks[i])))
  {
    var ts := s.tasks[i := Wake(s.tasks[i])];
    forall a: nat, b: nat | a < |ts| && b < |ts| ensures !Misses(ts, a, b) { assert !Misses(s.tasks, a, b); }
    TasksChange(s, ts);
  }

  lemma PipeWakeKeeps(s: State, p: nat)
    requires Good(s)
    ensures Good(PipeWake(s, p)) && Later(s, PipeWake(s, p))
  {
    var ts := WakeAll(s.tasks, p);
    forall a: nat, b: nat | a < |ts| && b < |ts| ensures !Misses(ts, a, b) { assert !Misses(s.tasks, a, b); }
    TasksChange(s, ts);
  }
}

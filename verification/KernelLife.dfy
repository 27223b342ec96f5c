/** Birth, death and signals keep the invariant. */
module KernelLife {
  import opened Bytes
  import opened Pipes
  import opened KernelState
  import opened KernelInv
  import opened KernelSteps

  /** What a segment of the running task guarantees at its end. */
  ghost predicate SegmentOk(s: State, g: Segment) {
    && Good(g.s) && AllParked(g.s.tasks) && Later(s, g.s) && Local(s, g.s)
    && (if g.switches then Cur(g.s).state != Free && (g.s.current == 0 ==> Cur(g.s).state == Running)
        else Cur(g.s).state == Running && Cur(g.s).at != Dead)
  }

  /** The change of one task that keeps its identity and does not hide a zombie. */
  ghost predicate QuietChange(t: Task, t': Task) {
    SameIdentity(t, t') && t'.zombie == t.zombie && t'.state == t.state
  }

  lemma QuietKeeps(s: State, i: nat, t: Task)
    requires Good(s) && i < MAX_TASKS && QuietChange(s.tasks[i], t) && TaskOk(t, s.pipes)
    requires (t.state == Blocked ==> t.at == s.tasks[i].at) && (i == 0 ==> t.at == Idling)
    ensures Good(SetTask(s, i, t)) && Later(s, SetTask(s, i, t)) && Local(s, SetTask(s, i, t))
  {
    var ts := s.tasks[i := t];
    forall a: nat, b: nat | a < |ts| && b < |ts| ensures !Misses(ts, a, b) { assert !Misses(s.tasks, a, b); }
    TasksChange(s, ts);
  }

  /** Waking the parent by pid is enough: pids are unique, so nobody else waits for this zombie. */
  lemma ParentIsTold(ts: seq<Task>, v: nat, t: Task, nextPid: int)
    requires |ts| == MAX_TASKS && NoMissedChild(ts) && PidsOk(ts, nextPid)
    requires 0 < v < MAX_TASKS && t.pid == ts[v].pid && t.parent == ts[v].parent && t.zombie
    requires t.state == ts[v].state != Free
    ensures var m := ts[v := t];
      var k := FindPid(m, t.parent, 0);
      NoMissedChild(if k < MAX_TASKS then m[k := Wake(m[k])] else m)
  {
    var m := ts[v := t];
    var k := FindPid(m, t.parent, 0);
    var r := if k < MAX_TASKS then m[k := Wake(m[k])] else m;
    forall i: nat, j: nat | i < MAX_TASKS && j < MAX_TASKS ensures !Misses(r, i, j) {
      assert !Misses(ts, i, j);
      if j == v && t.parent == r[i].pid && i != k && r[i].state != Free {
        assert k < i && !SamePid(ts, i, k);
      }
    }
  }

  /** The table after task `v` became `t` and its parent was woken. */
  ghost function Told(ts: seq<Task>, v: nat, t: Task): seq<Task>
    requires v < |ts|
  {
    var m := ts[v := t];
    var k := FindPid(m, t.parent, 0);
    if k < |m| then m[k := Wake(m[k])] else m
  }

  lemma ToldTasks(ts: seq<Task>, v: nat, t: Task, nextPid: int)
    requires |ts| == MAX_TASKS && 0 < v < MAX_TASKS && ts[v].state != Free
    requires SameIdentity(ts[v], t) && t.zombie && t.state == ts[v].state
    ensures var r := Told(ts, v, t);
      && |r| == MAX_TASKS && r[v] == t && SameFds(ts, r) && TasksLater(ts, r, nextPid)
      && (forall j :: 0 <= j < MAX_TASKS ==> SameIdentity(ts[j], r[j]))
      && (forall j :: 0 <= j < MAX_TASKS && j != v ==> Woken(ts[j], r[j]) && (r[j] == ts[j] || r[j] == Wake(ts[j])))
  {
    hide FindPid;
  }

  lemma WakeTaskOk(t: Task, pipes: map<nat, Pipe>)
    requires TaskOk(t, pipes)
    ensures TaskOk(Wake(t), pipes)
  {
    hide FileOk;
  }

  lemma ToldIdle(ts: seq<Task>, v: nat, t: Task)
    requires |ts| == MAX_TASKS && 0 < v < MAX_TASKS && IdleOk(ts[0])
    ensures IdleOk(Told(ts, v, t)[0])
  {
    hide FindPid;
  }

  /** A task becomes a zombie and its parent, found by pid, is woken. */
  lemma DeathKeeps(s: State, v: nat, t: Task)
    requires Good(s) && 0 < v < MAX_TASKS && s.tasks[v].state != Free
    requires SameIdentity(s.tasks[v], t) && TaskOk(t, s.pipes) && t.zombie && t.state == s.tasks[v].state
    ensures var r := WakePid(SetTask(s, v, t), t.parent);
      && Good(r) && Later(s, r) && r.current == s.current && r.pipes == s.pipes
      && r.tasks[v] == t && SameFds(s.tasks, r.tasks)
      && forall j :: 0 <= j < MAX_TASKS && j != v ==> Woken(s.tasks[j], r.tasks[j])
  {
    hide Good, Told, FindPid, TaskOk, NoMissedChild, PidsOk, IdleOk, SameFds, TasksLater, Wake, Woken, PipesLater,
      SameIdentity;
    TablesOk(s);
    SameIs(s.tasks[v], t);
    ParentIsTold(s.tasks, v, t, s.nextPid);
    ToldTasks(s.tasks, v, t, s.nextPid);
    ToldIdle(s.tasks, v, t);
    LaterReflexive(s);
    var ts := Told(s.tasks, v, t);
    assert WakePid(SetTask(s, v, t), t.parent) == s.(tasks := ts) && NoMissedChild(ts) by { ToldIs(s, v, t); }
    forall i | 0 <= i < MAX_TASKS ensures TaskOk(ts[i], s.pipes) {
      assert TaskOk(s.tasks[i], s.pipes);
      if i != v { WakeTaskOk(s.tasks[i], s.pipes); }
    }
    TasksChange(s, ts);
  }

  lemma SameIs(t: Task, t': Task)
    requires SameIdentity(t, t')
    ensures t'.pid == t.pid && t'.parent == t.parent && t'.fds == t.fds
  {
  }

  lemma ToldIs(s: State, v: nat, t: Task)
    requires |s.tasks| == MAX_TASKS && v < MAX_TASKS
    ensures WakePid(SetTask(s, v, t), t.parent) == s.(tasks := Told(s.tasks, v, t))
    ensures Told(s.tasks, v, t) == (var m := s.tasks[v := t];
      var k := FindPid(m, t.parent, 0);
      if k < MAX_TASKS then m[k := Wake(m[k])] else m)
  {
    hide FindPid, Wake;
  }

  lemma BuryKeeps(s: State, status: int)
    requires Inv(s) && Cur(s).at == User
    ensures var r := Bury(s, status);
      && Good(r) && Later(s, r) && Local(s, r) && AllParked(r.tasks)
      && Cur(r) == Cur(s).(status := status, zombie := true, at := Dead)
  {
    var t := Cur(s).(status := status, zombie := true, at := Dead);
    assert TaskOk(t, s.pipes) by { TablesOk(s); }
    assert s.current != 0 by { TablesOk(s); }
    hide Good, Later, TaskOk, FindPid, Woken;
    DeathKeeps(s, s.current, t);
    BuryParked(s, Bury(s, status));
  }

  lemma BuryParked(s: State, r: State)
    requires Scheduled(s) && AllParked(s.tasks) && SameFds(s.tasks, r.tasks) && r.current == s.current
    requires r.tasks[s.current].at == Dead && r.tasks[s.current].waitPipe == 0
    requires forall j :: 0 <= j < |s.tasks| && j != s.current ==> Woken(s.tasks[j], r.tasks[j])
    ensures AllParked(r.tasks) && Local(s, r)
  {
    forall j | 0 <= j < |r.tasks| && r.tasks[j].state != Free ensures Parked(r.tasks[j]) {
      if j != s.current { assert Woken(s.tasks[j], r.tasks[j]) && Parked(s.tasks[j]); }
    }
  }

  lemma TerminateKeeps(s: State, sig: nat)
    requires Inv(s) && Cur(s).at == User
    ensures SegmentOk(s, Terminate(s, sig))
  {
    hide FdsRelease, FdPut, Bury;
    BuryKeeps(s, 0 - sig);
    var b := Bury(s, 0 - sig);
    var r := FdsRelease(b, s.current, 0);
    FdsReleaseKeeps(b, s.current, 0);
    LaterTransitive(s, b, r);
    hide FdsRelease, FdPut, Bury, StreamsOk, SlotsCounted, TaskOk, PidsOk, NoMissedChild, PipesLater, TasksLater;
    forall i | 0 <= i < |r.tasks| && r.tasks[i].state != Free ensures Parked(r.tasks[i]) {
      assert Woken(b.tasks[i], r.tasks[i]);
    }
    forall j | 0 <= j < MAX_TASKS ensures Woken(b.tasks[j], r.tasks[j]) { }
  }

  lemma {:induction false} DeliverKeeps(s: State)
    requires Inv(s) && Cur(s).at == User
    ensures SegmentOk(s, Deliver(s))
    ensures !Deliver(s).switches ==> Inv(Deliver(s).s) && Cur(Deliver(s).s).at == User
    decreases |Cur(s).sig|
  {
    hide StreamsOk, SlotsCounted, PidsOk, NoMissedChild, PipesLater, TasksLater, Terminate, Wake;
    var sig := Lowest(Cur(s).sig, 0);
    assert TaskOk(Cur(s), s.pipes);
    LaterReflexive(s);
    if sig < NSIG {
      var s' := SetCur(s, Cur(s).(sig := Cur(s).sig - {sig}));
      QuietKeeps(s, s.current, Cur(s).(sig := Cur(s).sig - {sig}));
      if Cur(s).handlers[sig] == Default && Fatal(sig) {
        TerminateKeeps(s, sig);
      } else if !Cur(s).handlers[sig].Handler? {
        DeliverKeeps(s');
        LaterTransitive(s, s', Deliver(s').s);
      }
    }
  }

  // ---- code that only touches its own descriptors ------------------------

  ghost predicate OwnOnly(s: State, r: State) {
    && r.current == s.current && s.current < |s.tasks| && AllWoken(s.tasks, r.tasks)
    && forall j :: 0 <= j < |s.tasks| && j != s.current ==> r.tasks[j].fds == s.tasks[j].fds
  }

  lemma OwnOnlyEnds(s: State, r: State, reply: Reply)
    requires Inv(s) && Cur(s).at == User && Good(r) && Later(s, r) && OwnOnly(s, r)
    ensures SegmentOk(s, Segment(r, false, reply)) && Inv(r) && Cur(r).at == User
  {
    assert |s.tasks| == MAX_TASKS;
    hide Good, PipesLater, TasksLater;
    forall j | 0 <= j < |s.tasks|
      ensures Woken(s.tasks[j], r.tasks[j]) && (r.tasks[j].state != Free ==> Parked(r.tasks[j]))
    {
      assert s.tasks[j].state != Free ==> Parked(s.tasks[j]);
    }
  }

  // ---- reaping and forking ----------------------------------------------

  /** Emptying a slot that holds no descriptors. */
  lemma EmptySlotKeeps(s: State, i: nat)
    requires Good(s) && 0 < i < MAX_TASKS && s.tasks[i].fds == NoFds(MAX_FDS)
    ensures Good(SetTask(s, i, NoTask())) && Later(s, SetTask(s, i, NoTask()))
  {
    var ts := s.tasks[i := NoTask()];
    forall a: nat, b: nat | a < |ts| && b < |ts| ensures !Misses(ts, a, b) && !SamePid(ts, a, b) {
      assert !Misses(s.tasks, a, b) && !SamePid(s.tasks, a, b);
    }
    forall p | p in s.pipes ensures CountsOk(ts, p, s.pipes[p]) {
      CountSlotsSame(s.tasks, ts, p, ReadEnd);
      CountSlotsSame(s.tasks, ts, p, WriteEnd);
      assert CountsOk(s.tasks, p, s.pipes[p]);
    }
  }

  lemma ReapKeeps(s: State, i: nat)
    requires Inv(s) && 0 < i < MAX_TASKS && i != s.current
    ensures SegmentOk(s, Segment(Reap(s, i), false, NoReply))
  {
    hide FdsRelease, FdPut, StreamsOk, SlotsCounted, PidsOk, NoMissedChild, PipesLater, TasksLater;
    var m := FdsRelease(s, i, 0);
    FdsReleaseKeeps(s, i, 0);
    EmptySlotKeeps(m, i);
    LaterTransitive(s, m, Reap(s, i));
    forall j | 0 <= j < MAX_TASKS ensures Woken(s.tasks[j], m.tasks[j]) { }
    forall j | 0 <= j < MAX_TASKS && j != i && m.tasks[j].state != Free ensures Parked(m.tasks[j]) {
      assert Woken(s.tasks[j], m.tasks[j]);
    }
  }
}

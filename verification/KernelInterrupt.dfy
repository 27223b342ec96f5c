/** Ctrl+C at any point of a segment. */
module KernelInterrupt {
  import opened Bytes
  import opened Pipes
  import opened KernelState
  import opened KernelInv
  import opened KernelSteps
  import opened KernelLife

  /** A change that leaves descriptors and places alone and stops nobody. */
  ghost predicate RemoteTask(t: Task, t': Task) {
    && t'.fds == t.fds && t'.at == t.at
    && (t'.state == t.state || (t.state == Blocked && t'.state == Ready))
    && (t'.waitPipe == t.waitPipe || t'.waitPipe == 0)
  }

  ghost predicate Remote(ts: seq<Task>, ts': seq<Task>) {
    |ts| == |ts'| && forall j :: 0 <= j < |ts| ==> RemoteTask(ts[j], ts'[j])
  }

  lemma RemoteTransitive(a: seq<Task>, b: seq<Task>, c: seq<Task>)
    requires Remote(a, b) && Remote(b, c)
    ensures Remote(a, c)
  {
    forall j | 0 <= j < |a| ensures RemoteTask(a[j], c[j]) { assert RemoteTask(a[j], b[j]) && RemoteTask(b[j], c[j]); }
  }

  lemma WakeAllRemote(ts: seq<Task>, p: nat)
    ensures Remote(ts, WakeAll(ts, p))
  {
  }

  lemma RemoteEnds(s: State, r: State, reply: Reply)
    requires Inv(s) && r.current == s.current && Remote(s.tasks, r.tasks) && Good(r) && Later(s, r)
    ensures SegmentOk(s, Segment(r, false, reply)) && Inv(r)
  {
    hide Good, Later;
    forall j | 0 <= j < |s.tasks|
      ensures RemoteTask(s.tasks[j], r.tasks[j]) && (r.tasks[j].state != Free ==> Parked(r.tasks[j]))
    {
      assert s.tasks[j].state != Free ==> Parked(s.tasks[j]);
    }
  }

  lemma SigintTask(s: State, group: set<nat>, i: nat)
    requires Good(s) && AllParked(s.tasks) && i < MAX_TASKS
    ensures var t, t' := s.tasks[i], RaiseSigint(s, group).tasks[i];
      && TaskOk(t', s.pipes) && SameIdentity(t, t') && RemoteTask(t, t') && TaskLater(t, t', s.nextPid)
      && t'.zombie == t.zombie && (i == 0 ==> t' == t)
  {
    assert TaskOk(s.tasks[i], s.pipes);
    assert s.tasks[i].state != Free ==> Parked(s.tasks[i]);
  }

  /** Wherever it arrives, a Ctrl+C loses nobody's reason to sleep. */
  lemma SigintGood(s: State, group: set<nat>)
    requires Good(s) && AllParked(s.tasks)
    ensures var r := RaiseSigint(s, group);
      && Good(r) && Later(s, r) && Remote(s.tasks, r.tasks)
      && r.current == s.current < |s.tasks| && r.tasks[0] == s.tasks[0]
  {
    var r := RaiseSigint(s, group);
    hide TaskOk, TaskLater, StreamsOk, SlotsCounted, PidsOk;
    forall i | 0 <= i < MAX_TASKS
      ensures var t, t' := s.tasks[i], r.tasks[i];
        && TaskOk(t', s.pipes) && SameIdentity(t, t') && RemoteTask(t, t') && TaskLater(t, t', s.nextPid)
        && t'.zombie == t.zombie
    {
      SigintTask(s, group, i);
    }
    SigintTask(s, group, 0);
    hide RaiseSigint;
    forall a: nat, b: nat | a < MAX_TASKS && b < MAX_TASKS
      ensures !Misses(r.tasks, a, b)
    {
      assert !Misses(s.tasks, a, b);
    }
    TasksChange(s, r.tasks);
  }

  lemma SigintKeeps(s: State, group: set<nat>)
    requires Inv(s)
    ensures SegmentOk(s, Segment(RaiseSigint(s, group), false, NoReply)) && Inv(RaiseSigint(s, group))
  {
    hide Good, Later, Remote, RaiseSigint, AllParked;
    SigintGood(s, group);
    RemoteEnds(s, RaiseSigint(s, group), NoReply);
  }

  lemma RemoteParked(ts: seq<Task>, ts': seq<Task>)
    requires AllParked(ts) && Remote(ts, ts')
    ensures AllParked(ts')
  {
    forall j | 0 <= j < |ts'| && ts'[j].state != Free ensures Parked(ts'[j]) {
      assert RemoteTask(ts[j], ts'[j]) && Parked(ts[j]);
    }
  }

  /** At the end of a segment, before the switch or the return, it keeps what the switch relies on. */
  lemma LateKeeps(s: State, g: Segment, late: set<nat>)
    requires SegmentOk(s, g)
    ensures SegmentOk(s, g.(s := RaiseSigint(g.s, late)))
  {
    hide Good, Later, RaiseSigint, AllParked;
    var r := RaiseSigint(g.s, late);
    SigintGood(g.s, late);
    LaterTransitive(s, g.s, r);
    RemoteParked(g.s.tasks, r.tasks);
    forall j | 0 <= j < |r.tasks| ensures RemoteTask(g.s.tasks[j], r.tasks[j]) { }
  }

  /** A Ctrl+C changes nothing of the running task but its pending signals. */
  lemma LandCur(s: State, ints: Ints)
    requires s.current < |s.tasks| && Cur(s).state == Running
    ensures Cur(Land(s, ints)) == Cur(s).(sig := Cur(s).sig + if Hits(s, ints) then {SIGINT} else {})
    ensures Land(s, ints).pipes == s.pipes && Land(s, ints).nextGen == s.nextGen
  {
    assert Cur(s).sig + {} == Cur(s).sig;
  }

  /** In the middle of a segment it keeps the invariant and stops nobody. */
  lemma LandKeeps(s: State, ints: Ints)
    requires Inv(s)
    ensures Inv(Land(s, ints)) && Later(s, Land(s, ints)) && Local(s, Land(s, ints))
  {
    hide Good, Later, RaiseSigint;
    if ints == [] {
      LaterReflexive(s);
    } else {
      SigintKeeps(s, ints[0]);
    }
  }
}

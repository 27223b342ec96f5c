/** The round-robin switch. */
module KernelSched {
  import opened Pipes
  import opened KernelState
  import opened KernelInv
  import opened KernelSteps
  import opened KernelLife

  /** The scan stops at the first runnable slot; `k` is how far it went. */
  lemma {:induction false} ScanFirst(ts: seq<Task>, start: nat, i: nat) returns (k: nat)
    requires start < |ts| && 1 <= i <= |ts| + 1
    ensures i <= k <= |ts| + 1
    ensures forall j :: i <= j < k ==> !RunnableAt(ts, start, j)
    ensures if k <= |ts| then ScanFrom(ts, start, i) == (start + k) % |ts| && RunnableAt(ts, start, k)
            else ScanFrom(ts, start, i) == start
    decreases |ts| + 1 - i
  {
    if i == |ts| + 1 || RunnableAt(ts, start, i) { k := i; } else { k := ScanFirst(ts, start, i + 1); }
  }

  /** How many places after `from` the slot `i` comes in the round. */
  function Distance(from: nat, i: nat): (d: nat)
    requires from < MAX_TASKS && i < MAX_TASKS
    ensures d < MAX_TASKS && (d == 0 <==> from == i) && (from + d) % MAX_TASKS == i
  {
    if i >= from then i - from else i + MAX_TASKS - from
  }

  lemma DistanceShrinks(from: nat, k: nat, i: nat)
    requires from < MAX_TASKS && i < MAX_TASKS && from != i && 1 <= k < Distance(from, i)
    ensures Distance((from + k) % MAX_TASKS, i) == Distance(from, i) - k
  {
  }

  /** A yield dispatches a waiting task or brings it closer. */
  lemma YieldApproaches(s: State, i: nat)
    requires |s.tasks| == MAX_TASKS && s.current < MAX_TASKS && i < MAX_TASKS
    requires i != s.current && Runnable(s.tasks[i])
    ensures Runnable(s.tasks[ScanFrom(s.tasks, s.current, 1)])
    ensures Yield(s).current != s.current
    ensures Yield(s).current == i || Distance(Yield(s).current, i) < Distance(s.current, i)
  {
    var k := ScanFirst(s.tasks, s.current, 1);
    var d := Distance(s.current, i);
    assert RunnableAt(s.tasks, s.current, d);
    if k < d { DistanceShrinks(s.current, k, i); }
  }

  lemma SwitchTask(t: Task, pipes: map<nat, Pipe>, nextPid: int)
    requires TaskOk(t, pipes)
    ensures t.state == Running ==>
      var out := t.(state := if t.zombie then Blocked else Ready);
      t.at != Dead || t.zombie ==> TaskOk(out, pipes) && SameIdentity(t, out) && TaskLater(t, out, nextPid)
    ensures t.state == Ready ==>
      var run := t.(state := Running);
      TaskOk(run, pipes) && SameIdentity(t, run) && TaskLater(t, run, nextPid) && run.at != Dead
  {
  }

  lemma SwitchKeeps(s: State, next: nat)
    requires Good(s) && Cur(s).state != Free
    requires next < MAX_TASKS && next != s.current && s.tasks[next].state == Ready
    requires forall i :: 0 <= i < MAX_TASKS && i != s.current ==> s.tasks[i].state != Running
    ensures Good(SwitchTo(s, next)) && Later(s, SwitchTo(s, next)) && Scheduled(SwitchTo(s, next))
  {
    var r := SwitchTo(s, next);
    assert TaskOk(Cur(s), s.pipes) && TaskOk(s.tasks[next], s.pipes);
    SwitchTask(Cur(s), s.pipes, s.nextPid);
    SwitchTask(s.tasks[next], s.pipes, s.nextPid);
    hide TaskOk, TaskLater, StreamsOk, SlotsCounted, PidsOk;
    assert forall i :: 0 <= i < MAX_TASKS && i != next && i != s.current ==> r.tasks[i] == s.tasks[i];
    forall a: nat, b: nat | a < MAX_TASKS && b < MAX_TASKS
      ensures !Misses(r.tasks, a, b)
    {
      assert !Misses(s.tasks, a, b);
    }
    TasksChange(s, r.tasks);
    SwitchLater(s, next);
  }

  lemma SwitchLater(s: State, next: nat)
    requires Good(s) && Cur(s).state != Free
    requires next < MAX_TASKS && next != s.current && s.tasks[next].state == Ready
    ensures Later(s, SwitchTo(s, next))
  {
    hide StreamsOk, SlotsCounted, PidsOk, NoMissedChild, TaskOk;
    forall i | 0 <= i < |s.tasks| ensures TaskLater(s.tasks[i], SwitchTo(s, next).tasks[i], s.nextPid) { }
  }

  lemma YieldTasks(s: State)
    requires Good(s) && Cur(s).state != Free && (s.current == 0 ==> Cur(s).state == Running)
    requires forall i :: 0 <= i < MAX_TASKS && i != s.current ==> s.tasks[i].state != Running
    ensures Good(Yield(s)) && Later(s, Yield(s)) && Scheduled(Yield(s))
    ensures s.current != 0 ==> Yield(s).current != s.current
  {
    if s.current != 0 { YieldApproaches(s, 0); }
    LaterReflexive(s);
    var next := ScanFrom(s.tasks, s.current, 1);
    var k := ScanFirst(s.tasks, s.current, 1);
    if next != s.current { SwitchKeeps(s, next); }
  }

  lemma YieldParked(s: State)
    requires s.current < |s.tasks| && AllParked(s.tasks) && Cur(s).state != Free
    requires s.tasks[ScanFrom(s.tasks, s.current, 1)].state != Free
    ensures AllParked(Yield(s).tasks)
  {
  }

  /** After any segment that ends in sched_yield the invariant holds again. */
  lemma YieldKeeps(s: State, g: Segment)
    requires Inv(s) && SegmentOk(s, g) && g.switches
    ensures Inv(Yield(g.s)) && Later(s, Yield(g.s))
    ensures g.s.current != 0 ==> Yield(g.s).current != s.current
  {
    var k := ScanFirst(g.s.tasks, g.s.current, 1);
    YieldTasks(g.s);
    LaterTransitive(s, g.s, Yield(g.s));
    hide Good, Later;
    YieldParked(g.s);
  }
}

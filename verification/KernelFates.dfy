/** Signals, and how tasks end: what a signal does to whom, and where an exit status comes from. */
module KernelFates {
  import opened Options
  import opened Bytes
  import opened Pipes
  import opened KernelState
  import opened KernelInv
  import opened KernelSteps
  import opened KernelLife
  import opened KernelInterrupt
  import opened KernelBlock
  import opened KernelSignal
  import opened KernelRuns
  import opened KernelTheorems
  import opened KernelCalls

  // ---- delivery --------------------------------------------------------------------------

  /** A pending signal that is neither ignored nor harmless. */
  ghost predicate Stops(t: Task, k: nat) {
    && k < NSIG == |t.handlers| && k in t.sig
    && (t.handlers[k].Handler? || (t.handlers[k] == Default && Fatal(k)))
  }

  ghost predicate FirstStop(t: Task, k: nat) {
    Stops(t, k) && forall j: nat | j < k :: !Stops(t, j)
  }

  /** The running task has these signals pending. */
  function Pending(s: State, sig: set<nat>): State
    requires s.current < |s.tasks|
  {
    SetCur(s, Cur(s).(sig := sig))
  }

  function From(sig: set<nat>, k: nat): set<nat> {
    set x <- sig | x >= k
  }

  /**
   Delivery drops the signals that do nothing, in ascending order, up to the first that does
   something: a fatal one ends its task with its number as status, a caught one is taken, and the
   call goes on.
   */
  lemma {:induction false} DeliverMeans(s: State) returns (k: nat)
    requires Inv(s) && Cur(s).at == User
    ensures |Cur(s).handlers| == NSIG && k <= NSIG && (forall j: nat | j < k :: !Stops(Cur(s), j))
    ensures k < NSIG ==> Stops(Cur(s), k)
    ensures var g := Deliver(s);
      && g.reply == NoReply && (g.switches <==> k < NSIG && Cur(s).handlers[k] == Default)
      && (g.switches ==>
            && Ended(Pending(s, From(Cur(s).sig, k)), g.s, 0 - k) && g.s.current == s.current < |g.s.tasks|
            && Cur(g.s).fds == NoFds(MAX_FDS) && RingsKept(s.pipes, g.s.pipes))
      && (!g.switches ==> g.s == Pending(s, From(Cur(s).sig, if k < NSIG then k + 1 else NSIG)))
    decreases |Cur(s).sig|
  {
    hide Good, AllParked, Terminate, Ended, RingsKept, NoFds, Stops, From, Lowest;
    TablesOk(s);
    var sig := Cur(s).sig;
    var low := Lowest(sig, 0);
    LowestFrom(s, low);
    k := low;
    if low == NSIG {
      assert !Stops(Cur(s), NSIG) by { NoSuchSignal(Cur(s)); }
    } else if Stops(Cur(s), low) {
      TerminateMeans(s, low);
      StopsIs(Cur(s), low);
    } else {
      var m := Pending(s, sig - {low});
      PendingInv(s, sig - {low});
      k := DeliverMeans(m);
      DropLowest(s, low);
      StopsIs(Cur(s), low);
      assert k > low;
      PendingTwice(s, sig - {low}, From(sig, k));
      PendingTwice(s, sig - {low}, From(sig, if k < NSIG then k + 1 else NSIG));
    }
  }

  lemma NoSuchSignal(t: Task)
    ensures !Stops(t, NSIG)
  {
  }

  lemma StopsIs(t: Task, k: nat)
    requires k < NSIG == |t.handlers| && k in t.sig
    ensures Stops(t, k) <==> t.handlers[k].Handler? || (t.handlers[k] == Default && Fatal(k))
  {
  }

  /** Nothing is pending below the lowest pending signal. */
  lemma LowestFrom(s: State, low: nat)
    requires s.current < |s.tasks| && low == Lowest(Cur(s).sig, 0)
    ensures forall j: nat | j < low :: !Stops(Cur(s), j)
    ensures Pending(s, From(Cur(s).sig, low)) == s
    ensures Pending(s, From(Cur(s).sig, low + 1)) == Pending(s, Cur(s).sig - {low})
  {
    hide Lowest;
    var sig := Cur(s).sig;
    assert From(sig, low) == sig;
    assert From(sig, low + 1) == sig - {low};
    assert s.tasks[s.current := Cur(s)] == s.tasks;
  }

  lemma PendingTwice(s: State, a: set<nat>, b: set<nat>)
    requires s.current < |s.tasks|
    ensures Pending(Pending(s, a), b) == Pending(s, b)
  {
    var t, i := Cur(s), s.current;
    assert s.tasks[i := t.(sig := a)][i := t.(sig := b)] == s.tasks[i := t.(sig := b)];
  }

  /** Dropping a signal that does nothing changes nothing about the others. */
  lemma DropLowest(s: State, low: nat)
    requires s.current < |s.tasks| && low == Lowest(Cur(s).sig, 0) < NSIG && !Stops(Cur(s), low)
    ensures forall j: nat :: Stops(Cur(s).(sig := Cur(s).sig - {low}), j) <==> Stops(Cur(s), j)
    ensures forall k: nat | k > low :: From(Cur(s).sig - {low}, k) == From(Cur(s).sig, k)
  {
    hide Lowest;
  }

  lemma PendingInv(s: State, sig: set<nat>)
    requires Inv(s) && Cur(s).at == User
    ensures Inv(Pending(s, sig))
  {
    assert TaskOk(Cur(s), s.pipes);
    hide StreamsOk, SlotsCounted, PidsOk, NoMissedChild, PipesLater, TasksLater;
    QuietKeeps(s, s.current, Cur(s).(sig := sig));
  }

  /** A task whose first effective pending signal is fatal gets no answer from its next system call: it ends there. */
  lemma FatalAtEntry(s: State, call: Call, preempt: bool, k: nat)
    requires Inv(s) && Shaped(s) && Cur(s).at == User && FirstStop(Cur(s), k) && Cur(s).handlers[k] == Default
    ensures var g := Run(s, Enter(call, preempt));
      && g.switches && g.reply == NoReply && g.s.current == s.current < |g.s.tasks|
      && Cur(g.s).zombie && Cur(g.s).status == 0 - k && Cur(g.s).at == Dead
  {
    hide Good, AllParked, Deliver, Body;
    var j := DeliverMeans(s);
  }

  // ---- kill ------------------------------------------------------------------------------

  /** What `sig` does to a task that is not the sender: it is marked, and killed or woken. */
  ghost predicate Hit(t: Task, t': Task, sig: nat) {
    && t'.sig == t.sig + {sig} && t'.pid == t.pid && t'.parent == t.parent
    && t'.fds == t.fds && t'.handlers == t.handlers && t'.at == t.at && t'.missed == t.missed
    && (t'.waitPipe == t.waitPipe || t'.waitPipe == 0)
    && if sig == SIGKILL && (t.state == Blocked || t.state == Ready) then
         t'.zombie && t'.status == 0 - SIGKILL && t'.state == t.state
       else
         && t'.zombie == t.zombie && t'.status == t.status
         && t'.state == if t.state == Blocked && !t.zombie && t.waitPipe != 0 then Ready else t.state
  }

  ghost predicate Known(s: State, pid: int) {
    pid != 0 && exists j :: 0 <= j < |s.tasks| && s.tasks[j].state != Free && s.tasks[j].pid == pid
  }

  /**
   kill fails exactly for a bad number or an unknown pid.  Another task is marked, killed or woken as
   above and everybody else is at most woken.  A signal to oneself is delivered at once: the call
   either succeeds or, exactly when the first effective pending signal is fatal, ends its caller.
   */
  lemma KillMeans(s: State, pid: int, sig: nat) returns (i: nat, k: nat)
    requires Inv(s) && Cur(s).at == User
    ensures |Cur(s).handlers| == NSIG
    ensures var g := Kill(s, pid, sig);
      && (sig == 0 || sig >= NSIG || !Known(s, pid) ==> g == Segment(s, false, Value(-1)))
      && (0 < sig < NSIG && Known(s, pid) ==>
            && i < |s.tasks| && s.tasks[i].state != Free && s.tasks[i].pid == pid
            && (i != s.current ==>
                  && !g.switches && g.reply == Value(0) && g.s.current == s.current && g.s.pipes == s.pipes
                  && Bystanders(s.tasks, g.s.tasks, i) && Hit(s.tasks[i], g.s.tasks[i], sig))
            && (i == s.current ==>
                  var t := Cur(s).(sig := Cur(s).sig + {sig});
                  && k <= NSIG && (forall j: nat | j < k :: !Stops(t, j)) && (k < NSIG ==> Stops(t, k))
                  && (g.switches <==> k < NSIG && t.handlers[k] == Default)
                  && g.reply == (if g.switches then NoReply else Value(0))
                  && (g.switches ==>
                        && Ended(Pending(s, From(t.sig, k)), g.s, 0 - k) && g.s.current == s.current < |g.s.tasks|
                        && Cur(g.s).fds == NoFds(MAX_FDS))
                  && (!g.switches ==> g.s == Pending(s, From(t.sig, if k < NSIG then k + 1 else NSIG)))))
  {
    hide Good, AllParked, Deliver, Ended, NoFds, FindPid;
    TablesOk(s);
    i, k := FindPid(s.tasks, pid, 0), 0;
    if 0 < sig < NSIG && i < |s.tasks| && pid != 0 {
      if i == s.current {
        PendingInv(s, Cur(s).sig + {sig});
        k := DeliverMeans(Pending(s, Cur(s).sig + {sig}));
        var all := Cur(s).sig + {sig};
        PendingTwice(s, all, From(all, k));
        PendingTwice(s, all, From(all, if k < NSIG then k + 1 else NSIG));
      } else {
        KillOther(s, i, sig);
      }
    }
  }

  lemma KillOther(s: State, i: nat, sig: nat)
    requires Inv(s) && Cur(s).at == User && i < |s.tasks| && i != s.current && 0 < sig < NSIG
    requires s.tasks[i].state != Free && i == FindPid(s.tasks, s.tasks[i].pid, 0) && s.tasks[i].pid != 0
    requires |Cur(s).handlers| == NSIG
    ensures var g := Kill(s, s.tasks[i].pid, sig);
      && !g.switches && g.reply == Value(0) && g.s.current == s.current && g.s.pipes == s.pipes
      && Bystanders(s.tasks, g.s.tasks, i) && Hit(s.tasks[i], g.s.tasks[i], sig)
  {
    hide Inv, FindPid, Deliver, WakeAll, WakePid, Bystanders;
    var t := s.tasks[i].(sig := s.tasks[i].sig + {sig});
    if sig == SIGKILL && (t.state == Blocked || t.state == Ready) {
      KillParked(s, i);
    } else {
      WakeAllBystanders(s.tasks[i := t], t.waitPipe);
      WakeAllOne(s.tasks[i := t], t.waitPipe, i);
      SoftHit(s, i, sig);
    }
  }

  lemma SoftHit(s: State, i: nat, sig: nat)
    requires i < |s.tasks|
    ensures var ts := s.tasks[i := s.tasks[i].(sig := s.tasks[i].sig + {sig})];
      Bystanders(s.tasks, ts, i) && Bystanders(s.tasks, WakeAll(ts, s.tasks[i].waitPipe), i)
  {
    hide WakeAll;
    WakeAllBystanders(s.tasks[i := s.tasks[i].(sig := s.tasks[i].sig + {sig})], s.tasks[i].waitPipe);
  }

  lemma ParentElsewhere(s: State, i: nat)
    requires Inv(s) && i < |s.tasks| && s.tasks[i].state != Free && s.tasks[i].pid != 0
    ensures s.tasks[i].pid != s.tasks[i].parent
  {
    hide StreamsOk, SlotsCounted, NoMissedChild, TaskOk;
    assert i == 0 || PidOk(s.tasks[i], s.nextPid);
  }

  /** SIGKILL for a task that is not running. */
  lemma KillParked(s: State, i: nat)
    requires Inv(s) && i < |s.tasks| && i != s.current && (s.tasks[i].state == Blocked || s.tasks[i].state == Ready)
    requires i == FindPid(s.tasks, s.tasks[i].pid, 0) && s.tasks[i].pid != 0 && |Cur(s).handlers| == NSIG
    ensures var g := Kill(s, s.tasks[i].pid, SIGKILL);
      && !g.switches && g.reply == Value(0) && g.s.current == s.current && g.s.pipes == s.pipes
      && Bystanders(s.tasks, g.s.tasks, i) && Hit(s.tasks[i], g.s.tasks[i], SIGKILL)
  {
    ParentElsewhere(s, i);
    hide Inv, FindPid, Deliver, WakeAll, WakePid, Bystanders;
    var t := s.tasks[i].(sig := s.tasks[i].sig + {SIGKILL});
    var z := t.(status := 0 - SIGKILL, zombie := true);
    assert SetTask(SetTask(s, i, t), i, z) == SetTask(s, i, z);
    var s2 := WakePid(SetTask(s, i, z), t.parent);
    WakesAround(s, i, z);
    assert Wake(z) == z && s2.tasks[i := s2.tasks[i]] == s2.tasks;
  }

  /** The wake-ups of a kill reach the others only: the parent's, and those on the pipe the zombie waited for. */
  lemma WakesAround(s: State, i: nat, z: Task)
    requires i < |s.tasks| && z.zombie && z.pid != z.parent
    ensures var s2 := WakePid(SetTask(s, i, z), z.parent);
      && s2 == s.(tasks := s2.tasks) && Bystanders(s.tasks, s2.tasks, i) && s2.tasks[i] == z
      && var ts := WakeAll(s2.tasks[i := z.(waitPipe := 0)], z.waitPipe);
         Bystanders(s.tasks, ts, i) && ts[i] == z.(waitPipe := 0)
  {
    hide WakeAll, WakePid, Bystander;
    var s2 := WakePid(SetTask(s, i, z), z.parent);
    WakePidBystanders(SetTask(s, i, z), z.parent, i);
    var ts := s2.tasks[i := z.(waitPipe := 0)];
    WakeAllBystanders(ts, z.waitPipe);
    WakeAllZombie(ts, z.waitPipe, i);
    forall j | 0 <= j < |s.tasks| && j != i ensures Bystander(s.tasks[j], WakeAll(ts, z.waitPipe)[j]) {
      assert Bystander(s.tasks[j], s2.tasks[j]) && Bystander(ts[j], WakeAll(ts, z.waitPipe)[j]);
      Onlooking(s.tasks[j], s2.tasks[j], WakeAll(ts, z.waitPipe)[j]);
    }
  }

  lemma Onlooking(a: Task, b: Task, c: Task)
    requires Bystander(a, b) && Bystander(b, c)
    ensures Bystander(a, c)
  {
  }

  lemma WakePidBystanders(s: State, pid: int, i: nat)
    requires i < |s.tasks| && s.tasks[i].pid != pid
    ensures Bystanders(s.tasks, WakePid(s, pid).tasks, i) && WakePid(s, pid).tasks[i] == s.tasks[i]
    ensures WakePid(s, pid) == s.(tasks := WakePid(s, pid).tasks)
  {
    hide FindPid;
  }

  lemma WakeAllZombie(ts: seq<Task>, p: nat, i: nat)
    requires i < |ts| && ts[i].zombie
    ensures WakeAll(ts, p)[i] == ts[i].(waitPipe := WakeAll(ts, p)[i].waitPipe)
    ensures ts[i].waitPipe == 0 ==> WakeAll(ts, p)[i].waitPipe == 0
  {
  }

  lemma WakeAllOne(ts: seq<Task>, p: nat, i: nat)
    requires i < |ts| && ts[i].waitPipe == p
    ensures WakeAll(ts, p)[i] == WakeOn(ts[i], p)
  {
  }
}

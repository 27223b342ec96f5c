/** kill and signal. */
module KernelSignal {
  import opened Bytes
  import opened Pipes
  import opened KernelState
  import opened KernelInv
  import opened KernelSteps
  import opened KernelLife
  import opened KernelInterrupt
  import opened KernelBlock

  /** SIGKILL for a task that is not running: it is a zombie where it stands. */
  lemma KillOtherKeeps(s: State, i: nat, t: Task)
    requires Good(s) && 0 < i < MAX_TASKS && s.tasks[i].state != Free
    requires t == s.tasks[i].(sig := t.sig, status := t.status, zombie := true) && TaskOk(t, s.pipes)
    ensures var r := WakePid(SetTask(s, i, t), t.parent);
      r.tasks[i] == t && r.current == s.current && Good(r) && Later(s, r) && Remote(s.tasks, r.tasks)
  {
    DeathKeeps(s, i, t);
    hide Good, Later, WakePid;
    var r := WakePid(SetTask(s, i, t), t.parent);
    forall j | 0 <= j < MAX_TASKS ensures RemoteTask(s.tasks[j], r.tasks[j]) { }
  }

  lemma KillParkedKeeps(s: State, i: nat)
    requires Good(s) && 0 < i < MAX_TASKS && s.tasks[i].zombie && s.tasks[i].waitPipe != 0
    ensures var r := PipeWake(SetTask(s, i, s.tasks[i].(waitPipe := 0)), s.tasks[i].waitPipe);
      Good(r) && Later(s, r) && Remote(s.tasks, r.tasks)
  {
    var t := s.tasks[i].(waitPipe := 0);
    assert TaskOk(t, s.pipes) by { assert TaskOk(s.tasks[i], s.pipes); }
    hide StreamsOk, SlotsCounted, PidsOk, NoMissedChild, PipesLater, TasksLater, TaskOk;
    var m := SetTask(s, i, t);
    QuietKeeps(s, i, t);
    assert Remote(s.tasks, m.tasks);
    PipeWakeKeeps(m, s.tasks[i].waitPipe);
    var r := PipeWake(m, s.tasks[i].waitPipe);
    LaterTransitive(s, m, r);
    WakeAllRemote(m.tasks, s.tasks[i].waitPipe);
    RemoteTransitive(s.tasks, m.tasks, r.tasks);
  }

  /** Any other signal for a task parked on a pipe: everybody parked there gets another look. */
  lemma SignalParkedKeeps(s: State, i: nat, sig: nat)
    requires Good(s) && 0 < i < MAX_TASKS && s.tasks[i].waitPipe != 0
    ensures var r := PipeWake(SetTask(s, i, s.tasks[i].(sig := s.tasks[i].sig + {sig})), s.tasks[i].waitPipe);
      Good(r) && Later(s, r) && Remote(s.tasks, r.tasks)
  {
    var t := s.tasks[i];
    var r := PipeWake(SetTask(s, i, t.(sig := t.sig + {sig})), t.waitPipe);
    var m := PipeWake(s, t.waitPipe);
    var u := WakeOn(t, t.waitPipe).(sig := t.sig + {sig});
    assert TaskOk(u, s.pipes) by { assert TaskOk(t, s.pipes); }
    PipeWakeKeeps(s, t.waitPipe);
    hide StreamsOk, SlotsCounted, PidsOk, NoMissedChild, PipesLater, TasksLater, TaskOk;
    QuietKeeps(m, i, u);
    assert r.tasks == m.tasks[i := u];
    LaterTransitive(s, m, r);
    WakeAllRemote(s.tasks, t.waitPipe);
    assert Remote(m.tasks, r.tasks);
    RemoteTransitive(s.tasks, m.tasks, r.tasks);
  }

  lemma SignalQuietKeeps(s: State, i: nat, sig: nat)
    requires Inv(s) && 0 < i < MAX_TASKS && s.tasks[i].waitPipe == 0
    ensures var r := SetTask(s, i, s.tasks[i].(sig := s.tasks[i].sig + {sig}));
      Good(r) && Later(s, r) && Remote(s.tasks, r.tasks)
  {
    var t := s.tasks[i].(sig := s.tasks[i].sig + {sig});
    assert TaskOk(t, s.pipes) by { assert TaskOk(s.tasks[i], s.pipes); }
    hide StreamsOk, SlotsCounted, PidsOk, NoMissedChild, PipesLater, TasksLater, TaskOk;
    QuietKeeps(s, i, t);
    assert Remote(s.tasks, SetTask(s, i, t).tasks);
  }

  lemma KillKeeps(s: State, pid: int, sig: nat)
    requires Inv(s) && Cur(s).at == User
    ensures SegmentOk(s, Kill(s, pid, sig))
  {
    assert TaskOk(Cur(s), s.pipes);
    LaterReflexive(s);
    var g := Kill(s, pid, sig);
    var i := FindPid(s.tasks, pid, 0);
    if sig != 0 && sig < NSIG && i < MAX_TASKS && s.tasks[i].pid != 0 {
      assert i != 0;
      var t := s.tasks[i].(sig := s.tasks[i].sig + {sig});
      var s1 := SetTask(s, i, t);
      hide StreamsOk, SlotsCounted, PidsOk, NoMissedChild, PipesLater, TasksLater, TaskOk, FindPid;
      if i == s.current {
        KillSelf(s, sig);
      } else if sig == SIGKILL && (t.state == Blocked || t.state == Ready) {
        var z := t.(status := 0 - SIGKILL, zombie := true);
        assert SetTask(s1, i, z) == SetTask(s, i, z);
        KillHard(s, i, z);
        RemoteEnds(s, g.s, Value(0));
      } else if t.waitPipe != 0 {
        SignalParkedKeeps(s, i, sig);
        RemoteEnds(s, g.s, Value(0));
      } else {
        SignalQuietKeeps(s, i, sig);
        RemoteEnds(s, g.s, Value(0));
      }
    }
  }

  lemma KillSelf(s: State, sig: nat)
    requires Inv(s) && Cur(s).at == User
    ensures |Cur(s).handlers| == NSIG
    ensures var d := Deliver(SetCur(s, Cur(s).(sig := Cur(s).sig + {sig})));
      SegmentOk(s, d.(reply := if d.switches then NoReply else Value(0)))
  {
    assert TaskOk(Cur(s), s.pipes);
    SignalQuietKeeps(s, s.current, sig);
    var m := SetCur(s, Cur(s).(sig := Cur(s).sig + {sig}));
    hide Good, Later, Deliver;
    RemoteEnds(s, m, NoReply);
    DeliverKeeps(m);
    LocalThen(s, m, Deliver(m));
  }

  lemma KillHard(s: State, i: nat, t: Task)
    requires Good(s) && 0 < i < MAX_TASKS && s.tasks[i].state != Free
    requires t == s.tasks[i].(sig := t.sig, status := t.status, zombie := true)
    ensures var m := WakePid(SetTask(s, i, t), t.parent);
      var r := if m.tasks[i].waitPipe != 0 then PipeWake(SetTask(m, i, m.tasks[i].(waitPipe := 0)), m.tasks[i].waitPipe)
               else SetTask(m, i, Wake(m.tasks[i]));
      r.current == s.current && Good(r) && Later(s, r) && Remote(s.tasks, r.tasks)
  {
    assert TaskOk(t, s.pipes) by { assert TaskOk(s.tasks[i], s.pipes); }
    var m := WakePid(SetTask(s, i, t), t.parent);
    KillOtherKeeps(s, i, t);
    if t.waitPipe != 0 {
      KillParkedKeeps(m, i);
      hide Good, WakePid;
      var r := PipeWake(SetTask(m, i, t.(waitPipe := 0)), t.waitPipe);
      LaterTransitive(s, m, r);
      RemoteTransitive(s.tasks, m.tasks, r.tasks);
    } else {
      assert SetTask(m, i, Wake(m.tasks[i])) == m;
    }
  }
}

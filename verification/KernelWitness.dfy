/** Two runs: a write that had 256 bytes accepted reports -1, and a read sleeps with a Ctrl+C pending. */
module KernelWitness {
  import opened Bytes
  import opened Pipes
  import opened KernelState
  import opened KernelInv
  import opened KernelInterrupt
  import opened KernelSched
  import opened KernelRuns
  import opened KernelTheorems

  const PIPE: nat := 1

  function Data(): seq<byte> {
    Zeros(300)
  }

  /** init makes a pipe, writes more than it holds, is interrupted in its sleep, and the idle task yields. */
  function Script(): seq<Cmd> {
    [Enter(SysPipe(PIPE), false), Enter(SysWrite(4, Data()), false), Sigint({1}), IdleTick]
  }

  // ---- The states in between ------------------------------------------------------------

  /** Only idle and init exist. */
  ghost predicate TwoTasks(s: State) {
    && |s.tasks| == MAX_TASKS && s.tasks[0].at == Idling && !s.tasks[0].zombie
    && (forall i :: 2 <= i < MAX_TASKS ==> s.tasks[i].state == Free)
    && s.tasks[1].pid == 1 && !s.tasks[1].zombie
  }

  ghost predicate Started(s: State) {
    && TwoTasks(s) && s.current == 1 && s.tasks[0].state == Ready && s.tasks[1] == Spawned(1, 0).(state := Running)
    && s.pipes == map[] && s.nextGen == 0
  }

  ghost predicate Piped(s: State) {
    && TwoTasks(s) && s.current == 1 && s.tasks[0].state == Ready
    && s.tasks[1].state == Running && s.tasks[1].at == User && s.tasks[1].sig == {} && |s.tasks[1].handlers| == NSIG
    && s.tasks[1].waitPipe == 0 && |s.tasks[1].fds| == MAX_FDS
    && s.tasks[1].fds[3] == NO_FILE.(pipe := PIPE, rd := true)
    && s.tasks[1].fds[4] == NO_FILE.(pipe := PIPE, wr := true)
    && PIPE in s.pipes && s.pipes[PIPE] == Create(0)
  }

  /** The first 256 bytes are in the pipe, and nobody has taken any. */
  ghost predicate Filled(s: State) {
    && PIPE in s.pipes && s.pipes[PIPE].len == CAPACITY && s.pipes[PIPE].readers == 1
    && s.pipes[PIPE].sent == Data()[..256] && s.pipes[PIPE].received == []
  }

  ghost predicate Asleep(t: Task) {
    t.state == Blocked && t.waitPipe == PIPE && t.at == Writing(4, PIPE, Data(), 256)
  }

  ghost predicate Idle(s: State) {
    && TwoTasks(s) && s.current == 0 && s.tasks[0].state == Running && Filled(s) && Asleep(s.tasks[1])
  }

  ghost predicate Interrupted(s: State) {
    && TwoTasks(s) && s.current == 0 && s.tasks[0].state == Running && Filled(s)
    && s.tasks[1].state == Ready && s.tasks[1].at == Writing(4, PIPE, Data(), 256) && s.tasks[1].sig != {}
  }

  ghost predicate Awake(s: State) {
    && TwoTasks(s) && s.current == 1 && Filled(s)
    && s.tasks[1].at == Writing(4, PIPE, Data(), 256) && s.tasks[1].sig != {}
  }

  // ---- The steps --------------------------------------------------------------------------

  lemma BootStarts()
    ensures BootParents([0]) && Started(Boot([0]))
  {
  }

  /** Without a pending signal or preemption a system call starts at once. */
  lemma Enters(s: State, call: Call)
    requires Shaped(s) && s.current < |s.tasks|
    requires |Cur(s).handlers| == NSIG && Cur(s).sig == {} && Cur(s).at == User
    ensures Run(s, Enter(call, false)) == Body(s, call, [])
    ensures Run(s, Enter(call, true)) == Segment(SetCur(s, Cur(s).(at := Entered(call))), true, NoReply)
  {
    hide Body, Shaped;
    assert Deliver(s) == Segment(s, false, NoReply);
  }

  lemma FirstFds()
    ensures FdAlloc(ConsoleFds(), 0) == 3
    ensures FdAlloc(ConsoleFds()[3 := NO_FILE.(pipe := PIPE)], 0) == 4
  {
    var a, b := ConsoleFds(), ConsoleFds()[3 := NO_FILE.(pipe := PIPE)];
    assert InUse(a[0]) && InUse(a[1]) && InUse(a[2]) && !InUse(a[3]);
    assert InUse(b[0]) && InUse(b[1]) && InUse(b[2]) && InUse(b[3]) && !InUse(b[4]);
    hide FdAlloc, ConsoleFds;
  }

  lemma FirstStep(s: State)
    requires Shaped(s) && Started(s)
    ensures Piped(Step(s, Enter(SysPipe(PIPE), false)))
  {
    hide Run, FdAlloc, ConsoleFds, Create, Shaped;
    FirstFds();
    Enters(s, SysPipe(PIPE));
  }

  lemma EmptyRing()
    ensures RingOk(Create(0)) && InFlight(Create(0)) == [] && Create(0).len == 0 && Create(0).readers == 1
    ensures Create(0).sent == [] && Create(0).received == []
  {
  }

  lemma NobodyBlocked(ts: seq<Task>, p: nat)
    requires forall i :: 0 <= i < |ts| ==> ts[i].state != Blocked
    ensures WakeAll(ts, p) == ts
  {
  }

  lemma FullRing()
    ensures RingOk(Create(0)) && |Data()| == 300
    ensures var q := PushAll(Create(0), Data()[0..256]);
      RingOk(q) && q.len == CAPACITY && q.readers == 1 && q.sent == Data()[..256] && q.received == []
  {
    EmptyRing();
    hide Create, PushAll;
    assert [] + Data()[0..256] == Data()[..256];
  }

  /** The first round of the write fills the ring, the second one parks. */
  lemma WriteParks(s: State)
    requires Shaped(s) && Piped(s)
    ensures RingOk(s.pipes[PIPE])
    ensures var g := PipeWrite(s, 4, PIPE, Data(), 0, []);
      g.switches && g.s.current == 1 && TwoTasks(g.s) && g.s.tasks[0].state == Ready && Filled(g.s) &&
        Asleep(g.s.tasks[1])
  {
    hide Create, PushAll, RingOk, Shaped, InFlight, Data;
    EmptyRing();
    FullRing();
    var d := Data();
    var q := PushAll(Create(0), d[0..256]);
    NobodyBlocked(s.tasks, PIPE);
    var s' := s.(pipes := s.pipes[PIPE := q]);
    assert PipeWake(s', PIPE) == s';
    assert PipeWrite(s, 4, PIPE, d, 0, []) == PipeWrite(s', 4, PIPE, d, 256, []);
    assert PipeWrite(s', 4, PIPE, d, 256, []) == Park(s', PIPE, Writing(4, PIPE, d, 256), []);
  }

  /** The only other runnable slot is the next one. */
  lemma OnlyOther(ts: seq<Task>, from: nat, to: nat)
    requires |ts| == MAX_TASKS && from < 2 && to == 1 - from && Runnable(ts[to])
    requires forall i :: 2 <= i < MAX_TASKS ==> ts[i].state == Free
    ensures ScanFrom(ts, from, 1) == to
  {
    var d := if from == 0 then 1 else MAX_TASKS - 1;
    assert (from + d) % MAX_TASKS == to && RunnableAt(ts, from, d);
    forall j | 1 <= j < d
      ensures !RunnableAt(ts, from, j)
    {
      assert (from + j) % MAX_TASKS == from + j;
    }
    var k := ScanFirst(ts, from, 1);
  }

  lemma PipedShape(s: State)
    requires Piped(s)
    ensures s.current < |s.tasks| && RingOk(s.pipes[PIPE])
  {
    EmptyRing();
  }

  lemma WriteBody(s: State, d: seq<byte>)
    requires Shaped(s) && PIPE in s.pipes && RingOk(s.pipes[PIPE]) && d != []
    requires Cur(s).fds[4] == NO_FILE.(pipe := PIPE, wr := true)
    ensures Body(s, SysWrite(4, d), []) == PipeWrite(s, 4, PIPE, d, 0, [])
  {
    hide PipeWrite, RingOk;
    assert FdGet(Cur(s), 4);
  }

  /** The system call on descriptor 4 is the write on the pipe. */
  lemma WriteEnters(s: State)
    requires Shaped(s) && Piped(s)
    ensures RingOk(s.pipes[PIPE])
    ensures Run(s, Enter(SysWrite(4, Data()), false)) == PipeWrite(s, 4, PIPE, Data(), 0, [])
  {
    hide Body, Run, PipeWrite, Shaped, RingOk, Data, Create, TwoTasks;
    FullRing();
    PipedShape(s);
    Enters(s, SysWrite(4, Data()));
    WriteBody(s, Data());
  }

  lemma SecondStep(s: State)
    requires Shaped(s) && Piped(s)
    ensures Idle(Step(s, Enter(SysWrite(4, Data()), false)))
  {
    hide Run, PipeWrite, Shaped, RingOk, Data, Filled, Create, ScanFrom;
    WriteEnters(s);
    WriteParks(s);
    var g := PipeWrite(s, 4, PIPE, Data(), 0, []);
    OnlyOther(g.s.tasks, 1, 0);
    FilledSame(g.s, Yield(g.s));
  }

  lemma FilledSame(s: State, s': State)
    requires Filled(s) && s'.pipes == s.pipes
    ensures Filled(s')
  {
  }

  lemma ThirdStep(s: State)
    requires Shaped(s) && Idle(s)
    ensures Interrupted(Step(s, Sigint({1})))
  {
    hide Shaped, Filled, Data;
    FilledSame(s, RaiseSigint(s, {1}));
  }

  lemma FourthStep(s: State)
    requires Shaped(s) && Interrupted(s)
    ensures Awake(Step(s, IdleTick))
  {
    hide Shaped, Filled, Data, ScanFrom;
    OnlyOther(s.tasks, 0, 1);
    FilledSame(s, Yield(s));
  }

  // ---- The result ----------------------------------------------------------------------------

  lemma ExecMore(s: State, cmds: seq<Cmd>, c: Cmd)
    requires Inv(s)
    ensures Shaped(Exec(s, cmds)) && Exec(s, cmds + [c]) == Step(Exec(s, cmds), c) && Exec(s, []) == s
  {
    hide Inv, Step;
    InvShaped(Exec(s, cmds));
    assert (cmds + [c])[..|cmds|] == cmds;
  }

  lemma WhereItLeads()
    ensures BootParents([0]) && Awake(Reached([0], Script()))
  {
    hide Step, Inv, Exec, Shaped, Started, Piped, Idle, Interrupted, Awake, Data, Boot;
    BootStarts();
    BootInv([0]);
    var s, c := Boot([0]), Script();
    ExecMore(s, [], c[0]);
    assert [] + [c[0]] == [c[0]];
    FirstStep(s);
    ExecMore(s, [c[0]], c[1]);
    assert [c[0]] + [c[1]] == [c[0], c[1]];
    SecondStep(Exec(s, [c[0]]));
    ExecMore(s, [c[0], c[1]], c[2]);
    assert [c[0], c[1]] + [c[2]] == [c[0], c[1], c[2]];
    ThirdStep(Exec(s, [c[0], c[1]]));
    ExecMore(s, [c[0], c[1], c[2]], c[3]);
    assert [c[0], c[1], c[2]] + [c[3]] == c;
    FourthStep(Exec(s, [c[0], c[1], c[2]]));
  }

  /** A writer resumed with a signal pending and bytes left gets -1. */
  lemma ResumeRefused(s: State)
    requires Shaped(s) && Cur(s).at.Writing? && Cur(s).at.pipe in s.pipes && Cur(s).sig != {}
    requires Cur(s).at.done < |Cur(s).at.data|
    ensures Run(s, Resume([], {})).reply == Value(-1)
  {
    hide PipeWrite, RaiseSigint, Body, RingOk;
    var at := Cur(s).at;
    FirstTest(SetCur(s, Cur(s).(waitPipe := 0)), at.fd, at.pipe, at.data, at.done, []);
  }

  /**
   The writer is resumed inside its write, 256 of its 300 bytes are in the pipe for a reader to
   take, and the write reports -1.
   */
  lemma AcceptedYetFailed()
    ensures BootParents([0])
    ensures var s := Reached([0], Script());
      && Shaped(s) && Cur(s).at == Writing(4, PIPE, Data(), 256) && PIPE in s.pipes
      && s.pipes[PIPE].sent == Data()[..256] && s.pipes[PIPE].received == []
      && Run(s, Resume([], {})).reply == Value(-1)
  {
    hide Reached, Inv, Shaped, Run, Script;
    WhereItLeads();
    var s := Reached([0], Script());
    InvShaped(s);
    ResumeRefused(s);
  }

  // ---- A Ctrl+C that nobody hears --------------------------------------------------------------

  /** init makes a pipe, is preempted on its way into a read, idle hands the CPU back, and Ctrl+C is pressed. */
  function LateScript(): seq<Cmd> {
    [Enter(SysPipe(PIPE), false), Enter(SysRead(3, 1), true), IdleTick, Resume([{1}], {})]
  }

  /** init is about to read from the empty pipe. */
  ghost predicate Reader(s: State) {
    && TwoTasks(s) && PIPE in s.pipes && s.pipes[PIPE] == Create(0)
    && s.tasks[1].at == Entered(SysRead(3, 1)) && s.tasks[1].sig == {} && s.tasks[1].waitPipe == 0
    && |s.tasks[1].fds| == MAX_FDS && s.tasks[1].fds[3] == NO_FILE.(pipe := PIPE, rd := true)
  }

  ghost predicate Preempted(s: State) {
    Reader(s) && s.current == 0 && s.tasks[0].state == Running && s.tasks[1].state == Ready
  }

  ghost predicate Back(s: State) {
    Reader(s) && s.current == 1 && s.tasks[0].state == Ready && s.tasks[1].state == Running
  }

  ghost predicate Deaf(t: Task) {
    && t.state == Blocked && !t.zombie && t.at == Reading(3, PIPE, 1) && t.waitPipe == PIPE
    && t.sig == {SIGINT} && t.missed
  }

  lemma PreemptStep(s: State)
    requires Shaped(s) && Piped(s)
    ensures Preempted(Step(s, Enter(SysRead(3, 1), true)))
  {
    hide Run, Shaped, Create, ScanFrom;
    Enters(s, SysRead(3, 1));
    OnlyOther(SetCur(s, Cur(s).(at := Entered(SysRead(3, 1)))).tasks, 1, 0);
  }

  lemma BackStep(s: State)
    requires Shaped(s) && Preempted(s)
    ensures Back(Step(s, IdleTick))
  {
    hide Shaped, Create, ScanFrom;
    OnlyOther(s.tasks, 0, 1);
  }

  /** The test for signals finds none, the Ctrl+C comes, and init goes to sleep. */
  lemma ReadParks(s: State)
    requires Shaped(s) && s.current == 1 && PIPE in s.pipes && s.pipes[PIPE] == Create(0)
    requires Cur(s).state == Running && Cur(s).sig == {} && !Cur(s).zombie && Cur(s).pid == 1
    requires Cur(s).fds[3] == NO_FILE.(pipe := PIPE, rd := true)
    ensures var g := Body(s, SysRead(3, 1), [{1}]);
      g.switches && g.s == Park(s, PIPE, Reading(3, PIPE, 1), [{1}]).s && Deaf(Cur(g.s))
  {
    hide Land, RingOk, InFlight;
    EmptyRing();
    assert FdGet(Cur(s), 3);
    LandCur(s, [{1}]);
  }

  lemma Untouched(s: State, i: nat)
    requires i < |s.tasks| && i != 1
    ensures RaiseSigint(s, {1}).tasks[i] == s.tasks[i]
    ensures forall j :: 0 <= j < |s.tasks| ==> RaiseSigint(s, {}).tasks[j] == s.tasks[j]
  {
  }

  lemma DeafStep(s: State)
    requires Shaped(s) && Back(s)
    ensures var s' := Step(s, Resume([{1}], {})); |s'.tasks| == MAX_TASKS && Deaf(s'.tasks[1])
  {
    hide Body, Shaped, Create, ScanFrom, RaiseSigint, Deaf;
    var u := SetCur(s, Cur(s).(at := User));
    UserShaped(s);
    ReadParks(u);
    var g := Body(u, SysRead(3, 1), [{1}]);
    assert Continue(s, [{1}]) == g;
    Untouched(u, 0);
    Untouched(g.s, 0);
    var r := RaiseSigint(g.s, {});
    forall i | 2 <= i < MAX_TASKS ensures r.tasks[i].state == Free {
      Untouched(u, i);
      Untouched(g.s, i);
    }
    OnlyOther(r.tasks, 1, 0);
    DeafBlocked(r.tasks[1]);
    assert r.tasks[1] == Cur(g.s) && Yield(r).tasks[1] == r.tasks[1];
    assert Run(s, Resume([{1}], {})).s == r;
  }

  lemma UserShaped(s: State)
    requires Shaped(s)
    ensures Shaped(SetCur(s, Cur(s).(at := User)))
  {
  }

  lemma DeafBlocked(t: Task)
    requires Deaf(t)
    ensures t.state == Blocked
  {
  }

  /** A run after which a live task sleeps in a read with SIGINT pending. */
  lemma AsleepWithSignal()
    ensures BootParents([0])
    ensures var t := Reached([0], LateScript()).tasks[1];
      t.state == Blocked && !t.zombie && t.at == Reading(3, PIPE, 1) && t.waitPipe == PIPE && t.sig == {SIGINT}
  {
    hide Step, Inv, Exec, Shaped, Started, Piped, Preempted, Back, Boot;
    BootStarts();
    BootInv([0]);
    var s, c := Boot([0]), LateScript();
    ExecMore(s, [], c[0]);
    assert [] + [c[0]] == [c[0]];
    FirstStep(s);
    ExecMore(s, [c[0]], c[1]);
    assert [c[0]] + [c[1]] == [c[0], c[1]];
    PreemptStep(Exec(s, [c[0]]));
    ExecMore(s, [c[0], c[1]], c[2]);
    assert [c[0], c[1]] + [c[2]] == [c[0], c[1], c[2]];
    BackStep(Exec(s, [c[0], c[1]]));
    ExecMore(s, [c[0], c[1], c[2]], c[3]);
    assert [c[0], c[1], c[2]] + [c[3]] == c;
    DeafStep(Exec(s, [c[0], c[1], c[2]]));
  }
}

/** The main results: statements about every state that any run can reach. */
module KernelTheorems {
  import opened Bytes
  import opened Pipes
  import opened KernelState
  import opened KernelInv
  import opened KernelSteps
  import opened KernelLife
  import opened KernelInterrupt
  import KernelMissed
  import opened KernelSched
  import opened KernelRuns

  // ---- runs ---------------------------------------------------------------

  /** One boot task per entry, each the child of the idle task or of an earlier one. */
  predicate BootParents(parents: seq<int>) {
    1 <= |parents| < MAX_TASKS && forall i :: 0 <= i < |parents| ==> 0 <= parents[i] <= i
  }

  function IdleTask(): Task {
    Task(0, 0, Ready, false, 0, NoFds(MAX_FDS), {}, DefaultActions(), 0, Idling, false)
  }

  function BootTask(parents: seq<int>, k: nat, i: nat): Task
    requires k <= |parents|
  {
    if i == 0 then IdleTask() else if i <= k then Spawned(i, parents[i - 1]) else NoTask()
  }

  /** The table after sched_init and `k` calls of sched_spawn_user_task. */
  function Prepared(parents: seq<int>, k: nat): (ts: seq<Task>)
    requires k <= |parents|
    ensures |ts| == MAX_TASKS && forall i :: 0 <= i < MAX_TASKS ==> ts[i] == BootTask(parents, k, i)
  {
    seq(MAX_TASKS, i requires 0 <= i < MAX_TASKS => BootTask(parents, k, i))
  }

  lemma PreparedNext(parents: seq<int>, k: nat)
    requires k < |parents| < MAX_TASKS
    ensures AllocSlot(Prepared(parents, k), 0) == k + 1
    ensures Prepared(parents, k)[k + 1 := Spawned(k + 1, parents[k])] == Prepared(parents, k + 1)
  {
    hide Prepared;
    var ts, r := Prepared(parents, k), AllocSlot(Prepared(parents, k), 0);
    assert ts[k + 1].state == Free;
    assert r < k + 1 ==> ts[r] == BootTask(parents, k, r);
  }

  /** The machine when the scheduler starts: the one spawned last is running, all others are ready. */
  function Boot(parents: seq<int>): State
    requires BootParents(parents)
  {
    var n := |parents|;
    State(Prepared(parents, n)[n := Spawned(n, parents[n - 1]).(state := Running)], n, n + 1, map[], 0)
  }

  lemma BootInv(parents: seq<int>)
    requires BootParents(parents)
    ensures Inv(Boot(parents))
  {
    var s := Boot(parents);
    forall i | 0 <= i < MAX_TASKS ensures TaskOk(s.tasks[i], s.pipes) && (0 < i ==> PidOk(s.tasks[i], s.nextPid)) { }
    forall i: nat, j: nat | i < MAX_TASKS && j < MAX_TASKS ensures !Misses(s.tasks, i, j) && !SamePid(s.tasks, i, j) { }
  }

  /** The state after a run: any sequence of commands, each done by whoever is running at that point. */
  ghost function Exec(s: State, cmds: seq<Cmd>): (r: State)
    requires Inv(s)
    ensures Inv(r) && Later(s, r)
  {
    if cmds == [] then LaterReflexive(s); s
    else
      var m := Exec(s, cmds[..|cmds| - 1]);
      InvShaped(m);
      StepKeeps(m, cmds[|cmds| - 1]);
      LaterTransitive(s, m, Step(m, cmds[|cmds| - 1]));
      Step(m, cmds[|cmds| - 1])
  }

  ghost function Reached(parents: seq<int>, cmds: seq<Cmd>): (s: State)
    requires BootParents(parents)
    ensures Inv(s)
  {
    BootInv(parents);
    Exec(Boot(parents), cmds)
  }

  // ---- reference counts ----------------------------------------------------

  /** The slots of the first `n` tasks that hold end `e` of `p`. */
  ghost function Slots(ts: seq<Task>, p: nat, e: End): set<(int, int)> {
    set i, fd | 0 <= i < |ts| && 0 <= fd < |ts[i].fds| && Holds(ts[i].fds[fd], p, e) :: (i, fd)
  }

  /** The slots of one table. */
  ghost function FdSlots(fds: seq<File>, i: int, p: nat, e: End): set<(int, int)> {
    set fd | 0 <= fd < |fds| && Holds(fds[fd], p, e) :: (i, fd)
  }

  lemma FdSlotsHas(fds: seq<File>, i: int, p: nat, e: End)
    ensures forall x :: x in FdSlots(fds, i, p, e) <==> x.0 == i && 0 <= x.1 < |fds| && Holds(fds[x.1], p, e)
  {
    forall x: (int, int) | x.0 == i && 0 <= x.1 < |fds| && Holds(fds[x.1], p, e) ensures x in FdSlots(fds, i, p, e) {
      assert x == (i, x.1);
    }
  }

  lemma SlotsHas(ts: seq<Task>, p: nat, e: End)
    ensures forall x :: x in Slots(ts, p, e) <==>
      0 <= x.0 < |ts| && 0 <= x.1 < |ts[x.0].fds| && Holds(ts[x.0].fds[x.1], p, e)
  {
    forall x: (int, int) | 0 <= x.0 < |ts| && 0 <= x.1 < |ts[x.0].fds| && Holds(ts[x.0].fds[x.1], p, e)
      ensures x in Slots(ts, p, e)
    {
      assert x == (x.0, x.1);
    }
  }

  lemma {:induction false} CountFdsIsCardinality(fds: seq<File>, i: int, p: nat, e: End)
    ensures CountFds(fds, p, e) == |FdSlots(fds, i, p, e)|
  {
    hide FdSlots, Holds;
    FdSlotsHas(fds, i, p, e);
    if fds == [] {
      assert FdSlots(fds, i, p, e) == {};
    } else {
      var n := |fds| - 1;
      CountFdsIsCardinality(fds[..n], i, p, e);
      FdSlotsHas(fds[..n], i, p, e);
      assert FdSlots(fds, i, p, e) == FdSlots(fds[..n], i, p, e) + if Holds(fds[n], p, e) then {(i, n)} else {};
    }
  }

  lemma {:induction false} CountIsCardinality(ts: seq<Task>, p: nat, e: End)
    ensures CountSlots(ts, p, e) == |Slots(ts, p, e)|
  {
    hide FdSlots, Slots, Holds, CountFds;
    SlotsHas(ts, p, e);
    if ts == [] {
      assert Slots(ts, p, e) == {};
    } else {
      var n := |ts| - 1;
      CountIsCardinality(ts[..n], p, e);
      CountFdsIsCardinality(ts[n].fds, n, p, e);
      SlotsHas(ts[..n], p, e);
      FdSlotsHas(ts[n].fds, n, p, e);
      assert Slots(ts, p, e) == Slots(ts[..n], p, e) + FdSlots(ts[n].fds, n, p, e);
      assert Slots(ts[..n], p, e) !! FdSlots(ts[n].fds, n, p, e);
    }
  }

  /**
   A pipe's counters are the numbers of descriptor slots, over all tasks and zombies,
   that hold its ends, and it exists exactly as long as some slot refers to it.
   */
  ghost predicate CountedRight(s: State, p: nat) {
    && (p in s.pipes ==>
          && s.pipes[p].readers == |Slots(s.tasks, p, ReadEnd)|
          && s.pipes[p].writers == |Slots(s.tasks, p, WriteEnd)|)
    && (p in s.pipes <==> Slots(s.tasks, p, ReadEnd) + Slots(s.tasks, p, WriteEnd) != {})
  }

  /** No slot and no task inside an operation, blocked or not, refers to a freed pipe. */
  ghost predicate NothingDangles(s: State) {
    && (forall i, fd :: 0 <= i < |s.tasks| && 0 <= fd < |s.tasks[i].fds| && s.tasks[i].fds[fd].pipe != 0
          ==> s.tasks[i].fds[fd].pipe in s.pipes)
    && (forall i :: 0 <= i < |s.tasks| && s.tasks[i].state != Free && (s.tasks[i].at.Reading? || s.tasks[i].at.Writing?)
          ==> s.tasks[i].at.pipe in s.pipes)
    && (forall i :: 0 <= i < |s.tasks| && s.tasks[i].state != Free && s.tasks[i].waitPipe != 0
          ==> s.tasks[i].waitPipe in s.pipes)
  }

  /** References are counted right in every state of every run. */
  lemma ReferencesCounted(parents: seq<int>, cmds: seq<Cmd>, p: nat)
    requires BootParents(parents)
    ensures CountedRight(Reached(parents, cmds), p) && NothingDangles(Reached(parents, cmds))
  {
    hide Reached, CountedRight, NothingDangles, Inv;
    CountsFromInv(Reached(parents, cmds), p);
    NothingDanglesIn(Reached(parents, cmds));
  }

  lemma CountsFromInv(s: State, p: nat)
    requires Inv(s)
    ensures CountedRight(s, p)
  {
    hide Slots, CountSlots;
    CountIsCardinality(s.tasks, p, ReadEnd);
    CountIsCardinality(s.tasks, p, WriteEnd);
    if p in s.pipes {
      assert CountsOk(s.tasks, p, s.pipes[p]);
    } else {
      SlotsNeedPipe(s, p);
    }
  }

  lemma NothingDanglesIn(s: State)
    requires Inv(s)
    ensures NothingDangles(s)
  {
    forall i, fd | 0 <= i < |s.tasks| && 0 <= fd < |s.tasks[i].fds| ensures FileOk(s.tasks[i].fds[fd], s.pipes) {
      assert TaskOk(s.tasks[i], s.pipes);
    }
    forall i | 0 <= i < |s.tasks| && s.tasks[i].state != Free ensures Parked(s.tasks[i]) { }
  }

  lemma SlotsNeedPipe(s: State, p: nat)
    requires Inv(s) && p !in s.pipes
    ensures Slots(s.tasks, p, ReadEnd) == {} == Slots(s.tasks, p, WriteEnd)
  {
    forall i, fd | 0 <= i < |s.tasks| && 0 <= fd < |s.tasks[i].fds|
      ensures !Holds(s.tasks[i].fds[fd], p, ReadEnd) && !Holds(s.tasks[i].fds[fd], p, WriteEnd)
    {
      assert TaskOk(s.tasks[i], s.pipes) && FileOk(s.tasks[i].fds[fd], s.pipes);
    }
  }

  // ---- blocking --------------------------------------------------------------

  /**
   Why a live task sleeps, in every reachable state: in a read it has an empty pipe with a writer
   left, in a write a full pipe with a reader left, in waitpid no child to report, and there is no
   other way to be asleep.  A pipe sleeper has a signal pending exactly when a Ctrl+C came between
   its last test and its park, and then only that one.
   */
  lemma NoLostWakeups(parents: seq<int>, cmds: seq<Cmd>, i: nat)
    requires BootParents(parents) && i < MAX_TASKS
    ensures var s := Reached(parents, cmds);
      var t := s.tasks[i];
      t.state == Blocked && !t.zombie ==>
        match t.at
        case Reading(_, p, _) =>
          && p in s.pipes && s.pipes[p].len == 0 && Slots(s.tasks, p, WriteEnd) != {}
          && t.sig == if t.missed then {SIGINT} else {}
        case Writing(_, p, _, _) =>
          && p in s.pipes && s.pipes[p].len == CAPACITY && Slots(s.tasks, p, ReadEnd) != {}
          && t.sig == if t.missed then {SIGINT} else {}
        case Waiting(pid) => forall j :: 0 <= j < MAX_TASKS ==> !Wanted(s.tasks[j], t.pid, pid)
        case _ => false
  {
    var s := Reached(parents, cmds);
    hide Reached;
    var t := s.tasks[i];
    assert TaskOk(t, s.pipes);
    if t.state == Blocked && !t.zombie {
      if t.at.Reading? || t.at.Writing? {
        var p := t.at.pipe;
        CountIsCardinality(s.tasks, p, ReadEnd);
        CountIsCardinality(s.tasks, p, WriteEnd);
        assert CountsOk(s.tasks, p, s.pipes[p]);
      } else {
        forall j: nat | j < MAX_TASKS ensures !Wanted(s.tasks[j], t.pid, t.at.pid) { assert !Misses(s.tasks, i, j); }
      }
    }
  }

  /**
   A run in which no Ctrl+C for slot `i` falls between a test and what it allowed never leaves that
   slot asleep in a pipe with a signal pending.
   */
  lemma NoGapNoLoss(parents: seq<int>, cmds: seq<Cmd>, i: nat)
    requires BootParents(parents) && i < MAX_TASKS
    requires forall k :: 0 <= k < |cmds| ==> KernelMissed.Spares(cmds[k], i)
    ensures var t := Reached(parents, cmds).tasks[i];
      !t.missed && (t.state == Blocked && !t.zombie && (t.at.Reading? || t.at.Writing?) ==> t.sig == {})
  {
    BootInv(parents);
    NothingMissed(Boot(parents), cmds, i);
    NoLostWakeups(parents, cmds, i);
  }

  lemma {:induction false} NothingMissed(s: State, cmds: seq<Cmd>, i: nat)
    requires Inv(s) && i < MAX_TASKS && !s.tasks[i].missed
    requires forall k :: 0 <= k < |cmds| ==> KernelMissed.Spares(cmds[k], i)
    ensures |Exec(s, cmds).tasks| == MAX_TASKS && !Exec(s, cmds).tasks[i].missed
    decreases |cmds|
  {
    hide Good, Step, Later, AllParked, KernelMissed.Spares;
    TablesOk(Exec(s, cmds));
    if cmds != [] {
      var front, c := cmds[..|cmds| - 1], cmds[|cmds| - 1];
      NothingMissed(s, front, i);
      InvShaped(Exec(s, front));
      KernelMissed.StepSpares(Exec(s, front), c, i);
    }
  }

  // ---- byte streams ------------------------------------------------------------

  /** In every reachable state each pipe is a queue: accepted bytes are delivered bytes, then bytes in flight. */
  lemma PipesAreStreams(parents: seq<int>, cmds: seq<Cmd>, p: nat)
    requires BootParents(parents)
    ensures var s := Reached(parents, cmds);
      p in s.pipes ==>
        var q := s.pipes[p];
        q.len <= CAPACITY && q.head == (q.tail + q.len) % CAPACITY && RingOk(q) && q.sent == q.received + InFlight(q)
  {
    var s := Reached(parents, cmds);
    if p in s.pipes { assert StreamOk(s.pipes[p]); }
  }

  /**
   What a read hands out is what it adds to the delivered bytes; it reports end of file exactly on
   a drained, writerless pipe, fails exactly when it would have to sleep with a signal pending, and
   sleeps exactly when there is none; a Ctrl+C that comes after that test is missed.
   */
  lemma ReadDelivers(s: State, fd: nat, p: nat, n: nat, ints: Ints)
    requires Inv(s) && p in s.pipes && RingOk(s.pipes[p]) && n > 0
    ensures var g := PipeRead(s, fd, p, n, ints);
      var idle := s.pipes[p].len == 0 && s.pipes[p].writers != 0;
      && (g.reply.Bytes? ==>
            && p in g.s.pipes && g.s.pipes[p].received == s.pipes[p].received + g.reply.d
            && |g.reply.d| <= n)
      && (g.reply == Bytes([]) <==> s.pipes[p].len == 0 && s.pipes[p].writers == 0)
      && (g.reply == Value(-1) <==> idle && Cur(s).sig != {})
      && (g.switches <==> idle && Cur(s).sig == {})
      && (g.switches ==> g.s.pipes == s.pipes && Cur(g.s).missed == Hits(s, ints))
  {
    hide Good, AllParked, PopAll, Oldest, Land, RingOk;
    LandCur(s, ints);
  }

  /** A write that finds the ring full sleeps, unless it finds no reader or a pending signal first. */
  lemma FullRound(s: State, fd: nat, p: nat, d: seq<byte>, done: nat, ints: Ints)
    requires s.current < |s.tasks| && Cur(s).state == Running && p in s.pipes && RingOk(s.pipes[p]) && done <= |d|
    requires s.pipes[p].len == CAPACITY
    ensures var g := PipeWrite(s, fd, p, d, done, ints);
      var refused := s.pipes[p].readers == 0 || Cur(s).sig != {};
      && g.s.pipes == s.pipes && g.s.current == s.current < |g.s.tasks|
      && (g.reply == Value(-1) <==> done < |d| && refused)
      && (g.switches <==> done < |d| && !refused)
      && (done == |d| ==> g.reply == Value(|d|))
      && (g.switches ==>
            && g.reply == NoReply && Cur(g.s).at == Writing(fd, p, d, done)
            && Cur(g.s).missed == Hits(s, ints))
  {
    hide Land, RingOk, InFlight;
    LandCur(s, ints);
  }

  /** A write with room takes what fits and comes back to its test, where a Ctrl+C since the first test is seen. */
  lemma RoomRound(s: State, fd: nat, p: nat, d: seq<byte>, done: nat, ints: Ints)
    requires s.current < |s.tasks| && Cur(s).state == Running && p in s.pipes && RingOk(s.pipes[p]) && done < |d|
    requires s.pipes[p].len < CAPACITY && s.pipes[p].readers != 0 && Cur(s).sig == {}
    ensures var n := Min(|d| - done, CAPACITY - s.pipes[p].len);
      var m := PipeWake(Land(s, ints).(pipes := s.pipes[p := PushAll(s.pipes[p], d[done..done + n])]), p);
      && PipeWrite(s, fd, p, d, done, ints) == PipeWrite(m, fd, p, d, done + n, Rest(ints))
      && m.current == s.current < |m.tasks| && m.pipes == s.pipes[p := PushAll(s.pipes[p], d[done..done + n])]
      && Cur(m) == Cur(s).(sig := if Hits(s, ints) then {SIGINT} else {})
  {
    hide Land, RingOk, InFlight, PushAll;
    LandCur(s, ints);
  }

  lemma RingBound(q: Pipe)
    requires RingOk(q)
    ensures q.len <= CAPACITY
  {
  }

  lemma FirstTest(s: State, fd: nat, p: nat, d: seq<byte>, done: nat, ints: Ints)
    requires s.current < |s.tasks| && p in s.pipes && RingOk(s.pipes[p]) && done <= |d|
    requires done == |d| || s.pipes[p].readers == 0 || Cur(s).sig != {}
    ensures var g := PipeWrite(s, fd, p, d, done, ints);
      g.s.pipes == s.pipes && !g.switches && g.reply == Value(if done == |d| then |d| else -1)
  {
  }

  lemma FilledRing(q: Pipe, d: seq<byte>)
    requires RingOk(q) && q.len + |d| <= CAPACITY
    ensures PushAll(q, d).len == q.len + |d|
  {
    assert |InFlight(PushAll(q, d))| == |InFlight(q)| + |d|;
  }

  lemma WriteRoom(s: State, fd: nat, p: nat, d: seq<byte>, done: nat, ints: Ints)
    requires s.current < |s.tasks| && Cur(s).state == Running && p in s.pipes && RingOk(s.pipes[p]) && done < |d|
    requires s.pipes[p].len < CAPACITY && s.pipes[p].readers != 0 && Cur(s).sig == {}
    ensures var g := PipeWrite(s, fd, p, d, done, ints);
      var k := done + Min(|d| - done, CAPACITY - s.pipes[p].len);
      && p in g.s.pipes && g.s.pipes[p].sent == s.pipes[p].sent + d[done..k]
      && (k == |d| ==> g.reply == Value(|d|) && !g.switches)
      && (k < |d| && Hits(s, ints) ==> g.reply == Value(-1) && !g.switches)
      && (k < |d| && !Hits(s, ints) ==>
            && g.switches && g.reply == NoReply && g.s.current < |g.s.tasks| && g.s.pipes[p].len == CAPACITY
            && Cur(g.s).at == Writing(fd, p, d, k) && Cur(g.s).missed == Hits(s, Rest(ints)))
  {
    hide PushAll, InFlight, Land, RingOk, PipeWrite, PipeWake;
    RoomRound(s, fd, p, d, done, ints);
    var n := Min(|d| - done, CAPACITY - s.pipes[p].len);
    var m := PipeWake(Land(s, ints).(pipes := s.pipes[p := PushAll(s.pipes[p], d[done..done + n])]), p);
    FilledRing(s.pipes[p], d[done..done + n]);
    if done + n < |d| {
      FullRound(m, fd, p, d, done + n, Rest(ints));
    } else {
      FirstTest(m, fd, p, d, done + n, Rest(ints));
    }
  }

  /** The bytes a write takes in one segment: what fits, if it gets past its first test. */
  function Fits(s: State, p: nat, d: seq<byte>, done: nat): (n: nat)
    requires s.current < |s.tasks| && p in s.pipes && s.pipes[p].len <= CAPACITY && done <= |d|
    ensures done + n <= |d|
  {
    if s.pipes[p].readers == 0 || Cur(s).sig != {} then 0 else Min(|d| - done, CAPACITY - s.pipes[p].len)
  }

  /**
   What a write adds to the accepted bytes is the next part of its buffer, as much as fits.  It
   reports success exactly when that is all, and -1 exactly when bytes are left and it finds no
   reader or a pending signal: at its first test, or at the second one after a Ctrl+C while it
   filled the ring.  Otherwise it sleeps on a full ring, with a Ctrl+C missed exactly when one came
   after its last test.
   */
  lemma WriteAccepts(s: State, fd: nat, p: nat, d: seq<byte>, done: nat, ints: Ints)
    requires s.current < |s.tasks| && Cur(s).state == Running && p in s.pipes && RingOk(s.pipes[p]) && done <= |d|
    ensures s.pipes[p].len <= CAPACITY
    ensures var g := PipeWrite(s, fd, p, d, done, ints);
      var refused := s.pipes[p].readers == 0 || Cur(s).sig != {};
      var room := CAPACITY - s.pipes[p].len;
      var k := done + Fits(s, p, d, done);
      && p in g.s.pipes && g.s.pipes[p].sent == s.pipes[p].sent + d[done..k]
      && (g.reply == Value(|d|) <==> k == |d|)
      && (g.reply == Value(-1) <==> k < |d| && (refused || (room > 0 && Hits(s, ints))))
      && (g.switches <==> k < |d| && !refused && !(room > 0 && Hits(s, ints)))
      && (g.switches ==>
            && g.s.current < |g.s.tasks| && Cur(g.s).at == Writing(fd, p, d, k) && g.s.pipes[p].len == CAPACITY
            && Cur(g.s).missed == Hits(s, if room > 0 then Rest(ints) else ints))
  {
    hide PushAll, InFlight, Land, RingOk, PipeWrite, Hits;
    RingBound(s.pipes[p]);
    assert d[done..done] == [];
    if s.pipes[p].len == CAPACITY {
      FullRound(s, fd, p, d, done, ints);
    } else if done == |d| || s.pipes[p].readers == 0 || Cur(s).sig != {} {
      FirstTest(s, fd, p, d, done, ints);
    } else {
      WriteRoom(s, fd, p, d, done, ints);
    }
  }

  /**
   Once the last reader of a pipe is gone, every writer that is resumed in the middle of a write
   gets -1, however many bytes of it were accepted before it parked.
   */
  lemma LastReaderGone(s: State, cmds: seq<Cmd>, p: nat, ints: Ints, late: set<nat>)
    requires Inv(s) && p in s.pipes && s.pipes[p].readers == 0
    ensures var s' := Exec(s, cmds);
      var at := Cur(s').at;
      at.Writing? && at.pipe == p && p in s'.pipes && s'.pipes[p].gen == s.pipes[p].gen ==>
        && Shaped(s')
        && var g := Run(s', Resume(ints, late));
           g.reply == Value(-1) && p in g.s.pipes && g.s.pipes[p].sent == s'.pipes[p].sent
  {
    hide Exec, Inv, Later, StreamOk, PipeGrows, PipeWrite;
    var s' := Exec(s, cmds);
    InvShaped(s');
    var at := Cur(s').at;
    if at.Writing? && at.pipe == p && p in s'.pipes && s'.pipes[p].gen == s.pipes[p].gen {
      StreamsIn(s, p);
      SamePipeGrows(s, s', p);
      ReadersStayGone(s.pipes[p], s'.pipes[p]);
      ParkedShort(s');
      var r := SetCur(s', Cur(s').(waitPipe := 0));
      WriteAccepts(r, at.fd, p, at.data, at.done, ints);
      assert at.data[at.done..at.done] == [];
    }
  }

  lemma ReadersStayGone(q: Pipe, q': Pipe)
    requires PipeGrows(q, q') && q.readers == 0
    ensures q'.readers == 0
  {
  }

  lemma ParkedShort(s: State)
    requires Inv(s) && Cur(s).at.Writing?
    ensures Cur(s).at.done < |Cur(s).at.data| && Cur(s).state == Running
  {
    assert Parked(Cur(s));
  }

  /** After end of file no step of anybody brings a byte or a writer back to that pipe. */
  lemma EndOfFileIsForever(s: State, cmds: seq<Cmd>, p: nat, fd: nat, n: nat, ints: Ints)
    requires Inv(s) && p in s.pipes && s.pipes[p].writers == 0 && s.pipes[p].len == 0 && n > 0
    ensures var s' := Exec(s, cmds);
      p in s'.pipes && s'.pipes[p].gen == s.pipes[p].gen ==>
        && s'.pipes[p].writers == 0 && s'.pipes[p].len == 0 && s'.pipes[p].sent == s.pipes[p].sent
        && RingOk(s'.pipes[p]) && PipeRead(s', fd, p, n, ints).reply == Bytes([])
  {
    hide Exec, Inv, Later, StreamOk, PipeGrows;
    var s' := Exec(s, cmds);
    if p in s'.pipes && s'.pipes[p].gen == s.pipes[p].gen {
      StreamsIn(s, p);
      StreamsIn(s', p);
      SamePipeGrows(s, s', p);
      EndKept(s.pipes[p], s'.pipes[p]);
    }
  }

  lemma StreamsIn(s: State, p: nat)
    requires Inv(s) && p in s.pipes
    ensures StreamOk(s.pipes[p]) && RingOk(s.pipes[p]) && s.pipes[p].gen < s.nextGen
  {
  }

  lemma SamePipeGrows(s: State, s': State, p: nat)
    requires Later(s, s') && p in s.pipes && p in s'.pipes && s'.pipes[p].gen == s.pipes[p].gen < s.nextGen
    ensures PipeGrows(s.pipes[p], s'.pipes[p])
  {
  }

  lemma EndKept(q: Pipe, q': Pipe)
    requires StreamOk(q) && StreamOk(q') && PipeGrows(q, q') && q.writers == 0 && q.len == 0
    ensures q'.writers == 0 && q'.len == 0 && q'.sent == q.sent
  {
  }

  // ---- the scheduler -------------------------------------------------------------

  /** At every boundary exactly one task is RUNNING, it is the current one, and it is not past its exit. */
  lemma ExactlyOneRuns(parents: seq<int>, cmds: seq<Cmd>, i: nat)
    requires BootParents(parents) && i < MAX_TASKS
    ensures var s := Reached(parents, cmds);
      (s.tasks[i].state == Running <==> i == s.current) && Cur(s).at != Dead
  {
    hide Exec;
  }

  /** A segment that ends in sched_yield always hands the CPU on, because idle is runnable. */
  lemma YieldHandsOver(s: State, c: Cmd)
    requires Inv(s) && Shaped(s) && s.current != 0 && Run(s, c).switches
    ensures Step(s, c).current != s.current
  {
    RunKeeps(s, c);
    YieldKeeps(s, Run(s, c));
  }

  /** A zombie that is off the CPU never comes back, under any slot, until its pid is gone. */
  lemma ZombiesStayDead(s: State, cmds: seq<Cmd>, i: nat, j: nat)
    requires Inv(s) && i < MAX_TASKS && j < MAX_TASKS
    requires s.tasks[i].state == Blocked && s.tasks[i].zombie
    ensures var t := Exec(s, cmds).tasks[j];
      t.state != Free && t.pid == s.tasks[i].pid ==> t.state == Blocked && t.zombie
  {
    var s' := Exec(s, cmds);
    hide Exec;
    assert TaskLater(s.tasks[j], s'.tasks[j], s.nextPid);
    assert i != 0 && PidOk(s.tasks[i], s.nextPid) && !SamePid(s.tasks, i, j);
  }

  /** The number of times the CPU changes hands in a run. */
  ghost function Switches(s: State, cmds: seq<Cmd>): nat
    requires Inv(s)
  {
    if cmds == [] then 0
    else
      var front := cmds[..|cmds| - 1];
      Switches(s, front) + (if Exec(s, cmds).current != Exec(s, front).current then 1 else 0)
  }

  /** Where task slot `i` stands, and how far it is from the CPU. */
  ghost function Waits(s: State, i: nat): (d: nat)
    requires Inv(s) && i < MAX_TASKS
    ensures d < MAX_TASKS && (s.tasks[i].state == Ready ==> d > 0)
  {
    Distance(s.current, i)
  }

  ghost predicate ReadyAt(s: State, i: nat)
    requires Inv(s) && i < MAX_TASKS
  {
    s.tasks[i].state == Ready
  }

  /** A segment that ends in sched_yield leaves a ready task runnable. */
  lemma StillRunnable(s: State, g: Segment, i: nat)
    requires Inv(s) && SegmentOk(s, g) && i < MAX_TASKS && s.tasks[i].state == Ready && g.s.tasks[i].state != Free
    ensures |g.s.tasks| == MAX_TASKS && g.s.current == s.current < MAX_TASKS && i != s.current && Runnable(g.s.tasks[i])
  {
    hide StreamsOk, SlotsCounted, TaskOk, NoMissedChild, PidsOk, Later, AllParked;
  }

  lemma StepApproaches(s: State, c: Cmd, s': State, i: nat)
    requires Inv(s) && Shaped(s) && i < MAX_TASKS && s' == Step(s, c) && Inv(s')
    requires ReadyAt(s, i) && ReadyAt(s', i)
    ensures s'.current == s.current || Waits(s', i) < Waits(s, i)
  {
    hide Run, Good, Later, AllParked, ScanFrom;
    RunKeeps(s, c);
    var g := Run(s, c);
    TablesOk(s);
    TablesOk(g.s);
    if g.switches {
      StillRunnable(s, g, i);
      YieldApproaches(g.s, i);
    }
  }

  /** A task that stays ready is passed over in at most MAX_TASKS - 2 switches; the next one is its own. */
  lemma {:induction false} FairDispatch(s: State, cmds: seq<Cmd>, i: nat)
    requires Inv(s) && i < MAX_TASKS
    requires forall k :: 0 <= k <= |cmds| ==> ReadyAt(Exec(s, cmds[..k]), i)
    ensures Switches(s, cmds) + Waits(Exec(s, cmds), i) <= Waits(s, i)
    ensures Switches(s, cmds) <= MAX_TASKS - 2
    decreases |cmds|
  {
    hide Inv, Step, Later;
    assert cmds[..|cmds|] == cmds;
    assert ReadyAt(Exec(s, cmds), i);
    if cmds != [] {
      var front, last := cmds[..|cmds| - 1], cmds[|cmds| - 1];
      forall k | 0 <= k <= |front| ensures ReadyAt(Exec(s, front[..k]), i) {
        assert front[..k] == cmds[..k];
      }
      FairDispatch(s, front, i);
      assert front[..|front|] == front;
      var m := Exec(s, front);
      assert ReadyAt(m, i);
      InvShaped(m);
      StepApproaches(m, last, Exec(s, cmds), i);
    }
  }
}

/** Blocking operations park only for a reason that is still open, and signals reopen them. */
module KernelBlock {
  import opened Bytes
  import opened Pipes
  import opened KernelState
  import opened KernelInv
  import opened KernelSteps
  import opened KernelLife
  import opened KernelInterrupt

  /** The running task holds end `e` of `p` through descriptor `fd` and is not marked as waiting. */
  ghost predicate AtPipe(s: State, fd: nat, p: nat, e: End) {
    s.current < |s.tasks| && Cur(s).waitPipe == 0 && fd < |Cur(s).fds| && p != 0 && Holds(Cur(s).fds[fd], p, e)
  }

  lemma HeldPipe(s: State, fd: nat, p: nat, e: End)
    requires Good(s) && AtPipe(s, fd, p, e)
    ensures p in s.pipes && StreamOk(s.pipes[p])
    ensures if e == ReadEnd then s.pipes[p].readers > 0 && s.pipes[p].writers >= 0
            else s.pipes[p].writers > 0 && s.pipes[p].readers >= 0
  {
    assert TaskOk(Cur(s), s.pipes) && FileOk(Cur(s).fds[fd], s.pipes);
    assert CountsOk(s.tasks, p, s.pipes[p]);
    CountSlotsHeld(s.tasks, s.current, fd, p, e);
  }

  /** Returning to user mode. */
  lemma BackToUser(s: State, reply: Reply)
    requires Inv(s) && Cur(s).waitPipe == 0 && s.current != 0
    ensures SegmentOk(s, Segment(SetCur(s, Cur(s).(at := User)), false, reply))
    ensures Inv(SetCur(s, Cur(s).(at := User)))
  {
    hide StreamsOk, SlotsCounted, PidsOk, NoMissedChild, PipesLater, TasksLater;
    assert TaskOk(Cur(s), s.pipes);
    QuietKeeps(s, s.current, Cur(s).(at := User));
  }

  /** Giving up the CPU inside an operation. */
  lemma ParkKeeps(s: State, t: Task)
    requires Inv(s) && s.current != 0 && TaskOk(t, s.pipes) && Parked(t) && t.state == Blocked
    requires t == Cur(s).(waitPipe := t.waitPipe, state := Blocked, at := t.at, missed := t.missed)
    requires t.at.Waiting? ==> forall j :: 0 <= j < MAX_TASKS ==> !Wanted(s.tasks[j], t.pid, t.at.pid)
    ensures SegmentOk(s, Segment(SetCur(s, t), true, NoReply))
  {
    hide StreamsOk, SlotsCounted, TaskOk;
    TablesOk(s);
    var ts := s.tasks[s.current := t];
    forall a: nat, b: nat | a < |ts| && b < |ts| ensures !Misses(ts, a, b) {
      assert !Misses(s.tasks, a, b) && PidOk(Cur(s), s.nextPid);
    }
    hide PidsOk;
    SetTaskChange(s, s.current, t);
  }

  /** After bytes moved and sleepers were woken, the same task still runs. */
  lemma RingStepInv(s: State, p: nat, q: Pipe)
    requires Inv(s) && p in s.pipes && StreamOk(q) && PipeGrows(s.pipes[p], q)
    requires q.readers == s.pipes[p].readers && q.writers == s.pipes[p].writers
    ensures var r := PipeWake(s.(pipes := s.pipes[p := q]), p);
      Inv(r) && Later(s, r) && Local(s, r) && Cur(r) == Cur(s)
  {
    hide Good, StreamOk, PipeGrows;
    TablesOk(s);
    RingStepKeeps(s, p, q);
    var r := PipeWake(s.(pipes := s.pipes[p := q]), p);
    forall i | 0 <= i < |s.tasks| ensures Woken(s.tasks[i], r.tasks[i]) && r.tasks[i].fds == s.tasks[i].fds { }
    forall i | 0 <= i < |r.tasks| && r.tasks[i].state != Free ensures Parked(r.tasks[i]) { assert Parked(s.tasks[i]); }
  }

  lemma LocalThen(s: State, m: State, g: Segment)
    requires Inv(s) && Inv(m) && Later(s, m) && Local(s, m) && SegmentOk(m, g)
    ensures SegmentOk(s, g)
  {
    LaterTransitive(s, m, g.s);
    hide Good, Later, AllParked;
  }

  lemma PipeReadKeeps(s: State, fd: nat, p: nat, n: nat, ints: Ints)
    requires Inv(s) && s.current != 0 && AtPipe(s, fd, p, ReadEnd) && n > 0
    ensures p in s.pipes && RingOk(s.pipes[p]) && SegmentOk(s, PipeRead(s, fd, p, n, ints))
  {
    HeldPipe(s, fd, p, ReadEnd);
    var q := s.pipes[p];
    hide Good, AllParked;
    if q.len > 0 {
      var got := Min(n, q.len);
      var q' := PopAll(q, got);
      StreamKept(q, [], got);
      RingStepInv(s, p, q');
      var m := PipeWake(s.(pipes := s.pipes[p := q']), p);
      BackToUser(m, Bytes(Oldest(q, got)));
      LocalThen(s, m, PipeRead(s, fd, p, n, ints));
    } else if q.writers == 0 {
      BackToUser(s, Bytes([]));
    } else if Cur(s).sig != {} {
      BackToUser(s, Value(-1));
    } else {
      ParkAt(s, fd, p, Reading(fd, p, n), ints);
    }
  }

  /** Going to sleep in a pipe loop after its tests, with or without a Ctrl+C in between. */
  lemma ParkAt(s: State, fd: nat, p: nat, at: Place, ints: Ints)
    requires Inv(s) && s.current != 0 && p in s.pipes && Cur(s).sig == {}
    requires match at
      case Reading(fd', p', n) =>
        fd' == fd && p' == p && AtPipe(s, fd, p, ReadEnd) && n > 0 && s.pipes[p].len == 0 && s.pipes[p].writers > 0
      case Writing(fd', p', d, done) =>
        && fd' == fd && p' == p && AtPipe(s, fd, p, WriteEnd) && done < |d|
        && s.pipes[p].len == CAPACITY && s.pipes[p].readers > 0
      case _ => false
    ensures SegmentOk(s, Park(s, p, at, ints))
  {
    hide Good, AllParked, Land, Later, Local, SegmentOk, Hits;
    LandKeeps(s, ints);
    LandCur(s, ints);
    var m := Land(s, ints);
    var t := Cur(m).(waitPipe := p, state := Blocked, at := at, missed := Hits(s, ints));
    assert TaskOk(t, m.pipes) by { TablesOk(m); }
    ParkKeeps(m, t);
    LocalThen(s, m, Park(s, p, at, ints));
  }

  lemma StreamRing(q: Pipe)
    requires StreamOk(q)
    ensures RingOk(q) && q.len <= CAPACITY
  {
  }

  /** Bytes accepted from a writer keep the invariant. */
  lemma FillInv(s: State, p: nat, d: seq<byte>)
    requires Inv(s) && p in s.pipes && StreamOk(s.pipes[p]) && s.pipes[p].len + |d| <= CAPACITY
    requires s.pipes[p].writers > 0
    ensures var m := PipeWake(s.(pipes := s.pipes[p := PushAll(s.pipes[p], d)]), p);
      Inv(m) && Later(s, m) && Local(s, m) && Cur(m) == Cur(s)
  {
    hide Inv, Later, Local, PipeWake, StreamOk, InFlight, RingOk, PushAll;
    StreamRing(s.pipes[p]);
    StreamKept(s.pipes[p], d, 0);
    RingStepInv(s, p, PushAll(s.pipes[p], d));
  }

  lemma ScheduledCur(s: State)
    requires Scheduled(s)
    ensures s.current < |s.tasks| && Cur(s).state == Running
  {
  }

  /** One round of a write that found room: a Ctrl+C, the bytes and the wake-ups keep the invariant. */
  lemma RoundInv(s: State, fd: nat, p: nat, d: seq<byte>, ints: Ints)
    requires Inv(s) && AtPipe(s, fd, p, WriteEnd)
    requires p in s.pipes && StreamOk(s.pipes[p]) && s.pipes[p].len + |d| <= CAPACITY && s.pipes[p].writers > 0
    ensures var m := PipeWake(Land(s, ints).(pipes := s.pipes[p := PushAll(s.pipes[p], d)]), p);
      Inv(m) && Later(s, m) && Local(s, m) && AtPipe(m, fd, p, WriteEnd)
  {
    hide Good, AllParked, Scheduled, PushAll, StreamOk, RingOk, InFlight, PipeWake, Land, Later;
    StreamRing(s.pipes[p]);
    ScheduledCur(s);
    LandKeeps(s, ints);
    LandCur(s, ints);
    var a := Land(s, ints);
    FillInv(a, p, d);
    var m := PipeWake(a.(pipes := s.pipes[p := PushAll(s.pipes[p], d)]), p);
    LaterTransitive(s, a, m);
  }

  lemma {:induction false} PipeWriteKeeps(s: State, fd: nat, p: nat, d: seq<byte>, done: nat, ints: Ints)
    requires Inv(s) && s.current != 0 && AtPipe(s, fd, p, WriteEnd) && done <= |d|
    ensures p in s.pipes && RingOk(s.pipes[p]) && SegmentOk(s, PipeWrite(s, fd, p, d, done, ints))
    decreases |d| - done
  {
    hide Good, AllParked, PushAll, StreamOk, RingOk, InFlight, PipeWake, Land, Park;
    HeldPipe(s, fd, p, WriteEnd);
    StreamRing(s.pipes[p]);
    var q := s.pipes[p];
    if done == |d| {
      BackToUser(s, Value(done));
    } else if q.readers == 0 || Cur(s).sig != {} {
      BackToUser(s, Value(-1));
    } else if q.len < CAPACITY {
      var n := Min(|d| - done, CAPACITY - q.len);
      RoundInv(s, fd, p, d[done..done + n], ints);
      var m := PipeWake(Land(s, ints).(pipes := s.pipes[p := PushAll(q, d[done..done + n])]), p);
      PipeWriteKeeps(m, fd, p, d, done + n, Rest(ints));
      LocalThen(s, m, PipeWrite(m, fd, p, d, done + n, Rest(ints)));
    } else {
      ParkAt(s, fd, p, Writing(fd, p, d, done), ints);
    }
  }

  lemma WaitpidKeeps(s: State, pid: int)
    requires Inv(s) && s.current != 0 && Cur(s).waitPipe == 0
    ensures SegmentOk(s, Waitpid(s, pid))
  {
    var me := Cur(s).pid;
    var i := FindZombie(s.tasks, me, pid, 0);
    assert PidOk(Cur(s), s.nextPid) && TaskOk(Cur(s), s.pipes);
    hide StreamsOk, SlotsCounted, PidsOk, NoMissedChild, PipesLater, TasksLater, Reap;
    BackToUser(s, Value(-1));
    if i < MAX_TASKS {
      assert i != 0 && i != s.current;
      var m := SetCur(s, Cur(s).(at := User));
      ReapKeeps(m, i);
      LocalThen(s, m, Segment(Reap(m, i), false, NoReply));
    } else if HasChildren(s.tasks, me) {
      ParkKeeps(s, Cur(s).(state := Blocked, at := Waiting(pid)));
    }
  }
}

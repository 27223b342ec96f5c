/**
 Tasks, descriptors, pipes and signals as one state, and what one stretch of kernel
 code does to it.

 Control changes hands only inside `sched_yield`, and every blocking loop of the
 kernel calls it as the last thing before it looks at the world again.  A step is
 therefore a *segment*: the code from a syscall entry, or from the return of
 `sched_yield`, up to the next `sched_yield` or to the return to user mode.

 The `syscall` instruction masks interrupts, so a segment that starts at a syscall
 entry is atomic.  A switch neither saves nor restores the interrupt flag, and the
 idle loop yields with interrupts enabled, so a segment that starts inside the kernel
 can meet a Ctrl+C: before its first test, between a test and what the test allowed,
 or at its end.
 */
module KernelState {
  import opened Bytes
  import opened Pipes

  const MAX_TASKS: nat := 64
  const MAX_FDS: nat := 16
  const NSIG: nat := 32
  const SIGINT: nat := 2
  const SIGSEGV: nat := 11
  const SIGPIPE: nat := 13
  const SIGTERM: nat := 15
  const SIGKILL: nat := 17

  datatype RunState = Free | Ready | Running | Blocked

  /** An open file description; node and pipe are addresses, 0 is NULL. */
  datatype File = File(node: nat, pipe: nat, consoleIn: bool, consoleOut: bool, rd: bool, wr: bool, pos: nat)

  datatype Action = Default | Ignore | Handler(addr: nat)

  /** What can go wrong in fork: nothing, the address space copy, or the kernel stack. */
  datatype ForkMemory = Enough | NoSpace | NoStack

  datatype Call =
    | SysPipe(addr: nat)                     // the address kmalloc returns, 0 when it fails
    | SysOpen(inode: nat)
    | SysDup(fd: int)
    | SysDup2(oldfd: int, newfd: int)
    | SysClose(fd: int)
    | SysRead(fd: int, count: nat)
    | SysWrite(fd: int, data: seq<byte>)
    | SysFork(memory: ForkMemory)
    | SysExit(code: int)
    | SysWaitpid(pid: int)
    | SysKill(pid: int, sig: nat)
    | SysSignal(sig: nat, action: Action)
    | SysYield

  /** Where a task's kernel stack will continue. */
  datatype Place =
    | User
    | Entered(call: Call)                        // preempted at syscall entry, after signal delivery
    | Reading(fd: nat, pipe: nat, count: nat)    // inside pipe_read
    | Writing(fd: nat, pipe: nat, data: seq<byte>, done: nat)  // inside pipe_write
    | Waiting(pid: int)                          // inside sys_waitpid
    | Idling
    | Dead                                       // past exit: nothing left to run

  datatype Task = Task(pid: int, parent: int, state: RunState, zombie: bool, status: int,
                       fds: seq<File>, sig: set<nat>, handlers: seq<Action>, waitPipe: nat, at: Place,
                       missed: bool)  // history: a Ctrl+C came after the last test of the pipe loop, before the park

  datatype State = State(tasks: seq<Task>, current: nat, nextPid: int, pipes: map<nat, Pipe>, nextGen: nat)

  /**
   What a segment hands back to user mode, if it gets that far: a number, bytes read, the two
   descriptors of a new pipe, or the pid and the status of a child.
   */
  datatype Reply =
    | Value(v: int)
    | Bytes(d: seq<byte>)
    | Ends(rd: nat, wr: nat)
    | Reaped(pid: int, status: int)
    | NoReply

  /** `switches`: the segment ends in sched_yield. */
  datatype Segment = Segment(s: State, switches: bool, reply: Reply)

  /** Ctrl+C after the first, second, ... test of a pipe loop: the slots of the foreground group each time. */
  type Ints = seq<set<nat>>

  datatype Cmd =
    | Enter(call: Call, preempt: bool)   // the running task makes a syscall; the timer may have asked for a switch
    | Resume(ints: Ints, late: set<nat>) // the running task continues where it yielded, and Ctrl+C may come meanwhile
    | Fault                              // the running task takes an unhandled page fault in user mode
    | Sigint(group: set<nat>)            // Ctrl+C interrupt; the slots of the foreground group
    | Nudge(slot: nat)                   // sched_wake from the rudo service
    | IdleTick                           // the idle loop acts on a reschedule request

  const NO_FILE := File(0, 0, false, false, false, false, 0)

  function NoFds(n: nat): (r: seq<File>)
    ensures |r| == n && forall k :: 0 <= k < n ==> r[k] == NO_FILE
  {
    seq(n, _ => NO_FILE)
  }

  function DefaultActions(): (r: seq<Action>)
    ensures |r| == NSIG && forall k :: 0 <= k < NSIG ==> r[k] == Default
  {
    seq(NSIG, _ => Default)
  }

  /** A task slot after memset. */
  function NoTask(): Task {
    Task(0, 0, Free, false, 0, NoFds(MAX_FDS), {}, DefaultActions(), 0, User, false)
  }

  function Cur(s: State): Task
    requires s.current < |s.tasks|
  {
    s.tasks[s.current]
  }

  function SetTask(s: State, i: nat, t: Task): State
    requires i < |s.tasks|
  {
    s.(tasks := s.tasks[i := t])
  }

  function SetCur(s: State, t: Task): State
    requires s.current < |s.tasks|
  {
    SetTask(s, s.current, t)
  }

  // ---- sched.c ----------------------------------------------------------

  function Wake(t: Task): Task {
    if t.state == Blocked && !t.zombie then t.(state := Ready) else t
  }

  /** Lowest occupied slot at or after `i` that holds `pid`, or |ts|. */
  function FindPid(ts: seq<Task>, pid: int, i: nat): (r: nat)
    requires i <= |ts|
    ensures i <= r <= |ts|
    ensures r < |ts| ==> ts[r].state != Free && ts[r].pid == pid
    ensures forall j :: i <= j < r ==> ts[j].state == Free || ts[j].pid != pid
    decreases |ts| - i
  {
    if i == |ts| || (ts[i].state != Free && ts[i].pid == pid) then i else FindPid(ts, pid, i + 1)
  }

  /** Lowest free slot at or after `i`, or |ts|. */
  function AllocSlot(ts: seq<Task>, i: nat): (r: nat)
    requires i <= |ts|
    ensures i <= r <= |ts|
    ensures r < |ts| ==> ts[r].state == Free
    ensures forall j :: i <= j < r ==> ts[j].state != Free
    decreases |ts| - i
  {
    if i == |ts| || ts[i].state == Free then i else AllocSlot(ts, i + 1)
  }

  predicate Runnable(t: Task) {
    t.state == Ready || t.state == Running
  }

  /** Is the slot `i` places after `start`, going round, runnable? */
  predicate RunnableAt(ts: seq<Task>, start: nat, i: nat)
    requires start < |ts|
  {
    Runnable(ts[(start + i) % |ts|])
  }

  /** The round-robin scan of sched_yield: the first runnable slot `i`, `i+1`, ... places after `start`. */
  function ScanFrom(ts: seq<Task>, start: nat, i: nat): (r: nat)
    requires start < |ts| && 1 <= i <= |ts| + 1
    ensures r < |ts|
    decreases |ts| + 1 - i
  {
    if i == |ts| + 1 then start
    else if RunnableAt(ts, start, i) then (start + i) % |ts|
    else ScanFrom(ts, start, i + 1)
  }

  /** The running task leaves the CPU, unless it parked itself, and `next` takes it. */
  function SwitchTo(s: State, next: nat): State
    requires s.current < |s.tasks| && next < |s.tasks|
  {
    var prev := Cur(s);
    var out := if prev.state == Running then prev.(state := if prev.zombie then Blocked else Ready) else prev;
    var ts := s.tasks[s.current := out];
    s.(tasks := ts[next := ts[next].(state := Running)], current := next)
  }

  function Yield(s: State): State
    requires s.current < |s.tasks|
  {
    var next := ScanFrom(s.tasks, s.current, 1);
    if next == s.current then s else SwitchTo(s, next)
  }

  function WakePid(s: State, pid: int): State {
    var i := FindPid(s.tasks, pid, 0);
    if i < |s.tasks| then SetTask(s, i, Wake(s.tasks[i])) else s
  }

  // ---- kbd.c ------------------------------------------------------------

  /** raise_sigint for the slots of the foreground group. */
  function Interrupted(t: Task): Task {
    var t' := t.(sig := t.sig + {SIGINT});
    if t.state == Blocked && t.waitPipe != 0 then Wake(t'.(waitPipe := 0)) else t'
  }

  function InterruptedIn(t: Task, foreground: bool): Task {
    if foreground && t.state != Free && t.pid >= 1 then Interrupted(t) else t
  }

  function RaiseSigint(s: State, group: set<nat>): (r: State)
    ensures |r.tasks| == |s.tasks| && r == s.(tasks := r.tasks)
  {
    s.(tasks := seq(|s.tasks|, i requires 0 <= i < |s.tasks| => InterruptedIn(s.tasks[i], i in group)))
  }

  /** The next Ctrl+C of a schedule arrives, if there is one. */
  function Land(s: State, ints: Ints): (r: State)
    ensures |r.tasks| == |s.tasks| && r == s.(tasks := r.tasks)
  {
    if ints == [] then s else RaiseSigint(s, ints[0])
  }

  function Rest(ints: Ints): Ints {
    if ints == [] then [] else ints[1..]
  }

  /** The next Ctrl+C of a schedule is one for the running task. */
  predicate Hits(s: State, ints: Ints)
    requires s.current < |s.tasks|
  {
    ints != [] && s.current in ints[0] && Cur(s).pid >= 1
  }

  // ---- pipe.c -----------------------------------------------------------

  function WakeOn(t: Task, p: nat): Task {
    if t.state == Blocked && t.waitPipe == p then Wake(t.(waitPipe := 0)) else t
  }

  function WakeAll(ts: seq<Task>, p: nat): (r: seq<Task>)
    ensures |r| == |ts|
  {
    seq(|ts|, i requires 0 <= i < |ts| => WakeOn(ts[i], p))
  }

  function PipeWake(s: State, p: nat): State {
    s.(tasks := WakeAll(s.tasks, p))
  }

  function Bit(b: bool): int {
    if b then 1 else 0
  }

  function RefPipes(pipes: map<nat, Pipe>, p: nat, rd: bool, wr: bool): map<nat, Pipe> {
    if p in pipes then
      pipes[p := pipes[p].(readers := pipes[p].readers + Bit(rd), writers := pipes[p].writers + Bit(wr))]
    else pipes
  }

  function PipeRef(s: State, p: nat, rd: bool, wr: bool): State {
    s.(pipes := RefPipes(s.pipes, p, rd, wr))
  }

  /** Drop references and free the pipe with the last one. */
  function UnrefPipes(pipes: map<nat, Pipe>, p: nat, rd: bool, wr: bool): map<nat, Pipe> {
    if p !in pipes then pipes
    else
      var q := pipes[p].(readers := pipes[p].readers - Bit(rd), writers := pipes[p].writers - Bit(wr));
      if q.readers <= 0 && q.writers <= 0 then pipes - {p} else pipes[p := q]
  }

  function PipeUnref(s: State, p: nat, rd: bool, wr: bool): State {
    s.(tasks := WakeAll(s.tasks, p), pipes := UnrefPipes(s.pipes, p, rd, wr))
  }

  function Min(a: nat, b: nat): nat {
    if a < b then a else b
  }

  /** The end of a round of a pipe loop: the tests are done, and the caller goes to sleep whatever comes now. */
  function Park(s: State, p: nat, at: Place, ints: Ints): Segment
    requires s.current < |s.tasks|
  {
    var s1 := Land(s, ints);
    Segment(SetCur(s1, Cur(s1).(waitPipe := p, state := Blocked, at := at, missed := Hits(s, ints))), true, NoReply)
  }

  /** pipe_read from the top of its loop; `ints` may bring a Ctrl+C after the test for signals. */
  function PipeRead(s: State, fd: nat, p: nat, n: nat, ints: Ints): Segment
    requires s.current < |s.tasks| && p in s.pipes && RingOk(s.pipes[p])
  {
    var q := s.pipes[p];
    if q.len > 0 then
      var got := Min(n, q.len);
      var s' := PipeWake(s.(pipes := s.pipes[p := PopAll(q, got)]), p);
      Segment(SetCur(s', Cur(s').(at := User)), false, Bytes(Oldest(q, got)))
    else if q.writers == 0 then Segment(SetCur(s, Cur(s).(at := User)), false, Bytes([]))
    else if Cur(s).sig != {} then Segment(SetCur(s, Cur(s).(at := User)), false, Value(-1))
    else Park(s, p, Reading(fd, p, n), ints)
  }

  /** pipe_write from the top of its loop, `done` bytes already accepted; each round tests for signals. */
  function PipeWrite(s: State, fd: nat, p: nat, d: seq<byte>, done: nat, ints: Ints): (r: Segment)
    requires s.current < |s.tasks| && p in s.pipes && RingOk(s.pipes[p])
    requires done <= |d|
    ensures r.reply.Value? || r.reply.NoReply?
    decreases |d| - done
  {
    var q := s.pipes[p];
    if done == |d| then Segment(SetCur(s, Cur(s).(at := User)), false, Value(done))
    else if q.readers == 0 || Cur(s).sig != {} then Segment(SetCur(s, Cur(s).(at := User)), false, Value(-1))
    else if q.len < CAPACITY then
      var n := Min(|d| - done, CAPACITY - q.len);
      var s1 := Land(s, ints);
      var s' := PipeWake(s1.(pipes := s.pipes[p := PushAll(q, d[done..done + n])]), p);
      PipeWrite(s', fd, p, d, done + n, Rest(ints))
    else Park(s, p, Writing(fd, p, d, done), ints)
  }

  // ---- syscall.c: descriptors ------------------------------------------

  predicate InUse(f: File) {
    f.node != 0 || f.pipe != 0 || f.consoleIn || f.consoleOut || f.rd || f.wr
  }

  predicate FdGet(t: Task, fd: int) {
    0 <= fd < |t.fds| && InUse(t.fds[fd])
  }

  /** Lowest unused descriptor at or after `i`, or |fds|. */
  function FdAlloc(fds: seq<File>, i: nat): (r: nat)
    requires i <= |fds|
    ensures i <= r <= |fds|
    ensures r < |fds| ==> !InUse(fds[r])
    ensures forall j :: i <= j < r ==> InUse(fds[j])
    decreases |fds| - i
  {
    if i == |fds| || !InUse(fds[i]) then i else FdAlloc(fds, i + 1)
  }

  function SetFd(s: State, i: nat, fd: nat, f: File): State
    requires i < |s.tasks| && fd < |s.tasks[i].fds|
  {
    SetTask(s, i, s.tasks[i].(fds := s.tasks[i].fds[fd := f]))
  }

  function FdPut(s: State, i: nat, fd: nat): (r: State)
    requires i < |s.tasks| && fd < |s.tasks[i].fds|
    ensures |r.tasks| == |s.tasks| && |r.tasks[i].fds| == |s.tasks[i].fds|
  {
    var f := s.tasks[i].fds[fd];
    SetFd(if f.pipe != 0 then PipeUnref(s, f.pipe, f.rd, f.wr) else s, i, fd, NO_FILE)
  }

  function FdsRelease(s: State, i: nat, fd: nat): (r: State)
    requires i < |s.tasks| && fd <= |s.tasks[i].fds|
    ensures |r.tasks| == |s.tasks|
    decreases |s.tasks[i].fds| - fd
  {
    if fd == |s.tasks[i].fds| then s else FdsRelease(FdPut(s, i, fd), i, fd + 1)
  }

  function DoDup2(s: State, oldfd: int, newfd: int): Segment
    requires s.current < |s.tasks|
  {
    if !FdGet(Cur(s), oldfd) || newfd < 0 || newfd >= |Cur(s).fds| then Segment(s, false, Value(-1))
    else if oldfd == newfd then Segment(s, false, Value(newfd))
    else
      var s1 := if FdGet(Cur(s), newfd) then FdPut(s, s.current, newfd) else s;
      var f := Cur(s1).fds[oldfd];
      var s2 := SetFd(s1, s1.current, newfd, f);
      Segment(if f.pipe != 0 then PipeRef(s2, f.pipe, f.rd, f.wr) else s2, false, Value(newfd))
  }

  function SysPipeBody(s: State, addr: nat): Segment
    requires s.current < |s.tasks|
  {
    if addr == 0 || addr in s.pipes then Segment(s, false, Value(-1))
    else
      var s1 := s.(pipes := s.pipes[addr := Create(s.nextGen)], nextGen := s.nextGen + 1);
      var rd := FdAlloc(Cur(s1).fds, 0);
      if rd == |Cur(s1).fds| then Segment(PipeUnref(s1, addr, true, true), false, Value(-1))
      else
        var s2 := SetFd(s1, s1.current, rd, NO_FILE.(pipe := addr));
        var wr := FdAlloc(Cur(s2).fds, 0);
        if wr == |Cur(s2).fds| then
          Segment(PipeUnref(SetFd(s2, s2.current, rd, NO_FILE), addr, true, true), false, Value(-1))
        else
          var s3 := SetFd(s2, s2.current, rd, NO_FILE.(pipe := addr, rd := true));
          Segment(SetFd(s3, s3.current, wr, NO_FILE.(pipe := addr, wr := true)), false, Ends(rd, wr))
  }

  // ---- syscall.c: process lifetime -------------------------------------

  /** The running task becomes a zombie and its parent is told. */
  function Bury(s: State, status: int): State
    requires s.current < |s.tasks|
  {
    WakePid(SetCur(s, Cur(s).(status := status, zombie := true, at := Dead)), Cur(s).parent)
  }

  /** sys_exit, and the default action of an unhandled page fault: descriptors stay until the reaping. */
  function Exit(s: State, status: int): Segment
    requires s.current < |s.tasks|
  {
    Segment(Bury(s, status), true, NoReply)
  }

  /** terminate_current: descriptors are released at once. */
  function Terminate(s: State, sig: nat): Segment
    requires s.current < |s.tasks|
  {
    Segment(FdsRelease(Bury(s, 0 - sig), s.current, 0), true, NoReply)
  }

  function Reap(s: State, i: nat): State
    requires i < |s.tasks|
  {
    SetTask(FdsRelease(s, i, 0), i, NoTask())
  }

  /** stdin, stdout and stderr on the console. */
  function ConsoleFds(): (r: seq<File>)
    ensures |r| == MAX_FDS && forall k :: 0 <= k < MAX_FDS ==> r[k].pipe == 0 && !r[k].rd && !r[k].wr
  {
    [File(0, 0, true, false, false, false, 0), File(0, 0, false, true, false, false, 0),
      File(0, 0, false, true, false, false, 0)]
    + NoFds(MAX_FDS - 3)
  }

  function Spawned(pid: int, parent: int): Task {
    Task(pid, parent, Ready, false, 0, ConsoleFds(), {}, DefaultActions(), 0, User, false)
  }

  /** Count the child's copies of the parent's descriptors into the pipes. */
  function RefAll(pipes: map<nat, Pipe>, fds: seq<File>, fd: nat): map<nat, Pipe>
    requires fd <= |fds|
    decreases |fds| - fd
  {
    if fd == |fds| then pipes
    else
      var f := fds[fd];
      RefAll(if f.pipe != 0 then RefPipes(pipes, f.pipe, f.rd, f.wr) else pipes, fds, fd + 1)
  }

  function Fork(s: State, memory: ForkMemory): Segment
    requires s.current < |s.tasks|
  {
    var i := AllocSlot(s.tasks, 0);
    if memory == NoSpace || i == |s.tasks| then Segment(s, false, Value(-1))
    else
      var child := Spawned(s.nextPid, Cur(s).pid);
      if memory == NoStack then
        Segment(SetTask(s, i, child.(fds := NoFds(MAX_FDS), state := Free)).(nextPid := s.nextPid + 1), false,
          Value(-1))
      else
        var s1 := SetTask(s, i, child.(fds := Cur(s).fds)).(nextPid := s.nextPid + 1);
        Segment(s1.(pipes := RefAll(s.pipes, Cur(s).fds, 0)), false, Value(child.pid))
  }

  predicate IsChild(t: Task, me: int) {
    t.state != Free && t.parent == me && t.pid != 0
  }

  predicate HasChildren(ts: seq<Task>, me: int) {
    exists j :: 0 <= j < |ts| && IsChild(ts[j], me)
  }

  predicate Wanted(t: Task, me: int, pid: int) {
    IsChild(t, me) && (pid == -1 || pid == t.pid) && t.zombie
  }

  /** Lowest slot at or after `i` with a zombie child to report, or |ts|. */
  function FindZombie(ts: seq<Task>, me: int, pid: int, i: nat): (r: nat)
    requires i <= |ts|
    ensures i <= r <= |ts|
    ensures r < |ts| ==> Wanted(ts[r], me, pid)
    ensures forall j :: i <= j < r ==> !Wanted(ts[j], me, pid)
    decreases |ts| - i
  {
    if i == |ts| || Wanted(ts[i], me, pid) then i else FindZombie(ts, me, pid, i + 1)
  }

  /** sys_waitpid from the top of its loop. */
  function Waitpid(s: State, pid: int): Segment
    requires s.current < |s.tasks|
  {
    var me := Cur(s).pid;
    var i := FindZombie(s.tasks, me, pid, 0);
    if i < |s.tasks| then
      var s' := SetCur(s, Cur(s).(at := User));
      Segment(Reap(s', i), false, Reaped(s.tasks[i].pid, s.tasks[i].status))
    else if !HasChildren(s.tasks, me) then
      Segment(SetCur(s, Cur(s).(at := User)), false, Value(-1))
    else Segment(SetCur(s, Cur(s).(state := Blocked, at := Waiting(pid))), true, NoReply)
  }

  // ---- syscall.c: signals ----------------------------------------------

  predicate Fatal(sig: nat) {
    sig == SIGKILL || sig == SIGTERM || sig == SIGINT || sig == SIGSEGV || sig == SIGPIPE
  }

  function Lowest(sig: set<nat>, i: nat): (r: nat)
    requires i <= NSIG
    ensures i <= r <= NSIG
    ensures r < NSIG ==> r in sig
    ensures forall k :: i <= k < r ==> k !in sig
    decreases NSIG - i
  {
    if i == NSIG || i in sig then i else Lowest(sig, i + 1)
  }

  /** deliver_signals; the segment switches exactly when it terminates the current task. */
  function Deliver(s: State): (r: Segment)
    requires s.current < |s.tasks| && |Cur(s).handlers| == NSIG
    ensures !r.switches ==> r.s.current == s.current && |r.s.tasks| == |s.tasks|
    ensures !r.switches ==> r.s == SetCur(s, Cur(s).(sig := Cur(r.s).sig)) && Cur(r.s).sig <= Cur(s).sig
    decreases |Cur(s).sig|
  {
    var sig := Lowest(Cur(s).sig, 0);
    if sig == NSIG then Segment(s, false, NoReply)
    else
      var s' := SetCur(s, Cur(s).(sig := Cur(s).sig - {sig}));
      match Cur(s).handlers[sig]
      case Ignore => Deliver(s')
      case Default => if Fatal(sig) then Terminate(s, sig) else Deliver(s')
      case Handler(_) => Segment(s', false, NoReply)
  }

  function Kill(s: State, pid: int, sig: nat): Segment
    requires s.current < |s.tasks| && |Cur(s).handlers| == NSIG
  {
    var i := FindPid(s.tasks, pid, 0);
    if sig == 0 || sig >= NSIG || i == |s.tasks| || s.tasks[i].pid == 0 then Segment(s, false, Value(-1))
    else
      var t := s.tasks[i].(sig := s.tasks[i].sig + {sig});
      var s1 := SetTask(s, i, t);
      if i == s.current then
        var d := Deliver(s1);
        d.(reply := if d.switches then NoReply else Value(0))
      else if sig == SIGKILL && (t.state == Blocked || t.state == Ready) then
        var s2 := WakePid(SetTask(s1, i, t.(status := 0 - SIGKILL, zombie := true)), t.parent);
        var t2 := s2.tasks[i];
        if t2.waitPipe != 0 then
          Segment(PipeWake(SetTask(s2, i, t2.(waitPipe := 0)), t2.waitPipe), false, Value(0))
        else
          Segment(SetTask(s2, i, Wake(t2)), false, Value(0))
      else if t.waitPipe != 0 then
        Segment(PipeWake(s1, t.waitPipe), false, Value(0))
      else Segment(s1, false, Value(0))
  }

  /** An action as sys_signal takes and returns it: SIG_DFL, SIG_IGN or the address of a handler. */
  function Code(a: Action): int {
    match a case Default => 0 case Ignore => 1 case Handler(addr) => addr
  }

  function Signal(s: State, sig: nat, action: Action): Segment
    requires s.current < |s.tasks| && |Cur(s).handlers| == NSIG
  {
    if sig == 0 || sig >= NSIG || sig == SIGKILL then Segment(s, false, Value(-1))
    else
      var reply := Value(Code(Cur(s).handlers[sig]));
      Segment(SetCur(s, Cur(s).(handlers := Cur(s).handlers[sig := action])), false, reply)
  }

  // ---- one step ---------------------------------------------------------

  /** The invariant every segment starts from is far stronger; this is what the step functions need to be defined. */
  ghost predicate Shaped(s: State) {
    && |s.tasks| == MAX_TASKS && s.current < MAX_TASKS
    && (forall i :: 0 <= i < |s.tasks| ==> |s.tasks[i].fds| == MAX_FDS && |s.tasks[i].handlers| == NSIG)
    && (forall p <- s.pipes :: RingOk(s.pipes[p]))
  }

  /** The syscall proper, after signal delivery and preemption. */
  ghost function Body(s: State, c: Call, ints: Ints): Segment
    requires Shaped(s)
  {
    match c
    case SysPipe(addr) => SysPipeBody(s, addr)
    case SysOpen(inode) =>
      var fd := FdAlloc(Cur(s).fds, 0);
      if inode == 0 || fd == |Cur(s).fds| then Segment(s, false, Value(-1))
      else Segment(SetFd(s, s.current, fd, NO_FILE.(node := inode)), false, Value(fd))
    case SysDup(fd) =>
      var newfd := FdAlloc(Cur(s).fds, 0);
      if !FdGet(Cur(s), fd) || newfd == |Cur(s).fds| then Segment(s, false, Value(-1)) else DoDup2(s, fd, newfd)
    case SysDup2(oldfd, newfd) => DoDup2(s, oldfd, newfd)
    case SysClose(fd) =>
      if !FdGet(Cur(s), fd) then Segment(s, false, Value(-1)) else Segment(FdPut(s, s.current, fd), false, Value(0))
    case SysRead(fd, n) =>
      if !FdGet(Cur(s), fd) || n == 0 then Segment(s, false, Value(-1))
      else
        var f := Cur(s).fds[fd];
        if f.rd && f.pipe in s.pipes then PipeRead(s, fd, f.pipe, n, ints)
        else Segment(s, false, if f.consoleIn || f.node != 0 then NoReply else Value(-1))
    case SysWrite(fd, d) =>
      if !FdGet(Cur(s), fd) || d == [] then Segment(s, false, Value(-1))
      else
        var f := Cur(s).fds[fd];
        if f.wr && f.pipe in s.pipes then PipeWrite(s, fd, f.pipe, d, 0, ints)
        else Segment(s, false, if f.node != 0 then NoReply else Value(if f.consoleOut then |d| else -1))
    case SysFork(memory) => Fork(s, memory)
    case SysExit(code) => Exit(s, code)
    case SysWaitpid(pid) => Waitpid(s, pid)
    case SysKill(pid, sig) => Kill(s, pid, sig)
    case SysSignal(sig, action) => Signal(s, sig, action)
    case SysYield => Segment(s, true, Value(0))
  }

  /** Continue the running task where it left the CPU. */
  ghost function Continue(s: State, ints: Ints): Segment
    requires Shaped(s)
  {
    match Cur(s).at
    case Entered(c) => Body(SetCur(s, Cur(s).(at := User)), c, ints)
    case Reading(fd, p, n) =>
      var s' := SetCur(s, Cur(s).(waitPipe := 0));
      if p in s.pipes then PipeRead(s', fd, p, n, ints) else Segment(s, false, NoReply)
    case Writing(fd, p, d, done) =>
      var s' := SetCur(s, Cur(s).(waitPipe := 0));
      if p in s.pipes && done <= |d| then PipeWrite(s', fd, p, d, done, ints) else Segment(s, false, NoReply)
    case Waiting(pid) => Waitpid(s, pid)
    case _ => Segment(s, false, NoReply)
  }

  ghost function Run(s: State, c: Cmd): Segment
    requires Shaped(s)
  {
    match c
    case Enter(call, preempt) =>
      if Cur(s).at != User then Segment(s, false, NoReply)
      else
        var d := Deliver(s);
        if d.switches then d
        else if preempt then Segment(SetCur(d.s, Cur(d.s).(at := Entered(call))), true, NoReply)
        else Body(d.s, call, [])
    case Resume(ints, late) =>
      var g := Continue(s, ints);
      g.(s := RaiseSigint(g.s, late))
    case Fault => if Cur(s).at == User then Exit(s, 0 - SIGSEGV) else Segment(s, false, NoReply)
    case Sigint(group) => Segment(RaiseSigint(s, group), false, NoReply)
    case Nudge(i) =>
      if i < |s.tasks| then Segment(SetTask(s, i, Wake(s.tasks[i])), false, NoReply) else Segment(s, false, NoReply)
    case IdleTick => Segment(s, Cur(s).at == Idling, NoReply)
  }

  ghost function Step(s: State, c: Cmd): State
    requires Shaped(s)
  {
    var g := Run(s, c);
    if g.switches && g.s.current < |g.s.tasks| then Yield(g.s) else g.s
  }
}

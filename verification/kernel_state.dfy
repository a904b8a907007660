/** The scheduler, the wait queues and the process lifecycle as a step machine
    (kernel/core/sched.c, wait.c, task_table.c, syscall.c, and the input half of tty.c).

    A step runs from one return of sched_schedule to the next call of it that switches
    tasks, or is a keyboard interrupt in between.  The kernel stack of a suspended task is
    its continuation.  All functions are total on `Kernel`; which states are reached is
    the business of KernelInvariant. */
module KernelState {
  import opened Seqs
  import opened OpenFileTable

  const SWAPPER: Slot := 0
  const INIT: Slot := 1
  const NONE := -1
  const TTY_COUNT := 12
  const TTY_INPUT_BUF_SIZE := 256
  const MAX_SIGNALS := 32
  const WNOHANG := 1
  /** MAX_GENERATION + 1, where MAX_GENERATION is INT_MAX / 64. */
  const GENERATIONS := 33554432

  const ENOENT := 2
  const EINTR := 4
  const ECHILD := 10
  const ENOMEM := 12
  const EINVAL := 22

  type Slot = TaskSlot
  type SlotOrNone = n: int | NONE <= n < MAX_PROCESS_CNT
  type Tty = n: nat | n < TTY_COUNT

  datatype State = Pooled | Queued | Running | Interruptible | Uninterruptible | Zombie

  datatype ExecResult = NotFound | LoadFailed | Loaded

  datatype Call =
    | Yield                                // sched_yield, and every call that yields first and then
                                           // touches nothing this model has
    | Nop                                  // nice: no yield either
    | Read(tty: Tty, count: nat)           // read of a terminal
    | Open(lookup: Lookup)
    | OpenStd(lookup: Lookup)              // the three opens of the trampoline, which do not yield
    | Close(fd: int)
    | Chdir(lookup: Lookup, listed: int)   // `listed` is what getdents answers
    | Fork
    | Exec(result: ExecResult)
    | Exit(status: int)
    | WaitPid(pid: int, options: int)
    | Kill(pid: int, sig: int)

  /** What a task inside wait_event waits for. */
  datatype Wait = ForChild(child: Slot) | ForAnyChild | ForInput(tty: Tty, count: nat)

  /** The suspended part of a task's system call. */
  datatype Cont =
    | User                     // none: the task is in user mode
    | Yielded(call: Call)      // in the sched_schedule at the head of the dispatcher
    | ReadAgain(tty: Tty, count: nat)  // in the second sched_schedule, that of vfs_read
    | Sleep(wait: Wait)        // in the sched_schedule of wait_event

  datatype Queue = ExitOf(task: Slot) | ChildOf(task: Slot) | InputOf(tty: Tty)

  datatype Task = Task(
    state: State,
    pid: int,
    parent: SlotOrNone,
    children: seq<Slot>,
    exitStatus: int,
    pending: set<int>,
    cont: Cont,
    ret: int,                  // result of the last completed system call
    inst: nat                  // which allocation of the slot this is, counted from 0
  )

  /** A process over the whole run: a slot and the number of its allocation. */
  datatype Process = Process(slot: Slot, inst: nat)

  datatype Event =
    | Forked(parent: Process, child: Process)
    | Exited(process: Process, status: int)
    | Reaped(waiter: Process, child: Process, status: int, pid: int)

  datatype RawKernel = RawKernel(
    tasks: seq<Task>,
    current: SlotOrNone,
    runq: seq<Slot>,
    waitq: map<Queue, seq<Slot>>,
    free: seq<Slot>,           // the task table's ring of free slots
    allocs: seq<nat>,          // how often each slot has been allocated
    files: FileTable,
    input: seq<seq<char>>,     // the input ring of each terminal
    active: Tty,
    ticks: nat,                // calls of sched_schedule
    trace: seq<Event>
  )

  /** What a step writes into the memory of the task that makes it: nothing, an exit status,
      or bytes from a terminal. */
  datatype Output = Silent | Status(value: int) | Bytes(tty: Tty, bytes: seq<char>)

  type Kernel = k: RawKernel |
      |k.tasks| == MAX_PROCESS_CNT && |k.allocs| == MAX_PROCESS_CNT && |k.input| == TTY_COUNT
    witness RawKernel(
              seq(MAX_PROCESS_CNT, _ => Task(Pooled, -1, NONE, [], 0, {}, User, 0, 0)), NONE, [], map[], [],
              seq(MAX_PROCESS_CNT, _ => 0), OpenFileTable.Initial(), seq(TTY_COUNT, _ => []), 0, 0, [])

  // ---------------- small accessors and updates ----------------

  predicate Asleep(t: Task) {
    t.state == Interruptible || t.state == Uninterruptible
  }

  function Put(s: Kernel, t: Slot, task: Task): Kernel {
    s.(tasks := s.tasks[t := task])
  }

  function Waiters(s: Kernel, q: Queue): seq<Slot> {
    if q in s.waitq then s.waitq[q] else []
  }

  function SetWaiters(s: Kernel, q: Queue, ts: seq<Slot>): Kernel {
    s.(waitq := s.waitq[q := ts])
  }

  function QueueOf(t: Slot, w: Wait): Queue {
    match w
    case ForChild(c) => ExitOf(c)
    case ForAnyChild => ChildOf(t)
    case ForInput(y, _) => InputOf(y)
  }

  /** The current task returns to user mode with result `r`. */
  function Return(s: Kernel, r: int): Kernel
    requires s.current != NONE
  {
    Put(s, s.current, s.tasks[s.current].(cont := User, ret := r))
  }

  function Suspend(s: Kernel, c: Cont): Kernel
    requires s.current != NONE
  {
    Put(s, s.current, s.tasks[s.current].(cont := c))
  }

  function ProcessAt(s: Kernel, t: Slot): Process {
    Process(t, s.tasks[t].inst)
  }

  /** The pid that allocation number `n` of slot `t` gets. */
  function PidOf(t: Slot, n: nat): int {
    (n % GENERATIONS) * MAX_PROCESS_CNT + t
  }

  // ---------------- run queue and scheduler ----------------

  function Enqueue(s: Kernel, t: Slot): Kernel {
    s.(runq := s.runq + [t])
  }

  /** run_queue_poll, counted as a call of sched_schedule. */
  function Polled(s: Kernel): Kernel {
    s.(runq := if s.runq == [] then [] else s.runq[1..], ticks := s.ticks + 1)
  }

  function Schedule(s: Kernel): Kernel {
    SwitchTo(Polled(s), if s.runq == [] then SWAPPER else s.runq[0])
  }

  /** sched_schedule after the poll has come up with `next`. */
  function SwitchTo(s: Kernel, next: Slot): Kernel {
    if s.current != NONE && next == SWAPPER && s.tasks[s.current].state == Running then s
    else
      var left := Left(s);
      Put(left, next, left.tasks[next].(state := Running)).(current := next)
  }

  /** A task that leaves the processor awake is queued again, unless it is the swapper. */
  function Left(s: Kernel): Kernel {
    var prev := s.current;
    if prev == NONE || Asleep(s.tasks[prev]) then s
    else
      var queued := Put(s, prev, s.tasks[prev].(state := Queued));
      if prev == SWAPPER then queued else Enqueue(queued, prev)
  }

  // ---------------- wait queues ----------------

  /** The sleeping tasks among the first `n` of `ts`, in order. */
  function Sleepers(tasks: seq<Task>, ts: seq<Slot>, n: nat): seq<Slot>
    requires |tasks| == MAX_PROCESS_CNT && n <= |ts|
  {
    if n == 0 then [] else Sleepers(tasks, ts, n - 1) + if Asleep(tasks[ts[n - 1]]) then [ts[n - 1]] else []
  }

  function Wakeup(s: Kernel, q: Queue): Kernel {
    SetWaiters(s.(runq := s.runq + Sleepers(s.tasks, Waiters(s, q), |Waiters(s, q)|)), q, [])
  }

  function FindZombie(tasks: seq<Task>, ts: seq<Slot>): (r: SlotOrNone)
    requires |tasks| == MAX_PROCESS_CNT
    ensures r == NONE <==> forall t :: t in ts ==> tasks[t].state != Zombie
    ensures r != NONE ==> r in ts && tasks[r].state == Zombie
  {
    if ts == [] then NONE else if tasks[ts[0]].state == Zombie then ts[0] else FindZombie(tasks, ts[1..])
  }

  function FindPid(tasks: seq<Task>, ts: seq<Slot>, pid: int): (r: SlotOrNone)
    requires |tasks| == MAX_PROCESS_CNT
    ensures r == NONE <==> forall t :: t in ts ==> tasks[t].pid != pid
    ensures r != NONE ==> r in ts && tasks[r].pid == pid
  {
    if ts == [] then NONE else if tasks[ts[0]].pid == pid then ts[0] else FindPid(tasks, ts[1..], pid)
  }

  /** FindZombie gives the first dead one of the list ... */
  lemma {:induction false} FirstZombie(tasks: seq<Task>, ts: seq<Slot>, i: nat)
    requires |tasks| == MAX_PROCESS_CNT && i < |ts| && tasks[ts[i]].state == Zombie
    requires forall j :: 0 <= j < i ==> tasks[ts[j]].state != Zombie
    ensures FindZombie(tasks, ts) == ts[i]
  {
    if i > 0 {
      assert tasks[ts[0]].state != Zombie;
      FirstZombie(tasks, ts[1..], i - 1);
    }
  }

  /** ... and FindPid the first one with the pid. */
  lemma {:induction false} FirstPid(tasks: seq<Task>, ts: seq<Slot>, pid: int, i: nat)
    requires |tasks| == MAX_PROCESS_CNT && i < |ts| && tasks[ts[i]].pid == pid
    requires forall j :: 0 <= j < i ==> tasks[ts[j]].pid != pid
    ensures FindPid(tasks, ts, pid) == ts[i]
  {
    if i > 0 {
      assert tasks[ts[0]].pid != pid;
      FirstPid(tasks, ts[1..], pid, i - 1);
    }
  }

  /** The condition that wait_event is given. */
  predicate Holds(s: Kernel, t: Slot, w: Wait) {
    match w
    case ForChild(c) => s.tasks[c].state == Zombie
    case ForAnyChild => FindZombie(s.tasks, s.tasks[t].children) != NONE
    case ForInput(y, _) => s.input[y] != []
  }

  /** The loop head of wait_event: go on if the condition holds, else sleep. */
  function WaitLoop(s: Kernel, w: Wait): Kernel
    requires s.current != NONE
  {
    if Holds(s, s.current, w) then AfterWait(s, w)
    else
      var q := QueueOf(s.current, w);
      var asleep := Put(s, s.current, s.tasks[s.current].(state := Interruptible, cont := Sleep(w)));
      Schedule(SetWaiters(asleep, q, Waiters(s, q) + [s.current]))
  }

  /** wait_event after its sched_schedule returned: leave the queue, die of a pending
      signal, or test again. */
  function ResumeWait(s: Kernel, w: Wait): Kernel
    requires s.current != NONE
  {
    var q := QueueOf(s.current, w);
    var left := SetWaiters(s, q, Without<Slot>(Waiters(s, q), s.current));
    if s.tasks[s.current].pending != {} then DoExit(left, -1) else WaitLoop(left, w)
  }

  /** What follows wait_event in sched_waitpid and tty_read. */
  function AfterWait(s: Kernel, w: Wait): Kernel
    requires s.current != NONE
  {
    match w
    case ForChild(c) => if s.tasks[c].state != Zombie then Return(s, -EINTR) else Reap(s, c)
    case ForAnyChild =>
      var c := FindZombie(s.tasks, s.tasks[s.current].children);
      if c == NONE then Return(s, -EINTR) else Reap(s, c)
    case ForInput(y, count) =>
      var n := if |s.input[y]| > count then count else |s.input[y]|;
      Return(s.(input := s.input[y := s.input[y][n..]]), n)
  }

  // ---------------- process lifecycle ----------------

  /** The tail of sched_waitpid: unlink the zombie and free its slot. */
  function Reap(s: Kernel, c: Slot): Kernel
    requires s.current != NONE
  {
    var t := s.current;
    var child := s.tasks[c];
    var event := Reaped(ProcessAt(s, t), ProcessAt(s, c), child.exitStatus, child.pid);
    var unlinked := Put(s, t, s.tasks[t].(children := Without<Slot>(s.tasks[t].children, c)));
    var freed := Put(unlinked, c, unlinked.tasks[c].(state := Pooled, pid := -1, children := [], parent := NONE));
    Return(freed.(free := s.free + [c], trace := s.trace + [event]), child.pid)
  }

  function DoExit(s: Kernel, status: int): Kernel
    requires s.current != NONE
  {
    var t := s.current;
    var dead := Put(s, t, s.tasks[t].(exitStatus := status, state := Zombie))
      .(files := CloseFrom(s.files, t, 0), trace := s.trace + [Exited(ProcessAt(s, t), status)]);
    var woken := Wakeup(dead, ExitOf(t));
    var parent := s.tasks[t].parent;
    var notified := if parent == t || parent == NONE then woken else Wakeup(woken, ChildOf(parent));
    Schedule(notified.(current := NONE))
  }

  /** task_table_alloc of a slot that is there. */
  function Allocated(s: Kernel): Kernel
    requires s.free != []
  {
    var c := s.free[0];
    Put(s, c, s.tasks[c].(pid := PidOf(c, s.allocs[c])))
      .(free := s.free[1..], allocs := s.allocs[c := s.allocs[c] + 1])
  }

  function DoFork(s: Kernel): Kernel
    requires s.current != NONE
  {
    if s.free == [] then Return(s, -ENOMEM)
    else
      var t, c := s.current, s.free[0];
      var pid := PidOf(c, s.allocs[c]);
      var born := Put(Allocated(s), c, Task(Queued, pid, t, s.tasks[c].children, 0, {}, User, 0, s.allocs[c]));
      var linked := Put(born, t, born.tasks[t].(children := [c] + born.tasks[t].children));
      var inited := SetWaiters(SetWaiters(linked, ExitOf(c), []), ChildOf(c), []);
      var event := Forked(ProcessAt(s, t), Process(c, s.allocs[c]));
      Return(Enqueue(inited.(trace := s.trace + [event]), c), pid)
  }

  function DoExec(s: Kernel, result: ExecResult): Kernel
    requires s.current != NONE
  {
    match result
    case NotFound => Return(s, -ENOENT)
    case LoadFailed => DoExit(s, -1)
    case Loaded =>
      var t := s.current;
      var reset := Put(s, t, s.tasks[t].(pending := {}, state := Queued, cont := User));
      Schedule(Enqueue(reset, t).(current := NONE))
  }

  function DoWaitPid(s: Kernel, pid: int, options: int): Kernel
    requires s.current != NONE
  {
    var children := s.tasks[s.current].children;
    if options != 0 && options != WNOHANG then Return(s, -EINVAL)
    else if pid > 0 then
      var c := FindPid(s.tasks, children, pid);
      if c == NONE then Return(s, -ECHILD)
      else if s.tasks[c].state == Zombie then Reap(s, c)
      else if options == WNOHANG then Return(s, 0)
      else WaitLoop(s, ForChild(c))
    else if pid == -1 then
      var c := FindZombie(s.tasks, children);
      if c != NONE then Reap(s, c)
      else if children == [] then Return(s, -ECHILD)
      else if options == WNOHANG then Return(s, 0)
      else WaitLoop(s, ForAnyChild)
    else Return(s, -EINVAL)
  }

  // What sched_waitpid writes through its status pointer, and tty_read into its buffer,
  // before and after the wait_event.

  function WaitOutput(s: Kernel, w: Wait): Output
    requires s.current != NONE
  {
    if !Holds(s, s.current, w) then Silent
    else
      match w
      case ForChild(c) => Status(s.tasks[c].exitStatus)
      case ForAnyChild => Status(s.tasks[FindZombie(s.tasks, s.tasks[s.current].children)].exitStatus)
      case ForInput(y, count) => Bytes(y, if |s.input[y]| > count then s.input[y][..count] else s.input[y])
  }

  function ResumeOutput(s: Kernel, w: Wait): Output
    requires s.current != NONE
  {
    if s.tasks[s.current].pending != {} then Silent else WaitOutput(s, w)
  }

  function WaitPidOutput(s: Kernel, pid: int, options: int): Output
    requires s.current != NONE
  {
    var c := FindPid(s.tasks, s.tasks[s.current].children, pid);
    if options != 0 && options != WNOHANG then Silent
    else if pid > 0 then (if c == NONE then Silent else WaitOutput(s, ForChild(c)))
    else if pid == -1 then WaitOutput(s, ForAnyChild)
    else Silent
  }

  /** task_table_find_task_by_pid. */
  function Find(s: Kernel, pid: int): SlotOrNone {
    if pid < 0 then NONE
    else if s.tasks[pid % MAX_PROCESS_CNT].pid == pid then pid % MAX_PROCESS_CNT
    else NONE
  }

  function DoKill(s: Kernel, pid: int, sig: int): Kernel
    requires s.current != NONE
  {
    if sig <= 0 || sig > MAX_SIGNALS then Return(s, -1)
    else
      var t := Find(s, pid);
      if t == NONE then Return(s, -1)
      else
        var marked := Put(s, t, s.tasks[t].(pending := s.tasks[t].pending + {sig}));
        Return(if s.tasks[t].state == Interruptible then Enqueue(marked, t) else marked, 0)
  }

  // ---------------- the dispatcher ----------------

  /** The calls whose dispatcher case starts with sched_schedule. */
  predicate YieldsFirst(call: Call) {
    call.Yield? || call.Read? || call.Open? || call.Close? || call.Chdir?
  }

  /** The calls that only concern the caller's result and its open files. */
  predicate IsPlain(call: Call) {
    call.Yield? || call.Nop? || call.Open? || call.OpenStd? || call.Close? || call.Chdir?
  }

  function PlainBody(s: Kernel, call: Call): Kernel
    requires s.current != NONE && IsPlain(call)
  {
    match call
    case Open(lookup) =>
      var (files, fd) := OpenFileTable.Open(s.files, s.current, lookup);
      Return(s.(files := files), fd)
    case OpenStd(lookup) =>
      var (files, fd) := OpenFileTable.Open(s.files, s.current, lookup);
      Return(s.(files := files), fd)
    case Close(fd) =>
      var (files, r) := OpenFileTable.Close(s.files, s.current, fd);
      Return(s.(files := files), r)
    case Chdir(lookup, listed) =>
      var (files, fd) := OpenFileTable.Open(s.files, s.current, lookup);
      Return(s.(files := OpenFileTable.Close(files, s.current, fd).0), if fd < 0 then fd else if listed < 0 then listed else 0)
    case _ => Return(s, 0)
  }

  function Body(s: Kernel, call: Call): Kernel
    requires s.current != NONE
  {
    match call
    case Read(y, count) => Schedule(Suspend(s, ReadAgain(y, count)))
    case Fork => DoFork(s)
    case Exec(result) => DoExec(s, result)
    case Exit(status) => DoExit(s, status)
    case WaitPid(pid, options) => DoWaitPid(s, pid, options)
    case Kill(pid, sig) => DoKill(s, pid, sig)
    case _ => PlainBody(s, call)
  }

  /** One system call up to its first switch. */
  function Enter(s: Kernel, call: Call): Kernel
    requires s.current != NONE
  {
    if YieldsFirst(call) then Schedule(Suspend(s, Yielded(call))) else Body(s, call)
  }

  /** The current task goes on inside the kernel. */
  function Continue(s: Kernel): Kernel
    requires s.current != NONE
  {
    match s.tasks[s.current].cont
    case User => s
    case Yielded(call) => Body(s, call)
    case ReadAgain(y, count) => if count == 0 then Return(s, 0) else WaitLoop(s, ForInput(y, count))
    case Sleep(w) => ResumeWait(s, w)
  }

  /** tty_input_put on the active terminal, from the keyboard interrupt. */
  function KeyPress(s: Kernel, c: char): Kernel {
    var y := s.active;
    if |s.input[y]| >= TTY_INPUT_BUF_SIZE then s
    else Wakeup(s.(input := s.input[y := s.input[y] + [c]]), InputOf(y))
  }

  datatype Label = Syscall(call: Call) | Resume | Key(c: char) | Activate(tty: Tty)

  /** What the task with the processor may ask for.  The swapper's trampoline opens three
      files (arch/x86/sched.asm), and its program only yields (bin/swapper.c). */
  predicate MayCall(s: Kernel, call: Call) {
    s.current == SWAPPER ==> call == Yield || call.OpenStd?
  }

  /** Which labels a state offers. */
  predicate Enabled(s: Kernel, l: Label) {
    match l
    case Syscall(call) => s.current != NONE && s.tasks[s.current].cont == User && MayCall(s, call)
    case Resume => s.current != NONE && s.tasks[s.current].cont != User
    case Key(_) => true
    case Activate(_) => true
  }

  function Step(s: Kernel, l: Label): Kernel
    requires Enabled(s, l)
  {
    match l
    case Syscall(call) => Enter(s, call)
    case Resume => Continue(s)
    case Key(c) => KeyPress(s, c)
    case Activate(y) => s.(active := y)
  }

  function CallOutput(s: Kernel, call: Call): Output
    requires s.current != NONE
  {
    if call.WaitPid? then WaitPidOutput(s, call.pid, call.options) else Silent
  }

  function ContinueOutput(s: Kernel): Output
    requires s.current != NONE
  {
    match s.tasks[s.current].cont
    case ReadAgain(y, count) => if count == 0 then Silent else WaitOutput(s, ForInput(y, count))
    case Sleep(w) => ResumeOutput(s, w)
    case Yielded(call) => CallOutput(s, call)
    case User => Silent
  }

  /** What a step writes for the task that makes it. */
  function OutputOf(s: Kernel, l: Label): Output
    requires Enabled(s, l)
  {
    match l
    case Syscall(call) => if YieldsFirst(call) then Silent else CallOutput(s, call)
    case Resume => ContinueOutput(s)
    case Key(_) => Silent
    case Activate(_) => Silent
  }

  // ---------------- boot ----------------

  const UNUSED := Task(Pooled, -1, NONE, [], 0, {}, User, 0, 0)

  /** The storage before sched_init: nothing has been allocated. */
  function Zeroed(): Kernel {
    RawKernel(
      seq(MAX_PROCESS_CNT, _ => UNUSED), NONE, [], map[], seq(MAX_PROCESS_CNT, i => i), seq(MAX_PROCESS_CNT, _ => 0),
      OpenFileTable.Initial(), seq(TTY_COUNT, _ => []), 0, 0, [])
  }

  /** The first two allocations: the swapper and init are their own parents. */
  function BootTask(t: Slot): Task {
    Task(Queued, t, t, [], 0, {}, User, 0, 0)
  }

  /** sched_init and sched_kernel_exec of init, before kmain's sched_schedule. */
  function Loaded0(): Kernel {
    RawKernel(
      seq(MAX_PROCESS_CNT, i => if i == SWAPPER || i == INIT then BootTask(i) else UNUSED),
      NONE,
      [INIT],
      map[],
      seq(MAX_PROCESS_CNT - 2, i => i + 2),
      seq(MAX_PROCESS_CNT, i => if i < 2 then 1 else 0),
      OpenFileTable.Initial(),
      seq(TTY_COUNT, _ => []),
      0,
      0,
      [])
  }

  function Boot(): Kernel {
    Schedule(Loaded0())
  }
}

/** The states inside a step of the machine, in the order in which the objects reach them. */
module KernelStages {
  import opened Seqs
  import opened OpenFileTable
  import opened KernelState
  import KernelInvariant
  import KernelRuns

  // The lemmas with a result give a name to the state after a step together with what the
  // methods need to know of it, so that the step function itself need not be unfolded there.

  // ---------------- lists of children ----------------

  /** The slot behind place `j` of a list. */
  function NextSlot(ts: seq<Slot>, j: nat): SlotOrNone {
    if j + 1 < |ts| then ts[j + 1] else NONE
  }

  /** Where the task at place `j` of the shorter list was in the longer one, and what is
      behind it now. */
  lemma NextInRest(kids: seq<Slot>, i: nat, rest: seq<Slot>, j: nat) returns (at: nat)
    requires Distinct(kids) && i < |kids| == |rest| + 1 && j < |rest|
    requires forall m {:trigger rest[m]} :: 0 <= m < |rest| ==> rest[m] == if m < i then kids[m] else kids[m + 1]
    ensures at < |kids| && kids[at] == rest[j]
    ensures NextSlot(rest, j) == if i > 0 && rest[j] == kids[i - 1] then NextSlot(kids, i) else NextSlot(kids, at)
  {
    at := if j < i then j else j + 1;
  }

  /** `rest` is `kids` without the one at place `i`. */
  lemma CutIndices(kids: seq<Slot>, i: nat, rest: seq<Slot>)
    requires Distinct(kids) && i < |kids| && rest == Without<Slot>(kids, kids[i])
    ensures |rest| == |kids| - 1
    ensures forall j {:trigger rest[j]} :: 0 <= j < |rest| ==> rest[j] == if j < i then kids[j] else kids[j + 1]
  {
    WithoutAt(kids, i);
    forall j: nat {:trigger rest[j]} | j < |rest| ensures rest[j] == if j < i then kids[j] else kids[j + 1] {
      CutAt(kids, i, j);
    }
  }

  // ---------------- waitpid, kill ----------------

  /** sched_waitpid for a child that has been found. */
  function ChildFound(s: Kernel, c: Slot, options: int): Kernel
    requires s.current != NONE
  {
    if s.tasks[c].state == Zombie then Reap(s, c)
    else if options == WNOHANG then Return(s, 0)
    else WaitLoop(s, ForChild(c))
  }

  /** sched_waitpid for any child, when none is dead. */
  function NoneDead(s: Kernel, options: int): Kernel
    requires s.current != NONE
  {
    if s.tasks[s.current].children == [] then Return(s, -ECHILD)
    else if options == WNOHANG then Return(s, 0)
    else WaitLoop(s, ForAnyChild)
  }

  /** The cases of sched_waitpid after its arguments have been looked at. */
  lemma WaitPidCases(s: Kernel, pid: int, options: int) returns (after: Kernel, told: Output)
    requires s.current != NONE
    ensures after == DoWaitPid(s, pid, options) && told == WaitPidOutput(s, pid, options)
    ensures (options != 0 && options != WNOHANG) || (pid <= 0 && pid != -1) ==> after == Return(s, -EINVAL) && told == Silent
    ensures options in {0, WNOHANG} && pid == -1 ==>
      var z := FindZombie(s.tasks, s.tasks[s.current].children);
      && (z != NONE ==> after == Reap(s, z) && told == Status(s.tasks[z].exitStatus))
      && (z == NONE ==> after == NoneDead(s, options) && told == Silent)
    ensures options in {0, WNOHANG} && pid > 0 ==>
      var c := FindPid(s.tasks, s.tasks[s.current].children, pid);
      && (c == NONE ==> after == Return(s, -ECHILD) && told == Silent)
      && (c != NONE ==> after == ChildFound(s, c, options) && told == WaitOutput(s, ForChild(c)))
  {
    after, told := DoWaitPid(s, pid, options), WaitPidOutput(s, pid, options);
  }

  /** wait_event after its sched_schedule returned. */
  lemma ResumeCases(s: Kernel, w: Wait) returns (left: Kernel, after: Kernel, told: Output)
    requires s.current != NONE
    ensures left == SetWaiters(s, QueueOf(s.current, w), Without<Slot>(Waiters(s, QueueOf(s.current, w)), s.current))
    ensures after == ResumeWait(s, w) && told == ResumeOutput(s, w)
    ensures s.tasks[s.current].pending != {} ==> after == DoExit(left, -1) && told == Silent
    ensures s.tasks[s.current].pending == {} ==> after == WaitLoop(left, w) && told == WaitOutput(left, w)
  {
    left := SetWaiters(s, QueueOf(s.current, w), Without<Slot>(Waiters(s, QueueOf(s.current, w)), s.current));
    after, told := ResumeWait(s, w), ResumeOutput(s, w);
    assert Holds(left, s.current, w) == Holds(s, s.current, w);
  }

  /** sched_kill of a task that is there. */
  function Killed(s: Kernel, t: Slot, sig: int): Kernel
    requires s.current != NONE
  {
    var marked := Put(s, t, s.tasks[t].(pending := s.tasks[t].pending + {sig}));
    Return(if s.tasks[t].state == Interruptible then Enqueue(marked, t) else marked, 0)
  }

  // ---------------- fork, exit, execve, boot ----------------

  /** The kernel right after a child of `t` has been allocated and filled in. */
  function Born(s: Kernel, t: Slot): Kernel
    requires s.free != []
  {
    var c := s.free[0];
    Put(Allocated(s), c, Task(Queued, PidOf(c, s.allocs[c]), t, s.tasks[c].children, 0, {}, User, 0, s.allocs[c]))
  }

  /** The swapper is born in slot 0, init in slot 1. */
  lemma BornTwice()
    ensures var first := Born(Zeroed(), SWAPPER);
      && first.free[0] == INIT && first.tasks[INIT] == UNUSED && first.waitq == map[]
      && (forall p: Slot :: first.tasks[p].children == [])
      && Enqueue(Born(first, INIT), INIT) == Loaded0()
  {
    var first := Born(Zeroed(), SWAPPER);
    var second := Born(first, INIT);
    assert second.tasks == Loaded0().tasks;
    assert second.free == Loaded0().free;
    assert second.allocs == Loaded0().allocs;
  }

  /** The burial in the order of sched_exit. */
  lemma BuryOf(s: Kernel, status: int) returns (r: Kernel)
    requires s.current != NONE && s.tasks[s.current].parent != NONE
    ensures r == KernelInvariant.Bury(s, status)
    ensures var t, parent := s.current, s.tasks[s.current].parent;
      var dead := Put(s, t, s.tasks[t].(exitStatus := status, state := Zombie))
        .(files := CloseFrom(s.files, t, 0), trace := s.trace + [Exited(ProcessAt(s, t), status)]);
      var woken := Wakeup(dead, ExitOf(t));
      r == (if parent == t then woken else Wakeup(woken, ChildOf(parent))).(current := NONE)
  {
    r := KernelInvariant.Bury(s, status);
  }

  lemma LoadedOf(s: Kernel) returns (r: Kernel)
    requires s.current != NONE
    ensures r == DoExec(s, Loaded)
    ensures var t := s.current;
      r == Schedule(Enqueue(Put(s, t, s.tasks[t].(pending := {}, state := Queued, cont := User)), t).(current := NONE))
  {
    r := DoExec(s, Loaded);
  }

  lemma LifecycleOf(s: Kernel, call: Call) returns (r: Kernel)
    requires s.current != NONE && (call.Fork? || call.Exec? || call.Exit? || call.WaitPid?)
    ensures r == Body(s, call)
    ensures call.Fork? ==> r == DoFork(s)
    ensures call.Exec? ==> r == DoExec(s, call.result)
    ensures call.Exit? ==> r == DoExit(s, call.status)
    ensures call.WaitPid? ==> r == DoWaitPid(s, call.pid, call.options)
  {
    r := Body(s, call);
  }

  lemma ChdirOf(s: Kernel, lookup: Lookup, listed: int) returns (r: Kernel)
    requires s.current != NONE
    ensures r == PlainBody(s, Chdir(lookup, listed))
    ensures var (mid, fd) := OpenFileTable.Open(s.files, s.current, lookup);
      r == Return(s.(files := OpenFileTable.Close(mid, s.current, fd).0), if fd < 0 then fd else if listed < 0 then listed else 0)
  {
    r := PlainBody(s, Chdir(lookup, listed));
  }

  lemma ChdirAnswers(s: Kernel, lookup: Lookup, listed: int)
    requires s.current != NONE && s.tasks[s.current].cont == Yielded(Chdir(lookup, listed))
    ensures Step(s, Resume) == PlainBody(s, Chdir(lookup, listed))
  {
  }

  /** The kernel after newborn `c` has joined the children of `t`. */
  function Adopted(s: Kernel, t: Slot, c: Slot): Kernel {
    SetWaiters(SetWaiters(Put(s, t, s.tasks[t].(children := [c] + s.tasks[t].children)), ExitOf(c), []), ChildOf(c), [])
  }

  /** ... and has been reported and queued, and the parent has its result. */
  function Raised(s: Kernel, t: Slot, c: Slot): Kernel
    requires s.current != NONE
  {
    var adopted := Adopted(s, t, c);
    Return(Enqueue(adopted.(trace := s.trace + [Forked(ProcessAt(s, t), ProcessAt(s, c))]), c), adopted.tasks[c].pid)
  }

  /** sched_fork as its parts. */
  lemma ForkIsAdoption(s: Kernel)
    requires s.current != NONE && s.free != [] && s.free[0] != s.current
    ensures DoFork(s) == Raised(Born(s, s.current), s.current, s.free[0])
  {
  }

  /** Nobody has the first free slot as a child, and nobody waits in its queues. */
  lemma FreshSlot(s: Kernel)
    requires KernelInvariant.Inv(s) && s.free != []
    ensures var c := s.free[0];
      && c != s.current && c !in s.runq && Waiters(s, ExitOf(c)) == [] && Waiters(s, ChildOf(c)) == []
      && forall p: Slot :: c !in s.tasks[p].children
  {
    var c := s.free[0];
    assert c in s.free;
    KernelRuns.PooledQueuesEmpty(s, c);
    assert KernelInvariant.TaskOk(s, s.current);
    forall p: Slot ensures c !in s.tasks[p].children {
      forall i | 0 <= i < |s.tasks[p].children| ensures s.tasks[p].children[i] != c {
        assert KernelInvariant.ChildOk(s, p, s.tasks[p].children[i]);
      }
    }
  }
}

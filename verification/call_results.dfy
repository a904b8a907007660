/** What the system calls return and do, one statement for each outcome, with the numbers
    that the kernel uses (kernel/core/syscall.c, sched.c, wait.c, tty.c, fs/vfs.c). */
module CallResults {
  import opened Seqs
  import opened OpenFileTable
  import opened KernelState
  import opened KernelInvariant
  import opened KernelRuns
  import KernelStages
  import Reaping
  import TaskTables

  /** The current task is back in user mode with result `n`, and nothing else changed. */
  predicate Answers(s: Kernel, r: Kernel, n: int) {
    && s.current != NONE
    && r == s.(tasks := s.tasks[s.current := s.tasks[s.current].(cont := User, ret := n)])
  }

  /** The task that runs when the current one lets go of the processor. */
  function NextUp(s: Kernel): Slot {
    if s.runq == [] then 0 else s.runq[0]
  }

  // ---------------- yielding ----------------

  /** The processor goes from the current task, which stays runnable, to the head of the run
      queue. */
  ghost predicate HandsOn(s: Kernel, r: Kernel)
    requires s.current != NONE
  {
    if s.runq == [] then r == s.(ticks := s.ticks + 1)
    else
      var next, t := s.runq[0], s.current;
      && r.tasks == s.tasks[t := s.tasks[t].(state := Queued)][next := s.tasks[next].(state := Running)]
      && r == s.(tasks := r.tasks, current := next, ticks := s.ticks + 1,
                 runq := s.runq[1..] + if t == 0 then [] else [t])
  }

  lemma ScheduleHandsOn(s: Kernel)
    requires Inv(s)
    ensures HandsOn(s, Schedule(s))
  {
    ScheduleOk(s);
    RunningIsUnqueued(s);
    if s.runq != [] {
      assert s.runq[0] in s.runq;
      assert (s.runq + [s.current])[1..] == s.runq[1..] + [s.current];
      assert s.runq[1..] + [] == s.runq[1..];
    }
  }

  /** These calls let the other queued tasks run before they do anything. */
  lemma YieldingCall(s: Kernel, call: Call)
    requires Inv(s) && Enabled(s, Syscall(call))
    requires call == Yield || call.Read? || call.Open? || call.Close? || call.Chdir?
    ensures HandsOn(s.(tasks := s.tasks[s.current := s.tasks[s.current].(cont := Yielded(call))]), Step(s, Syscall(call)))
  {
    assert TaskOk(s, s.current);
    TouchOk(s, s.current, s.tasks[s.current].(cont := Yielded(call)));
    ScheduleHandsOn(Suspend(s, Yielded(call)));
  }

  /** A read lets them run a second time before it looks at the terminal. */
  lemma ReadYieldsAgain(s: Kernel, y: Tty, count: nat)
    requires Inv(s) && s.tasks[s.current].cont == Yielded(Read(y, count))
    ensures HandsOn(s.(tasks := s.tasks[s.current := s.tasks[s.current].(cont := ReadAgain(y, count))]), Step(s, Resume))
  {
    assert TaskOk(s, s.current);
    TouchOk(s, s.current, s.tasks[s.current].(cont := ReadAgain(y, count)));
    ScheduleHandsOn(Suspend(s, ReadAgain(y, count)));
  }

  /** Calls without an effect on what is modelled return 0. */
  lemma CallsThatDoNothing(s: Kernel)
    requires s.current != NONE
    ensures Enabled(s, Syscall(Nop)) ==> Answers(s, Step(s, Syscall(Nop)), 0)
    ensures s.tasks[s.current].cont == Yielded(Yield) ==> Answers(s, Step(s, Resume), 0)
  {
  }

  // ---------------- fork ----------------

  /** Without a free slot fork returns -12 and does nothing. */
  lemma ForkRefused(s: Kernel)
    requires Enabled(s, Syscall(Fork)) && s.free == []
    ensures Answers(s, Step(s, Syscall(Fork)), -12)
  {
  }

  /** Otherwise the oldest free slot becomes a child that the parent can find by the pid it
      is told, which returns 0 in the child's user mode, and which waits at the end of the
      run queue without signals, children or open files. */
  lemma ForkGivesChild(s: Kernel)
    requires Inv(s) && Enabled(s, Syscall(Fork)) && s.free != []
    ensures var r, t, c := Step(s, Syscall(Fork)), s.current, s.free[0];
      && r.tasks[t].ret == r.tasks[c].pid > 0 && Find(r, r.tasks[t].ret) == c
      && r.tasks[c] == Task(Queued, r.tasks[c].pid, t, [], 0, {}, User, 0, s.allocs[c])
      && r.tasks[t] == s.tasks[t].(children := [c] + s.tasks[t].children, ret := r.tasks[t].ret)
      && (forall u: Slot :: u != t && u != c ==> r.tasks[u] == s.tasks[u] && s.tasks[u].pid != r.tasks[c].pid)
      && r.runq == s.runq + [c] && r.free == s.free[1..] && r.current == t && r.files == s.files && HoldsNone(r.files, c)
  {
    var c := s.free[0];
    assert c in s.free && TaskOk(s, s.current) && TaskOk(s, SWAPPER);
    ForkTasks(s);
    ForkOk(s);
    PidsDiffer(DoFork(s), c);
  }

  /** The pid of a live task is that of no other slot, and leads to it. */
  lemma PidsDiffer(s: Kernel, c: Slot)
    requires TableOk(s) && s.tasks[c].state != Pooled
    ensures s.tasks[c].pid >= 0 && s.tasks[c].pid % 64 == c && Find(s, s.tasks[c].pid) == c
    ensures forall u: Slot :: u != c ==> s.tasks[u].pid != s.tasks[c].pid
  {
    TaskTables.PidInRange(c, s.tasks[c].inst);
    forall u: Slot | s.tasks[u].state != Pooled && s.tasks[u].pid == s.tasks[c].pid ensures u == c {
      TaskTables.PidInRange(u, s.tasks[u].inst);
    }
  }

  // ---------------- exit and execve ----------------

  /** Whom an exit of the current task wakes: those who wait for its exit, and then its parent,
      if that waits for any child. */
  function WokenByDeath(s: Kernel): seq<Slot>
    requires s.current != NONE
  {
    var t, parent := s.current, s.tasks[s.current].parent;
    Waiters(s, ExitOf(t)) + if parent == t || parent == NONE then [] else Waiters(s, ChildOf(parent))
  }

  /** The current task is a zombie with this status and without open files, the woken are
      queued, and the head of the run queue runs. */
  ghost predicate Ends(s: Kernel, r: Kernel, status: int)
    requires s.current != NONE
  {
    var t, queue := s.current, s.runq + WokenByDeath(s);
    && r.current != NONE && (if queue == [] then r.current == 0 && r.runq == [] else [r.current] + r.runq == queue)
    && r.tasks == s.tasks[t := s.tasks[t].(state := Zombie, exitStatus := status)]
                         [r.current := s.tasks[r.current].(state := Running)]
    && HoldsNone(r.files, t) && OthersKept(s.files, r.files, t)
    && (forall q: Queue :: Waiters(r, q) == if WokenByExit(s, q) then [] else Waiters(s, q))
    && r == s.(tasks := r.tasks, current := r.current, runq := r.runq, waitq := r.waitq, files := r.files,
               ticks := s.ticks + 1, trace := s.trace + [Exited(ProcessAt(s, t), status)])
  }

  lemma OneWakeup(s: Kernel, r: Kernel, p: Queue)
    requires QueuesOk(s) && r == Wakeup(s, p)
    ensures r == s.(runq := s.runq + Waiters(s, p), waitq := r.waitq)
  {
    WakeupMoves(s, p);
  }

  lemma TwoWakeups(s: Kernel, one: Kernel, two: Kernel, p: Queue, q: Queue)
    requires QueuesOk(s) && (forall t: Slot :: TaskOk(s, t)) && p != q
    requires one == Wakeup(s, p) && two == Wakeup(one, q)
    ensures two == s.(runq := s.runq + (Waiters(s, p) + Waiters(s, q)), waitq := two.waitq)
  {
    OneWakeup(s, one, p);
    assert QueuesOk(one) && Waiters(one, q) == Waiters(s, q) by { WakeupQueuesOk(s, p); }
    OneWakeup(one, two, q);
    AppendTwice(s.runq, Waiters(s, p), Waiters(s, q));
  }

  lemma AppendTwice(a: seq<Slot>, b: seq<Slot>, c: seq<Slot>)
    ensures (a + b) + c == a + (b + c)
  {
  }

  lemma BuryQueues(s: Kernel, status: int)
    requires Inv(s) && s.current != 0
    ensures var b := Bury(s, status); b == Dead(s, status).(runq := s.runq + WokenByDeath(s), waitq := b.waitq)
  {
    var t, parent, dead := s.current, s.tasks[s.current].parent, Dead(s, status);
    DeadQueuesOk(s, status);
    if parent != t && parent != NONE {
      TwoWakeups(dead, Wakeup(dead, ExitOf(t)), Bury(s, status), ExitOf(t), ChildOf(parent));
    } else {
      OneWakeup(dead, Bury(s, status), ExitOf(t));
      assert Waiters(s, ExitOf(t)) + [] == Waiters(s, ExitOf(t));
    }
  }

  lemma ExitEnds(s: Kernel, r: Kernel, status: int)
    requires Inv(s) && s.current != 0 && r == DoExit(s, status)
    ensures Ends(s, r, status)
  {
    var b := Bury(s, status);
    ExitOk(s, status);
    BuryOk(s, status);
    BuryQueues(s, status);
    BuryQueuesOk(s, status);
    CloseFromKeepsPartition(s.files, s.current, 0);
    NextIsAnother(b, r, s.current);
    TakenEnds(s, b, r, status);
  }

  /** `r` is `b` with the head of the run queue on the free processor. */
  predicate Dispatched(b: Kernel, r: Kernel) {
    && r.current != NONE && (if b.runq == [] then r.current == 0 && r.runq == [] else [r.current] + r.runq == b.runq)
    && r == b.(tasks := b.tasks[r.current := b.tasks[r.current].(state := Running)],
               current := r.current, runq := r.runq, ticks := b.ticks + 1)
  }

  lemma NextIsAnother(b: Kernel, r: Kernel, t: Slot)
    requires Ok(b) && b.tasks[t].state == Zombie && b.current == NONE && r == Take(b)
    ensures Dispatched(b, r) && r.current != t
  {
    assert TaskOk(b, SWAPPER);
    assert b.runq != [] ==> b.runq[0] in b.runq;
  }

  lemma TakenEnds(s: Kernel, b: Kernel, r: Kernel, status: int)
    requires s.current != NONE && HoldsNone(b.files, s.current) && OthersKept(s.files, b.files, s.current)
    requires b == Dead(s, status).(runq := s.runq + WokenByDeath(s), waitq := b.waitq)
    requires forall q: Queue :: Waiters(b, q) == if WokenByExit(s, q) then [] else Waiters(s, q)
    requires Dispatched(b, r) && r.current != s.current
    ensures Ends(s, r, status)
  {
  }

  /** exit. */
  lemma ExitCall(s: Kernel, status: int)
    requires Inv(s) && Enabled(s, Syscall(Exit(status)))
    ensures Ends(s, Step(s, Syscall(Exit(status))), status)
  {
    ExitEnds(s, Step(s, Syscall(Exit(status))), status);
  }

  /** execve of a file that is not there returns -2. */
  lemma ExecOfNothing(s: Kernel)
    requires Enabled(s, Syscall(Exec(NotFound)))
    ensures Answers(s, Step(s, Syscall(Exec(NotFound))), -2)
  {
  }

  /** execve of a file that does not load ends the task with status -1. */
  lemma ExecOfGarbage(s: Kernel)
    requires Inv(s) && Enabled(s, Syscall(Exec(LoadFailed)))
    ensures Ends(s, Step(s, Syscall(Exec(LoadFailed))), -1)
  {
    ExitEnds(s, Step(s, Syscall(Exec(LoadFailed))), -1);
  }

  /** execve of a file that loads: the task keeps its pid, its kin and its files, has no
      pending signal any more, and goes to the end of the run queue. */
  lemma ExecOfProgram(s: Kernel)
    requires Inv(s) && Enabled(s, Syscall(Exec(Loaded)))
    ensures var r, t, fresh0 := Step(s, Syscall(Exec(Loaded))), s.current, s.tasks[s.current].(pending := {}, cont := User);
      && r.runq == (s.runq + [t])[1..] && r.current == (s.runq + [t])[0]
      && r.tasks[t] == fresh0.(state := if s.runq == [] then Running else Queued)
      && (forall u: Slot :: u != t && u != r.current ==> r.tasks[u] == s.tasks[u])
      && (r.current != t ==> r.tasks[r.current] == s.tasks[r.current].(state := Running))
      && r == s.(tasks := r.tasks, runq := r.runq, current := r.current, ticks := s.ticks + 1)
  {
    assert TaskOk(s, s.current);
    RunningIsUnqueued(s);
    assert s.runq != [] ==> s.runq[0] in s.runq;
  }

  // ---------------- waitpid ----------------

  /** The child is one that waitpid was asked for. */
  predicate Asked(s: Kernel, c: Slot, pid: int) {
    pid == -1 || s.tasks[c].pid == pid
  }

  lemma WaitPidStep(s: Kernel, pid: int, options: int) returns (r: Kernel, output: Output)
    requires Enabled(s, Syscall(WaitPid(pid, options)))
    ensures r == Step(s, Syscall(WaitPid(pid, options))) == DoWaitPid(s, pid, options)
    ensures output == OutputOf(s, Syscall(WaitPid(pid, options))) == WaitPidOutput(s, pid, options)
  {
    r, output := DoWaitPid(s, pid, options), WaitPidOutput(s, pid, options);
  }

  /** A waitpid with unknown options or with a pid that names no single child and not all of
      them returns -22. */
  lemma WaitPidRefused(s: Kernel, pid: int, options: int)
    requires Enabled(s, Syscall(WaitPid(pid, options)))
    requires (options != 0 && options != 1) || pid == 0 || pid < -1
    ensures Answers(s, Step(s, Syscall(WaitPid(pid, options))), -22)
    ensures OutputOf(s, Syscall(WaitPid(pid, options))) == Silent
  {
  }

  /** With good arguments and no such child it returns -10. */
  lemma WaitPidNoChild(s: Kernel, pid: int, options: int)
    requires Enabled(s, Syscall(WaitPid(pid, options))) && (options == 0 || options == 1) && (pid > 0 || pid == -1)
    requires forall i :: 0 <= i < |s.tasks[s.current].children| ==> !Asked(s, s.tasks[s.current].children[i], pid)
    ensures Answers(s, Step(s, Syscall(WaitPid(pid, options))), -10)
    ensures OutputOf(s, Syscall(WaitPid(pid, options))) == Silent
  {
    var kids := s.tasks[s.current].children;
    if pid > 0 {
      assert forall c :: c in kids ==> s.tasks[c].pid != pid;
    }
  }

  /** `c` is a child asked for, and no child asked for is dead. */
  ghost predicate AllAlive(s: Kernel, c: Slot, pid: int)
    requires s.current != NONE
  {
    var kids := s.tasks[s.current].children;
    c in kids && Asked(s, c, pid) && forall i :: 0 <= i < |kids| && Asked(s, kids[i], pid) ==> s.tasks[kids[i]].state != Zombie
  }

  /** The single child that a positive pid asks for. */
  lemma AskedIsFound(s: Kernel, c: Slot, pid: int)
    requires Inv(s) && c in s.tasks[s.current].children && s.tasks[c].pid == pid && pid > 0
    ensures FindPid(s.tasks, s.tasks[s.current].children, pid) == c
    ensures forall u: Slot :: Asked(s, u, pid) ==> u == c
  {
    var kids := s.tasks[s.current].children;
    var i :| 0 <= i < |kids| && kids[i] == c;
    assert ChildOk(s, s.current, kids[i]);
    PidsDiffer(s, c);
  }

  lemma NoneFound(s: Kernel, c: Slot)
    requires s.current != NONE && AllAlive(s, c, -1)
    ensures FindZombie(s.tasks, s.tasks[s.current].children) == NONE && s.tasks[s.current].children != []
  {
    assert forall i :: 0 <= i < |s.tasks[s.current].children| ==> Asked(s, s.tasks[s.current].children[i], -1);
  }

  /** While no child asked for is dead, waitpid returns 0 if it may not wait, ... */
  lemma WaitPidLooks(s: Kernel, c: Slot, pid: int)
    requires Inv(s) && Enabled(s, Syscall(WaitPid(pid, 1))) && (pid > 0 || pid == -1) && AllAlive(s, c, pid)
    ensures Answers(s, Step(s, Syscall(WaitPid(pid, 1))), 0) && OutputOf(s, Syscall(WaitPid(pid, 1))) == Silent
  {
    if pid > 0 {
      AskedIsFound(s, c, pid);
    } else {
      NoneFound(s, c);
    }
  }

  /** The current task sleeps at the end of a wait queue, and the next one runs. */
  ghost predicate GoesToSleep(s: Kernel, r: Kernel, w: Wait)
    requires s.current != NONE
  {
    var t, next := s.current, NextUp(s);
    && r.tasks == s.tasks[t := s.tasks[t].(state := Interruptible, cont := Sleep(w))]
                         [next := s.tasks[next].(state := Running)]
    && (forall q: Queue :: Waiters(r, q) == Waiters(s, q) + if q == QueueOf(t, w) then [t] else [])
    && r == s.(tasks := r.tasks, waitq := r.waitq, current := next, ticks := s.ticks + 1,
               runq := if s.runq == [] then [] else s.runq[1..])
  }

  lemma BlockedSleeps(s: Kernel, r: Kernel, w: Wait)
    requires Inv(s) && MayWait(s, w) && !Holds(s, s.current, w) && r == WaitLoop(s, w)
    ensures GoesToSleep(s, r, w)
  {
    DozeOk(s, w);
    RunningIsUnqueued(s);
    assert TaskOk(s, SWAPPER);
    assert s.runq != [] ==> s.runq[0] in s.runq;
  }

  /** ... and else sleeps until that child, or any child, dies. */
  lemma WaitPidSleeps(s: Kernel, c: Slot, pid: int)
    requires Inv(s) && Enabled(s, Syscall(WaitPid(pid, 0))) && (pid > 0 || pid == -1) && AllAlive(s, c, pid)
    ensures var w := if pid == -1 then ForAnyChild else ForChild(c);
      GoesToSleep(s, Step(s, Syscall(WaitPid(pid, 0))), w) && OutputOf(s, Syscall(WaitPid(pid, 0))) == Silent
  {
    var w := if pid == -1 then ForAnyChild else ForChild(c);
    var r, _ := WaitPidStep(s, pid, 0);
    WaitPidBlocks(s, c, pid);
    BlockedSleeps(s, r, w);
  }

  lemma WaitPidBlocks(s: Kernel, c: Slot, pid: int)
    requires Inv(s) && (pid > 0 || pid == -1) && AllAlive(s, c, pid)
    ensures var w := if pid == -1 then ForAnyChild else ForChild(c);
      DoWaitPid(s, pid, 0) == WaitLoop(s, w) && WaitPidOutput(s, pid, 0) == Silent && !Holds(s, s.current, w)
  {
    if pid > 0 {
      AskedIsFound(s, c, pid);
      var i :| 0 <= i < |s.tasks[s.current].children| && s.tasks[s.current].children[i] == c;
      assert Asked(s, s.tasks[s.current].children[i], pid);
    } else {
      NoneFound(s, c);
    }
  }

  /** Child number `i` is the first dead one of those asked for. */
  ghost predicate FirstDead(s: Kernel, i: nat, pid: int)
    requires s.current != NONE
  {
    var kids := s.tasks[s.current].children;
    && i < |kids| && Asked(s, kids[i], pid) && s.tasks[kids[i]].state == Zombie
    && forall j :: 0 <= j < i && Asked(s, kids[j], pid) ==> s.tasks[kids[j]].state != Zombie
  }

  /** The current task collects `c`: it gets the pid of the child as its result, the status
      of the child is written, and the child's slot is free. */
  ghost predicate Gets(s: Kernel, r: Kernel, output: Output, c: Slot)
    requires s.current != NONE
  {
    && Reaping.Collects(s, r, s.current, c) && output == Status(s.tasks[c].exitStatus)
    && r.tasks[s.current].cont == User && r.tasks[s.current].ret == s.tasks[c].pid > 0
    && r.free == s.free + [c] && r.tasks[c].pid == -1 && r.tasks[c].children == []
    && (forall u: Slot :: u != s.current && u != c ==> r.tasks[u] == s.tasks[u])
    && r == s.(tasks := r.tasks, free := r.free, trace := r.trace, waitq := r.waitq) && SameWaiters(s, r)
  }

  lemma ReapGets(s: Kernel, c: Slot)
    requires Inv(s) && MayReap(s, c)
    ensures Gets(s, Reap(s, c), Status(s.tasks[c].exitStatus), c)
  {
    Reaping.ReapCollects(s, c);
    ReapEffect(s, c);
    ReapTasks(s, c);
  }

  /** A dead child that is asked for is collected at once, whatever the options. */
  lemma WaitPidCollects(s: Kernel, i: nat, pid: int, options: int)
    requires Inv(s) && Enabled(s, Syscall(WaitPid(pid, options))) && (options == 0 || options == 1) && (pid > 0 || pid == -1)
    requires FirstDead(s, i, pid)
    ensures var call := Syscall(WaitPid(pid, options));
      Gets(s, Step(s, call), OutputOf(s, call), s.tasks[s.current].children[i])
  {
    var c := s.tasks[s.current].children[i];
    assert c in s.tasks[s.current].children;
    var r, output := WaitPidStep(s, pid, options);
    DeadIsReaped(s, i, pid, options);
    ReapGets(s, c);
  }

  lemma DeadIsReaped(s: Kernel, i: nat, pid: int, options: int)
    requires Inv(s) && (options == 0 || options == 1) && (pid > 0 || pid == -1) && FirstDead(s, i, pid)
    ensures var c := s.tasks[s.current].children[i];
      DoWaitPid(s, pid, options) == Reap(s, c) && WaitPidOutput(s, pid, options) == Status(s.tasks[c].exitStatus)
  {
    if pid > 0 {
      AskedIsFound(s, s.tasks[s.current].children[i], pid);
    } else {
      AnyDeadIsFound(s, i);
    }
  }

  lemma AnyDeadIsFound(s: Kernel, i: nat)
    requires s.current != NONE && FirstDead(s, i, -1)
    ensures FindZombie(s.tasks, s.tasks[s.current].children) == s.tasks[s.current].children[i]
  {
    var kids := s.tasks[s.current].children;
    forall j | 0 <= j < i ensures s.tasks[kids[j]].state != Zombie {
      assert Asked(s, kids[j], -1);
    }
    FirstZombie(s.tasks, kids, i);
  }

  /** A task that wakes without a signal collects the first dead child, if it waits for any
      child, or the child it waits for, ... */
  lemma WokenCollects(s: Kernel, i: nat, w: Wait)
    requires Inv(s) && s.tasks[s.current].cont == Sleep(w) && s.tasks[s.current].pending == {}
    requires i < |s.tasks[s.current].children|
    requires var c := s.tasks[s.current].children[i];
      (w == ForAnyChild && FirstDead(s, i, -1)) || (w == ForChild(c) && s.tasks[c].state == Zombie)
    ensures Gets(s, Step(s, Resume), OutputOf(s, Resume), s.tasks[s.current].children[i])
  {
    var kids, r := s.tasks[s.current].children, Step(s, Resume);
    var left, after, told := KernelStages.ResumeCases(s, w);
    assert r == after && OutputOf(s, Resume) == told;
    LeftOk(s, w);
    assert kids[i] in kids;
    ReapGets(left, kids[i]);
    if w == ForAnyChild {
      AnyDeadIsFound(s, i);
    }
    GetsAlike(s, left, r, kids[i]);
  }

  lemma GetsAlike(s: Kernel, left: Kernel, r: Kernel, c: Slot)
    requires s.current != NONE && left == s.(waitq := left.waitq) && SameWaiters(s, left)
    requires Gets(left, r, Status(s.tasks[c].exitStatus), c)
    ensures Gets(s, r, Status(s.tasks[c].exitStatus), c)
  {
  }

  /** ... and sleeps again when there is none, as it does when it waits for input that is not
      there. */
  lemma WokenSleepsAgain(s: Kernel, w: Wait)
    requires Inv(s) && s.tasks[s.current].cont == Sleep(w) && s.tasks[s.current].pending == {}
    requires w == ForAnyChild ==> forall i :: 0 <= i < |s.tasks[s.current].children| ==> s.tasks[s.tasks[s.current].children[i]].state != Zombie
    requires w.ForChild? ==> s.tasks[w.child].state != Zombie
    requires w.ForInput? ==> s.input[w.tty] == []
    ensures GoesToSleep(s, Step(s, Resume), w) && OutputOf(s, Resume) == Silent
  {
    var left, after, told := KernelStages.ResumeCases(s, w);
    assert Step(s, Resume) == after && OutputOf(s, Resume) == told;
    LeftOk(s, w);
    BlockedSleeps(left, after, w);
    SleepsAlike(s, left, after, w);
  }

  lemma SleepsAlike(s: Kernel, left: Kernel, r: Kernel, w: Wait)
    requires s.current != NONE && left == s.(waitq := left.waitq) && SameWaiters(s, left)
    requires GoesToSleep(left, r, w)
    ensures GoesToSleep(s, r, w)
  {
  }

  // ---------------- kill ----------------

  /** A kill with no such signal or no such task returns -1 and does nothing. */
  lemma KillRefused(s: Kernel, pid: int, sig: int)
    requires Inv(s) && Enabled(s, Syscall(Kill(pid, sig)))
    requires sig < 1 || sig > 32 || forall t: Slot :: s.tasks[t].state != Pooled ==> s.tasks[t].pid != pid
    ensures Answers(s, Step(s, Syscall(Kill(pid, sig))), -1)
  {
    var t := Find(s, pid);
    assert t != NONE ==> s.tasks[t].pid == pid && pid >= 0;
  }

  /** Any other kill returns 0, makes the signal pending, and queues the task if it sleeps. */
  lemma KillDelivers(s: Kernel, t: Slot, sig: int)
    requires Inv(s) && Enabled(s, Syscall(Kill(s.tasks[t].pid, sig))) && 1 <= sig <= 32 && s.tasks[t].state != Pooled
    ensures var r := Step(s, Syscall(Kill(s.tasks[t].pid, sig)));
      && Answers(s.(tasks := s.tasks[t := s.tasks[t].(pending := s.tasks[t].pending + {sig})], runq := r.runq), r, 0)
      && r.runq == s.runq + if s.tasks[t].state == Interruptible then [t] else []
  {
    PidsDiffer(s, t);
    KillStep(s, s.tasks[t].pid, sig);
    assert s.runq + [] == s.runq;
  }

  lemma EndsAlike(s: Kernel, left: Kernel, r: Kernel, status: int)
    requires s.current != NONE && left == s.(waitq := left.waitq) && SameWaiters(s, left)
    requires Ends(left, r, status)
    ensures Ends(s, r, status)
  {
    assert WokenByDeath(left) == WokenByDeath(s);
  }

  /** A task that wakes in wait_event with a pending signal ends with status -1. */
  lemma SignalEndsSleep(s: Kernel)
    requires Inv(s) && s.tasks[s.current].cont.Sleep? && s.tasks[s.current].pending != {}
    ensures Ends(s, Step(s, Resume), -1) && OutputOf(s, Resume) == Silent
  {
    var w, r := s.tasks[s.current].cont.wait, Step(s, Resume);
    var left, after, told := KernelStages.ResumeCases(s, w);
    assert r == after && OutputOf(s, Resume) == told;
    LeftOk(s, w);
    ExitEnds(left, r, -1);
    EndsAlike(s, left, r, -1);
  }

  // ---------------- open, close, chdir ----------------

  /** The current task is at the point of doing `call`, with or without a yield before. */
  predicate Does(s: Kernel, l: Label, call: Call) {
    && s.current != NONE
    && if call.OpenStd? then Enabled(s, l) && l == Syscall(call) else l == Resume && s.tasks[s.current].cont == Yielded(call)
  }

  /** An open returns the lowest free descriptor, which then names the oldest free file, if
      the file system has the file and a descriptor is free, and otherwise -1. */
  lemma OpenCall(s: Kernel, l: Label, lookup: Lookup)
    requires Inv(s) && (Does(s, l, Open(lookup)) || Does(s, l, OpenStd(lookup)))
    ensures var r, t := Step(s, l), s.current;
      var fd := r.tasks[t].ret;
      && Answers(s.(files := r.files), r, fd)
      && (fd >= 0 <==> lookup == Granted && exists i: Descriptor :: FileOf(s.files, t, i) == -1)
      && (fd < 0 ==> fd == -1 && r.files.places == s.files.places && forall x :: x in r.files.free <==> x in s.files.free)
      && (fd >= 0 ==>
            && s.files.free != [] && r.files.free == s.files.free[1..] && FileOf(r.files, t, fd) == s.files.free[0]
            && FileOf(s.files, t, fd) == -1 && (forall i: Descriptor :: i < fd ==> FileOf(s.files, t, i) != -1)
            && OthersKept(s.files, r.files, t)
            && forall i: Descriptor :: i != fd ==> FileOf(r.files, t, i) == FileOf(s.files, t, i))
  {
    OpenOutcomes(s.files, s.current, lookup);
    assert Step(s, l) == PlainBody(s, Open(lookup));
  }

  /** A close of an open descriptor frees its file and returns 0; any other returns -1. */
  lemma CloseCall(s: Kernel, fd: int)
    requires Inv(s) && Does(s, Resume, Close(fd))
    ensures var r, t := Step(s, Resume), s.current;
      if 0 <= fd < 16 && FileOf(s.files, t, fd) != -1
      then
        && Answers(s.(files := r.files), r, 0)
        && r.files.free == s.files.free + [FileOf(s.files, t, fd)] && FileOf(r.files, t, fd) == -1
        && OthersKept(s.files, r.files, t)
        && forall i: Descriptor :: i != fd ==> FileOf(r.files, t, i) == FileOf(s.files, t, i)
      else Answers(s, r, -1)
  {
    CloseOutcomes(s.files, s.current, fd);
  }

  /** A chdir leaves every descriptor as it was.  It returns 0 if the directory can be opened
      and listed, the negative answer of the listing if only that fails, and else -1. */
  lemma ChdirCall(s: Kernel, lookup: Lookup, listed: int)
    requires Inv(s) && Does(s, Resume, Chdir(lookup, listed))
    ensures var r, t := Step(s, Resume), s.current;
      && Answers(s.(files := r.files), r, r.tasks[t].ret)
      && r.files.places == s.files.places && (forall x :: x in r.files.free <==> x in s.files.free)
      && r.tasks[t].ret ==
         if lookup == Granted && exists i: Descriptor :: FileOf(s.files, t, i) == -1 then (if listed < 0 then listed else 0)
         else -1
  {
    OpenThenCloseOutcomes(s.files, s.current, lookup);
    KernelStages.ChdirAnswers(s, lookup, listed);
  }

  // ---------------- the keyboard ----------------

  /** A key that finds room is appended to the input of the active terminal, and the readers
      that sleep there are queued in order; any other key changes nothing. */
  lemma KeyTyped(s: Kernel, c: char)
    requires Inv(s)
    ensures var r, y := Step(s, Key(c)), s.active;
      if |s.input[y]| < 256
      then
        && r.input == s.input[y := s.input[y] + [c]] && r.runq == s.runq + Waiters(s, InputOf(y))
        && (forall q: Queue :: Waiters(r, q) == if q == InputOf(y) then [] else Waiters(s, q))
        && r == s.(input := r.input, runq := r.runq, waitq := r.waitq)
      else r == s
  {
    var y := s.active;
    if |s.input[y]| < 256 {
      var fed := s.(input := s.input[y := s.input[y] + [c]]);
      FedQueuesOk(s, fed);
      WakeupMoves(fed, InputOf(y));
      WakeupQueuesOk(fed, InputOf(y));
    }
  }
}

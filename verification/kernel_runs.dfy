/** Every step of the kernel keeps the invariant, hence every state of every run has it. */
module KernelRuns {
  import opened Seqs
  import opened OpenFileTable
  import opened KernelState
  import opened KernelInvariant
  import TaskTables

  // ---------------- reaping ----------------

  /** The current task may reap `c`. */
  ghost predicate MayReap(s: Kernel, c: Slot)
    requires s.current != NONE
  {
    s.current != SWAPPER && c in s.tasks[s.current].children && s.tasks[c].state == Zombie
  }

  lemma ReapTasks(s: Kernel, c: Slot)
    requires s.current != NONE && c != s.current
    ensures var t, r := s.current, Reap(s, c);
      && r.tasks[t] == s.tasks[t].(children := Without<Slot>(s.tasks[t].children, c), cont := User, ret := s.tasks[c].pid)
      && r.tasks[c] == s.tasks[c].(state := Pooled, pid := -1, children := [], parent := NONE)
      && (forall u: Slot :: u != t && u != c ==> r.tasks[u] == s.tasks[u])
      && r == s.(tasks := r.tasks, free := s.free + [c], trace := r.trace)
  {
  }

  lemma ReapQueuesOk(s: Kernel, c: Slot)
    requires Inv(s) && MayReap(s, c)
    ensures var r := Reap(s, c); SameWaiters(s, r) && QueuesOk(r) && forall u: Slot :: TaskOk(r, u)
  {
    var r, t := Reap(s, c), s.current;
    assert ChildOk(s, t, c) && TaskOk(s, c) && TaskOk(s, t);
    ReapTasks(s, c);
    assert SameWaiters(s, r);
    forall u: Slot ensures TaskOk(r, u) {
      assert TaskOk(s, u);
    }
    forall q: Queue, i | 0 <= i < |Waiters(r, q)| ensures WaitsIn(r, Waiters(r, q)[i], q) {
      assert WaitsIn(s, Waiters(s, q)[i], q);
    }
  }

  lemma ReapChildrenOk(s: Kernel, c: Slot)
    requires Inv(s) && MayReap(s, c)
    ensures ChildrenOk(Reap(s, c))
  {
    var r, t := Reap(s, c), s.current;
    assert ChildOk(s, t, c) && TaskOk(s, t);
    ReapTasks(s, c);
    WithoutDistinct(s.tasks[t].children, c);
    forall p: Slot, i | 0 <= i < |r.tasks[p].children| ensures ChildOk(r, p, r.tasks[p].children[i]) {
      var x := r.tasks[p].children[i];
      assert x in r.tasks[p].children;
      WithoutMember<Slot>(s.tasks[p].children, c, x);
      assert ChildOk(s, p, x);
    }
  }

  lemma ReapTableOk(s: Kernel, c: Slot)
    requires Inv(s) && MayReap(s, c)
    ensures TableOk(Reap(s, c))
  {
    assert ChildOk(s, s.current, c) && TaskOk(s, s.current);
    ReapTasks(s, c);
    DistinctAppend(s.free, c);
  }

  lemma ReapLosesNone(s: Kernel, c: Slot)
    requires Inv(s) && MayReap(s, c) && SameWaiters(s, Reap(s, c))
    ensures NoLostWakeup(Reap(s, c))
  {
    var r, t := Reap(s, c), s.current;
    assert ChildOk(s, t, c) && TaskOk(s, t);
    ReapTasks(s, c);
    forall p: Slot, i | Waiters(r, ChildOf(p)) != [] && 0 <= i < |r.tasks[p].children|
      ensures r.tasks[r.tasks[p].children[i]].state != Zombie
    {
      var x := r.tasks[p].children[i];
      assert x in r.tasks[p].children;
      WithoutMember<Slot>(s.tasks[p].children, c, x);
    }
  }

  lemma ReapOk(s: Kernel, c: Slot)
    requires Inv(s) && MayReap(s, c)
    ensures Inv(Reap(s, c))
  {
    assert ChildOk(s, s.current, c) && TaskOk(s, s.current);
    ReapTasks(s, c);
    ReapQueuesOk(s, c);
    ReapChildrenOk(s, c);
    ReapTableOk(s, c);
    ReapLosesNone(s, c);
    assert FilesOk(Reap(s, c));
  }

  /** Reaping takes just the child out of its parent's list, keeps the order of its
      siblings, and puts the slot at the end of the ring of free slots. */
  lemma ReapEffect(s: Kernel, c: Slot)
    requires Inv(s) && MayReap(s, c)
    ensures var r, t := Reap(s, c), s.current;
      && (exists i :: 0 <= i < |s.tasks[t].children| && s.tasks[t].children[i] == c
                      && r.tasks[t].children == s.tasks[t].children[..i] + s.tasks[t].children[i + 1..])
      && r.free == s.free + [c] && r.tasks[c].state == Pooled
      && r.tasks[t].ret == s.tasks[c].pid > 0
      && forall u: Slot :: u != t && u != c ==> r.tasks[u] == s.tasks[u]
  {
    var t := s.current;
    assert ChildOk(s, t, c) && TaskOk(s, t) && TaskOk(s, c);
    ReapTasks(s, c);
    var i :| 0 <= i < |s.tasks[t].children| && s.tasks[t].children[i] == c;
    WithoutAt(s.tasks[t].children, i);
  }

  // ---------------- fork ----------------

  /** A pooled slot has nobody in its two wait queues: signal_init loses nothing. */
  lemma PooledQueuesEmpty(s: Kernel, c: Slot)
    requires Ok(s) && s.tasks[c].state == Pooled
    ensures Waiters(s, ExitOf(c)) == [] && Waiters(s, ChildOf(c)) == []
  {
    var ws, vs := Waiters(s, ExitOf(c)), Waiters(s, ChildOf(c));
    assert ws != [] ==> WaitsIn(s, ws[0], ExitOf(c)) && TaskOk(s, ws[0]) && c in s.tasks[ws[0]].children;
    assert ws != [] ==> ChildOk(s, ws[0], c);
    assert vs != [] ==> WaitsIn(s, vs[0], ChildOf(c));
  }

  lemma ForkTasks(s: Kernel)
    requires s.current != NONE && s.free != [] && s.free[0] != s.current
    ensures var t, c, r := s.current, s.free[0], DoFork(s);
      && r.tasks[t] == s.tasks[t].(children := [c] + s.tasks[t].children, cont := User, ret := PidOf(c, s.allocs[c]))
      && r.tasks[c] == Task(Queued, PidOf(c, s.allocs[c]), t, s.tasks[c].children, 0, {}, User, 0, s.allocs[c])
      && (forall u: Slot :: u != t && u != c ==> r.tasks[u] == s.tasks[u])
      && (forall q: Queue :: Waiters(r, q) == if q == ExitOf(c) || q == ChildOf(c) then [] else Waiters(s, q))
      && r == s.(tasks := r.tasks, waitq := r.waitq, runq := s.runq + [c], free := s.free[1..],
                 allocs := s.allocs[c := s.allocs[c] + 1], trace := r.trace)
  {
  }

  lemma ForkTasksOk(s: Kernel)
    requires Inv(s) && s.free != [] && s.current != SWAPPER
    ensures var r := DoFork(s); SameWaiters(s, r) && forall u: Slot :: TaskOk(r, u)
  {
    assert s.free[0] in s.free;
    assert TaskOk(s, s.current) && TaskOk(s, s.free[0]) && TaskOk(s, SWAPPER);
    ForkTasks(s);
    PooledQueuesEmpty(s, s.free[0]);
    assert SameWaiters(s, DoFork(s));
    forall u: Slot ensures TaskOk(DoFork(s), u) {
      assert TaskOk(s, u);
    }
  }

  lemma ForkQueuesOk(s: Kernel)
    requires Inv(s) && s.free != [] && s.current != SWAPPER
    requires SameWaiters(s, DoFork(s))
    ensures QueuesOk(DoFork(s))
  {
    var r := DoFork(s);
    ForkRunqOk(s);
    forall q: Queue, i | 0 <= i < |Waiters(r, q)| ensures WaitsIn(r, Waiters(r, q)[i], q) {
      ForkWaitsIn(s, q, i);
    }
  }

  lemma ForkRunqOk(s: Kernel)
    requires Inv(s) && s.free != [] && s.current != SWAPPER
    ensures Distinct(DoFork(s).runq)
    ensures var r := DoFork(s);
      forall i :: 0 <= i < |r.runq| ==> r.tasks[r.runq[i]].state in {Queued, Interruptible} && r.runq[i] != SWAPPER
  {
    var t, c := s.current, s.free[0];
    assert c in s.free;
    assert TaskOk(s, t) && TaskOk(s, c) && TaskOk(s, SWAPPER);
    ForkTasks(s);
    DistinctAppend(s.runq, c);
  }

  lemma ForkWaitsIn(s: Kernel, q: Queue, i: nat)
    requires Inv(s) && s.free != [] && s.current != SWAPPER
    requires SameWaiters(s, DoFork(s)) && i < |Waiters(s, q)|
    ensures WaitsIn(DoFork(s), Waiters(s, q)[i], q)
  {
    assert s.free[0] in s.free;
    assert TaskOk(s, s.current);
    ForkTasks(s);
    assert WaitsIn(s, Waiters(s, q)[i], q);
  }

  lemma ForkChildrenOk(s: Kernel)
    requires Inv(s) && s.free != [] && s.current != SWAPPER
    ensures ChildrenOk(DoFork(s))
  {
    var r, t, c := DoFork(s), s.current, s.free[0];
    assert c in s.free;
    assert TaskOk(s, t);
    ForkTasks(s);
    assert s.tasks[t].children == r.tasks[t].children[1..];
    forall p: Slot, i | 0 <= i < |r.tasks[p].children| ensures ChildOk(r, p, r.tasks[p].children[i]) {
      if p != t || i > 0 {
        assert ChildOk(s, p, r.tasks[p].children[i]);
      }
    }
    assert c !in s.tasks[t].children by {
      forall i | 0 <= i < |s.tasks[t].children| ensures s.tasks[t].children[i] != c {
        assert ChildOk(s, t, s.tasks[t].children[i]);
      }
    }
  }

  lemma ForkTableOk(s: Kernel)
    requires Inv(s) && s.free != [] && s.current != SWAPPER
    ensures TableOk(DoFork(s))
  {
    assert s.free == [s.free[0]] + s.free[1..];
    assert TaskOk(s, s.current);
    ForkTasks(s);
  }

  lemma ForkLosesNone(s: Kernel)
    requires Inv(s) && s.free != [] && s.current != SWAPPER && SameWaiters(s, DoFork(s))
    ensures NoLostWakeup(DoFork(s))
  {
    var r, t := DoFork(s), s.current;
    assert s.free[0] in s.free;
    assert TaskOk(s, t);
    ForkTasks(s);
    RunningWaitsNowhere(s);
    forall p: Slot, i | Waiters(r, ChildOf(p)) != [] && 0 <= i < |r.tasks[p].children|
      ensures r.tasks[r.tasks[p].children[i]].state != Zombie
    {
      assert ChildOk(s, p, s.tasks[p].children[i]);
    }
  }

  lemma ForkOk(s: Kernel)
    requires Inv(s) && s.current != SWAPPER
    ensures Inv(DoFork(s))
  {
    if s.free == [] {
      ReturnOk(s, -ENOMEM);
    } else {
      assert s.free[0] in s.free && TaskOk(s, s.current);
      ForkTasks(s);
      ForkTasksOk(s);
      ForkQueuesOk(s);
      ForkChildrenOk(s);
      ForkTableOk(s);
      ForkLosesNone(s);
      assert FilesOk(DoFork(s));
    }
  }

  // ---------------- execve, waitpid, kill ----------------

  lemma ExecOk(s: Kernel, result: ExecResult)
    requires Inv(s) && s.current != SWAPPER
    ensures Inv(DoExec(s, result))
  {
    match result
    case NotFound => ReturnOk(s, -ENOENT);
    case LoadFailed => ExitOk(s, -1);
    case Loaded => LoadedOk(s);
  }

  lemma LoadedOk(s: Kernel)
    requires Inv(s) && s.current != SWAPPER
    ensures Inv(DoExec(s, Loaded))
  {
    var k := s.tasks[s.current].(cont := User, pending := {});
    TouchOk(s, s.current, k);
    ParkOk(Put(s, s.current, k));
    LoadedIsPark(s);
    TakeOk(Park(Put(s, s.current, k)));
  }

  lemma LoadedIsPark(s: Kernel)
    requires s.current != NONE && s.current != SWAPPER
    ensures DoExec(s, Loaded) == Schedule(Park(Put(s, s.current, s.tasks[s.current].(cont := User, pending := {}))))
  {
  }

  lemma AfterWaitOk(s: Kernel, w: Wait)
    requires Inv(s) && MayWait(s, w) && Holds(s, s.current, w)
    ensures Inv(AfterWait(s, w))
  {
    match w
    case ForChild(c) => ReapOk(s, c);
    case ForAnyChild =>
      var c := FindZombie(s.tasks, s.tasks[s.current].children);
      ReapOk(s, c);
    case ForInput(y, count) =>
      var n := if |s.input[y]| > count then count else |s.input[y]|;
      InputOk(s, y, s.input[y][n..]);
      ReturnOk(s.(input := s.input[y := s.input[y][n..]]), n);
  }

  lemma InputOk(s: Kernel, y: Tty, bytes: seq<char>)
    requires Ok(s) && |bytes| <= TTY_INPUT_BUF_SIZE && Waiters(s, InputOf(y)) == []
    ensures Ok(s.(input := s.input[y := bytes]))
  {
    var r := s.(input := s.input[y := bytes]);
    assert SameWaiters(s, r);
    forall t: Slot ensures TaskOk(r, t) {
      assert TaskOk(s, t);
    }
    LifeKept(s, r);
  }

  lemma WaitLoopOk(s: Kernel, w: Wait)
    requires Inv(s) && MayWait(s, w)
    ensures Inv(WaitLoop(s, w))
  {
    if Holds(s, s.current, w) {
      assert w.ForInput? ==> Waiters(s, InputOf(w.tty)) == [];
      AfterWaitOk(s, w);
    } else {
      DozeOk(s, w);
    }
  }

  /** What wait_event finds after its sched_schedule: the entry is in no queue, so that the
      removal changes nothing, and the wait still makes sense. */
  lemma LeftOk(s: Kernel, w: Wait)
    requires Inv(s) && s.tasks[s.current].cont == Sleep(w)
    ensures var q := QueueOf(s.current, w);
      var left := SetWaiters(s, q, Without<Slot>(Waiters(s, q), s.current));
      && SameWaiters(s, left) && Inv(left) && MayWait(left, w)
  {
    var q := QueueOf(s.current, w);
    var left := SetWaiters(s, q, Without<Slot>(Waiters(s, q), s.current));
    assert TaskOk(s, s.current);
    RunningInNoQueue(s, q);
    assert SameWaiters(s, left);
    OkKept(s, left);
  }

  lemma ResumeWaitOk(s: Kernel, w: Wait)
    requires Inv(s) && s.tasks[s.current].cont == Sleep(w)
    ensures Inv(ResumeWait(s, w))
  {
    var q := QueueOf(s.current, w);
    var left := SetWaiters(s, q, Without<Slot>(Waiters(s, q), s.current));
    LeftOk(s, w);
    if s.tasks[s.current].pending != {} {
      ExitOk(left, -1);
    } else {
      WaitLoopOk(left, w);
    }
  }

  /** A task that runs in wait_event has its entry in no queue. */
  lemma RunningInNoQueue(s: Kernel, q: Queue)
    requires Inv(s)
    ensures s.current !in Waiters(s, q) && Without<Slot>(Waiters(s, q), s.current) == Waiters(s, q)
  {
    assert TaskOk(s, s.current);
    forall i | 0 <= i < |Waiters(s, q)| ensures Waiters(s, q)[i] != s.current {
      assert WaitsIn(s, Waiters(s, q)[i], q);
    }
    WithoutAbsent<Slot>(Waiters(s, q), s.current);
  }

  lemma WaitChildOk(s: Kernel, c: Slot)
    requires Inv(s) && s.current != SWAPPER && c in s.tasks[s.current].children
    ensures s.tasks[c].state == Zombie ==> Inv(Reap(s, c))
    ensures s.tasks[c].state != Zombie ==> Inv(WaitLoop(s, ForChild(c)))
  {
    if s.tasks[c].state == Zombie {
      ReapOk(s, c);
    } else {
      WaitLoopOk(s, ForChild(c));
    }
  }

  lemma WaitPidOk(s: Kernel, pid: int, options: int)
    requires Inv(s) && s.current != SWAPPER
    ensures Inv(DoWaitPid(s, pid, options))
  {
    var children := s.tasks[s.current].children;
    if options == 0 || options == WNOHANG {
      if pid > 0 {
        var c := FindPid(s.tasks, children, pid);
        if c != NONE {
          WaitChildOk(s, c);
        }
      } else if pid == -1 {
        var z := FindZombie(s.tasks, children);
        if z != NONE {
          ReapOk(s, z);
        } else {
          WaitLoopOk(s, ForAnyChild);
        }
      }
    }
    WaitPidErrorsOk(s);
  }

  lemma WaitPidErrorsOk(s: Kernel)
    requires Inv(s)
    ensures Inv(Return(s, -EINVAL)) && Inv(Return(s, -ECHILD)) && Inv(Return(s, 0))
  {
    ReturnOk(s, -EINVAL);
    ReturnOk(s, -ECHILD);
    ReturnOk(s, 0);
  }

  /** Kill hits a task whose state is interruptible sleep. */
  predicate KillsSleeper(s: Kernel, pid: int, sig: int) {
    0 < sig <= MAX_SIGNALS && var t := Find(s, pid); t != NONE && s.tasks[t].state == Interruptible
  }

  /** Kill hits a sleeper that has been woken and is queued already. */
  predicate KillsQueued(s: Kernel, pid: int, sig: int) {
    KillsSleeper(s, pid, sig) && Find(s, pid) in s.runq
  }

  /** sched_kill keeps the invariant exactly when its target is not asleep: a sleeper is
      put on the run queue although it still is in its wait queue, or a second time. */
  lemma KillOk(s: Kernel, pid: int, sig: int)
    requires Inv(s)
    ensures Inv(DoKill(s, pid, sig)) <==> !KillsSleeper(s, pid, sig)
  {
    ReturnOk(s, -1);
    if 0 < sig <= MAX_SIGNALS {
      var t := Find(s, pid);
      if t != NONE {
        var k := s.tasks[t].(pending := s.tasks[t].pending + {sig});
        TouchOk(s, t, k);
        ReturnOk(Put(s, t, k), 0);
        if s.tasks[t].state == Interruptible {
          KilledSleeperTwice(s, DoKill(s, pid, sig), t);
        }
      }
    }
  }

  lemma KilledSleeperTwice(s: Kernel, r: Kernel, t: Slot)
    requires Inv(s) && s.tasks[t].state == Interruptible
    requires r.runq == s.runq + [t] && r.waitq == s.waitq
    ensures !QueuesOk(r)
  {
    assert TaskOk(s, t);
    if t in s.runq {
      var i :| 0 <= i < |s.runq| && s.runq[i] == t;
      assert r.runq[i] == r.runq[|s.runq|];
    } else {
      var q := QueueOf(t, s.tasks[t].cont.wait);
      var i :| 0 <= i < |Waiters(s, q)| && Waiters(s, q)[i] == t;
      assert Waiters(r, q)[i] == t && t in r.runq;
    }
  }

  // ---------------- steps and runs ----------------

  lemma FedQueuesOk(s: Kernel, fed: Kernel)
    requires Inv(s) && fed == s.(input := fed.input)
    ensures QueuesOk(fed) && (forall t: Slot :: TaskOk(fed, t)) && SameWaiters(s, fed) && SameLife(s, fed)
  {
    assert SameWaiters(s, fed);
    forall t: Slot ensures TaskOk(fed, t) {
      assert TaskOk(s, t);
    }
  }

  lemma KeyPressOk(s: Kernel, c: char)
    requires Inv(s)
    ensures Inv(KeyPress(s, c))
  {
    var y := s.active;
    if |s.input[y]| < TTY_INPUT_BUF_SIZE {
      var fed := s.(input := s.input[y := s.input[y] + [c]]);
      FedQueuesOk(s, fed);
      WakeupQueuesOk(fed, InputOf(y));
      LifeKept(s, Wakeup(fed, InputOf(y)));
    }
  }

  lemma SuspendOk(s: Kernel, c: Cont)
    requires Inv(s) && NewCont(s.current, c)
    ensures Inv(Schedule(Suspend(s, c)))
  {
    TouchOk(s, s.current, s.tasks[s.current].(cont := c));
    ScheduleOk(Suspend(s, c));
  }

  lemma PlainBodyOk(s: Kernel, call: Call)
    requires Inv(s) && IsPlain(call)
    ensures Inv(PlainBody(s, call))
  {
    match call
    case Open(lookup) => OpenOk(s, lookup);
    case OpenStd(lookup) => OpenOk(s, lookup);
    case Close(fd) => CloseOk(s, fd);
    case Chdir(lookup, listed) => ChdirOk(s, lookup, listed);
    case _ => ReturnOk(s, 0);
  }

  lemma BodyOk(s: Kernel, call: Call)
    requires Inv(s) && MayCall(s, call)
    requires call.Kill? ==> !KillsSleeper(s, call.pid, call.sig)
    ensures Inv(Body(s, call))
  {
    match call
    case Read(y, count) => SuspendOk(s, ReadAgain(y, count));
    case Fork => ForkOk(s);
    case Exec(result) => ExecOk(s, result);
    case Exit(status) => ExitOk(s, status);
    case WaitPid(pid, options) => WaitPidOk(s, pid, options);
    case Kill(pid, sig) => KillOk(s, pid, sig);
    case _ => PlainBodyOk(s, call);
  }

  lemma OpenOk(s: Kernel, lookup: Lookup)
    requires Inv(s)
    ensures var (files, fd) := OpenFileTable.Open(s.files, s.current, lookup); Inv(Return(s.(files := files), fd))
  {
    OpenKeepsPartition(s.files, s.current, lookup);
    FilesChanged(s, OpenFileTable.Open(s.files, s.current, lookup).0, OpenFileTable.Open(s.files, s.current, lookup).1);
  }

  lemma CloseOk(s: Kernel, fd: int)
    requires Inv(s)
    ensures Inv(PlainBody(s, Close(fd)))
  {
    CloseKeepsPartition(s.files, s.current, fd);
    FilesChanged(s, OpenFileTable.Close(s.files, s.current, fd).0, OpenFileTable.Close(s.files, s.current, fd).1);
  }

  lemma ChdirOk(s: Kernel, lookup: Lookup, listed: int)
    requires Inv(s)
    ensures Inv(PlainBody(s, Chdir(lookup, listed)))
  {
    var (mid, fd) := OpenFileTable.Open(s.files, s.current, lookup);
    var closed := OpenFileTable.Close(mid, s.current, fd).0;
    OpenThenCloseKeepsPartition(s.files, s.current, lookup);
    FilesChanged(s, closed, if fd < 0 then fd else if listed < 0 then listed else 0);
  }

  /** A step of the runs considered here: no sleeping task is killed. */
  predicate Allowed(s: Kernel, l: Label) {
    Enabled(s, l) && (l.Syscall? && l.call.Kill? ==> !KillsSleeper(s, l.call.pid, l.call.sig))
  }

  lemma StepOk(s: Kernel, l: Label)
    requires Inv(s) && Allowed(s, l)
    ensures Inv(Step(s, l))
  {
    assert TaskOk(s, s.current);
    match l
    case Syscall(call) =>
      if YieldsFirst(call) {
        SuspendOk(s, Yielded(call));
      } else {
        BodyOk(s, call);
      }
    case Resume =>
      match s.tasks[s.current].cont {
        case Yielded(call) => BodyOk(s, call);
        case ReadAgain(y, count) => 
          ReturnOk(s, 0);
          if count > 0 {
            WaitLoopOk(s, ForInput(y, count));
          }
        case Sleep(w) => ResumeWaitOk(s, w);
      }
    case Key(c) => KeyPressOk(s, c);
    case Activate(y) => OkKept(s, s.(active := y));
  }

  /** Of all steps that a state offers, only the kill of a sleeper breaks the invariant. */
  lemma StepOkExactly(s: Kernel, l: Label)
    requires Inv(s) && Enabled(s, l)
    ensures Inv(Step(s, l)) <==> Allowed(s, l)
  {
    if Allowed(s, l) {
      StepOk(s, l);
    } else {
      KillStep(s, l.call.pid, l.call.sig);
      KillOk(s, l.call.pid, l.call.sig);
    }
  }

  lemma KillStep(s: Kernel, pid: int, sig: int)
    requires Enabled(s, Syscall(Kill(pid, sig)))
    ensures Step(s, Syscall(Kill(pid, sig))) == DoKill(s, pid, sig)
  {
  }

  lemma BootOk()
    ensures Inv(Boot())
  {
    var s := Loaded0();
    InitialPartition();
    forall t: Slot ensures t in s.free <==> t >= 2 {
      assert t >= 2 ==> s.free[t - 2] == t;
    }
    assert INIT in s.runq by { assert s.runq[0] == INIT; }
    forall q: Queue ensures Waiters(s, q) == [] {}
    TakeOk(s);
  }

  /** A run: states `ss` linked by the steps `ls`, from any state. */
  ghost predicate Segment(ss: seq<Kernel>, ls: seq<Label>) {
    && |ss| == |ls| + 1
    && forall i :: 0 <= i < |ls| ==> Allowed(ss[i], ls[i]) && ss[i + 1] == Step(ss[i], ls[i])
  }

  /** A run from boot. */
  ghost predicate Run(ss: seq<Kernel>, ls: seq<Label>) {
    Segment(ss, ls) && ss[0] == Boot()
  }

  /** Safety over whole runs: every state reached from boot satisfies the invariant. */
  lemma {:induction false} RunInv(ss: seq<Kernel>, ls: seq<Label>, i: nat)
    requires Run(ss, ls) && i < |ss|
    ensures Inv(ss[i])
  {
    if i == 0 {
      BootOk();
    } else {
      RunInv(ss, ls, i - 1);
      StepOk(ss[i - 1], ls[i - 1]);
    }
  }

  // ---------------- what the invariant says ----------------

  /** The four places of a live task, as separate questions. */
  datatype Place = OnProcessor | OnRunQueue | InWaitQueue | Gone

  ghost predicate IsAt(s: Kernel, t: Slot, p: Place) {
    match p
    case OnProcessor => t == s.current && s.tasks[t].state == Running
    case OnRunQueue => t in s.runq && s.tasks[t].state in {Queued, Interruptible}
    case InWaitQueue => s.tasks[t].state == Interruptible && exists q: Queue :: t in Waiters(s, q)
    case Gone => s.tasks[t].state == Zombie
  }

  /** In every reachable state a live task is in exactly one place, and there only once. */
  lemma ExactlyOnePlace(ss: seq<Kernel>, ls: seq<Label>, i: nat, t: Slot)
    requires Run(ss, ls) && i < |ss| && ss[i].tasks[t].state != Pooled && t != SWAPPER
    ensures exists p :: IsAt(ss[i], t, p) && forall p' :: IsAt(ss[i], t, p') ==> p' == p
    ensures Distinct(ss[i].runq)
    ensures forall q: Queue, q': Queue :: t in Waiters(ss[i], q) && t in Waiters(ss[i], q') ==> q == q'
    ensures forall q: Queue :: Distinct(Waiters(ss[i], q))
    ensures SWAPPER !in ss[i].runq && forall q: Queue :: SWAPPER !in Waiters(ss[i], q)
  {
    var s := ss[i];
    RunInv(ss, ls, i);
    assert TaskOk(s, t) && TaskOk(s, SWAPPER);
    forall q: Queue, u: Slot | u in Waiters(s, q) ensures WaitsIn(s, u, q) {
      var j :| 0 <= j < |Waiters(s, q)| && Waiters(s, q)[j] == u;
      assert WaitsIn(s, Waiters(s, q)[j], q);
    }
    var p := match s.tasks[t].state
      case Running => OnProcessor
      case Zombie => Gone
      case _ => if t in s.runq then OnRunQueue else InWaitQueue;
    assert IsAt(s, t, p);
  }

  /** No wakeup is lost in any reachable state: a sleeper whose condition holds is on the
      run queue. */
  lemma SleeperIsWoken(ss: seq<Kernel>, ls: seq<Label>, i: nat, t: Slot)
    requires Run(ss, ls) && i < |ss|
    requires ss[i].tasks[t].state == Interruptible
    ensures ss[i].tasks[t].cont.Sleep?
    ensures Holds(ss[i], t, ss[i].tasks[t].cont.wait) ==> t in ss[i].runq
  {
    var s := ss[i];
    RunInv(ss, ls, i);
    assert TaskOk(s, t);
    var q := QueueOf(t, s.tasks[t].cont.wait);
    assert t in Waiters(s, q) && q == ChildOf(t) ==>
        forall j :: 0 <= j < |s.tasks[t].children| ==> s.tasks[s.tasks[t].children[j]].state != Zombie;
  }

  /** Pids in every reachable state: that of a live task is a non-negative int, no other live
      task has it, and looking it up gives just that task. */
  lemma PidsNameTasks(ss: seq<Kernel>, ls: seq<Label>, i: nat, t: Slot)
    requires Run(ss, ls) && i < |ss| && ss[i].tasks[t].state != Pooled
    ensures var pid := ss[i].tasks[t].pid;
      && 0 <= pid <= 0x7fff_ffff && Find(ss[i], pid) == t
      && forall u: Slot :: ss[i].tasks[u].pid == pid ==> u == t
  {
    var s := ss[i];
    RunInv(ss, ls, i);
    TaskTables.PidInRange(t, s.tasks[t].inst);
    forall u: Slot | s.tasks[u].pid == s.tasks[t].pid ensures u == t {
      TaskTables.PidInRange(u, s.tasks[u].inst);
    }
  }

  /** ... and a number that no live task has as its pid is not found. */
  lemma FindIsComplete(ss: seq<Kernel>, ls: seq<Label>, i: nat, pid: int)
    requires Run(ss, ls) && i < |ss|
    ensures Find(ss[i], pid) == NONE <==> forall t: Slot :: ss[i].tasks[t].state != Pooled ==> ss[i].tasks[t].pid != pid
  {
    var s := ss[i];
    RunInv(ss, ls, i);
    if t: Slot :| s.tasks[t].state != Pooled && s.tasks[t].pid == pid {
      PidsNameTasks(ss, ls, i, t);
    } else if pid >= 0 {
      assert s.tasks[pid % MAX_PROCESS_CNT].state == Pooled ==> s.tasks[pid % MAX_PROCESS_CNT].pid == -1;
    }
  }

  // ---------------- a run that kills a sleeper ----------------

  /** Init runs alone, and slot 2 is the next one to be given out. */
  ghost predicate InitAlone(s: Kernel) {
    && s.current == INIT && s.runq == [] && s.free != [] && s.free[0] == 2
    && s.tasks[INIT] == BootTask(INIT).(state := Running) && s.tasks[2] == UNUSED
  }

  lemma BootIsInitAlone()
    ensures InitAlone(Boot())
  {
  }

  /** Init has the one child in slot 2, which is queued. */
  ghost predicate InitHasChild(s: Kernel) {
    && s.current == INIT && s.runq == [2] && s.tasks[INIT].children == [2]
    && s.tasks[INIT].cont == User && s.tasks[INIT].pid == PidOf(INIT, 0)
    && s.tasks[2].state == Queued && s.tasks[2].cont == User
  }

  lemma InitForks(s: Kernel)
    requires InitAlone(s)
    ensures InitHasChild(DoFork(s))
  {
    ForkTasks(s);
  }

  /** The child runs, and init sleeps. */
  ghost predicate InitSleeps(s: Kernel) {
    && s.current == 2 && s.tasks[2].cont == User
    && s.tasks[INIT].state == Interruptible && s.tasks[INIT].pid == PidOf(INIT, 0)
  }

  lemma InitWaits(s: Kernel)
    requires InitHasChild(s)
    ensures InitSleeps(DoWaitPid(s, -1, 0))
  {
    var d := Doze(s, ForAnyChild);
    DozeIsWaitLoop(s, ForAnyChild);
    assert d.runq[0] == 2 && d.tasks[2] == s.tasks[2];
    assert Schedule(d) == Take(d);
  }

  /** The two steps that get there. */
  lemma StepsToSleep(b: Kernel) returns (s: Kernel, r: Kernel)
    requires InitAlone(b)
    ensures Allowed(b, Syscall(Fork)) && s == Step(b, Syscall(Fork))
    ensures Allowed(s, Syscall(WaitPid(-1, 0))) && r == Step(s, Syscall(WaitPid(-1, 0))) && InitSleeps(r)
  {
    InitForks(b);
    s := DoFork(b);
    InitWaits(s);
    r := DoWaitPid(s, -1, 0);
  }

  lemma RunToSleep() returns (ss: seq<Kernel>)
    ensures Run(ss, [Syscall(Fork), Syscall(WaitPid(-1, 0))]) && InitSleeps(ss[2])
  {
    BootIsInitAlone();
    var s, r := StepsToSleep(Boot());
    ss := [Boot(), s, r];
  }

  lemma SleeperIsFound(s: Kernel)
    requires InitSleeps(s)
    ensures Enabled(s, Syscall(Kill(1, 9))) && KillsSleeper(s, 1, 9)
  {
    assert Find(s, 1) == INIT;
  }

  lemma KillOfSleeper(s: Kernel)
    requires Inv(s) && InitSleeps(s)
    ensures Enabled(s, Syscall(Kill(1, 9))) && KillsSleeper(s, 1, 9) && !Inv(Step(s, Syscall(Kill(1, 9))))
  {
    SleeperIsFound(s);
    KillOk(s, 1, 9);
  }

  /** The condition of KillOk is not idle: init forks, waits for its child, and the child
      kills init, which breaks the invariant. */
  lemma KillReachesSleeper()
    ensures exists ss :: Run(ss, [Syscall(Fork), Syscall(WaitPid(-1, 0))]) && Enabled(ss[2], Syscall(Kill(1, 9)))
                         && KillsSleeper(ss[2], 1, 9) && !Inv(Step(ss[2], Syscall(Kill(1, 9))))
  {
    var ss := RunToSleep();
    RunInv(ss, [Syscall(Fork), Syscall(WaitPid(-1, 0))], 2);
    KillOfSleeper(ss[2]);
  }
}

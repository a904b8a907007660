/** What holds in every reachable state of the scheduler: each task is in exactly one
    place, no wakeup is lost, children lists, the task table and the open files are in
    order. */
module KernelInvariant {
  import opened Seqs
  import opened OpenFileTable
  import opened KernelState

  // ---------------- the invariant ----------------

  /** `t` is asleep in wait queue `q`, and nowhere else. */
  ghost predicate WaitsIn(s: Kernel, t: Slot, q: Queue) {
    && s.tasks[t].state == Interruptible && s.tasks[t].cont.Sleep? && QueueOf(t, s.tasks[t].cont.wait) == q
    && t !in s.runq
  }

  ghost predicate QueuesOk(s: Kernel) {
    && Distinct(s.runq)
    && (forall i :: 0 <= i < |s.runq| ==> s.tasks[s.runq[i]].state in {Queued, Interruptible} && s.runq[i] != SWAPPER)
    && (forall q: Queue :: Distinct(Waiters(s, q)))
    && (forall q: Queue, i :: 0 <= i < |Waiters(s, q)| ==> WaitsIn(s, Waiters(s, q)[i], q))
  }

  ghost predicate TaskOk(s: Kernel, t: Slot) {
    var k := s.tasks[t];
    && (k.state == Running <==> t == s.current)
    && (k.state == Queued && t != SWAPPER ==> t in s.runq)
    && (k.state == Interruptible ==> k.cont.Sleep? && (t in s.runq || t in Waiters(s, QueueOf(t, k.cont.wait))))
    && k.state != Uninterruptible
    && (t == SWAPPER ==> k.state in {Running, Queued} && k.cont in {User, Yielded(Yield)})
    && (k.cont.Yielded? ==> YieldsFirst(k.cont.call))
    && (k.cont.Sleep? && k.cont.wait.ForChild? && k.state !in {Zombie, Pooled} ==> k.cont.wait.child in k.children)
    && (k.cont.Sleep? && k.cont.wait.ForInput? ==> k.cont.wait.count > 0)
  }

  ghost predicate ChildrenOk(s: Kernel) {
    forall p: Slot ::
      && Distinct(s.tasks[p].children)
      && (s.tasks[p].state == Pooled ==> s.tasks[p].children == [])
      && forall i :: 0 <= i < |s.tasks[p].children| ==> ChildOk(s, p, s.tasks[p].children[i])
  }

  ghost predicate ChildOk(s: Kernel, p: Slot, c: Slot) {
    c != p && s.tasks[c].parent == p && s.tasks[c].state != Pooled
  }

  lemma NotOwnChild(s: Kernel, p: Slot)
    requires ChildrenOk(s)
    ensures p !in s.tasks[p].children && Distinct(s.tasks[p].children)
  {
    assert forall i :: 0 <= i < |s.tasks[p].children| ==> ChildOk(s, p, s.tasks[p].children[i]);
  }

  lemma NoCommonChild(s: Kernel, p: Slot, q: Slot)
    requires ChildrenOk(s) && p != q
    ensures forall i, j :: 0 <= i < |s.tasks[p].children| && 0 <= j < |s.tasks[q].children| ==>
      s.tasks[p].children[i] != s.tasks[q].children[j]
  {
    assert forall i :: 0 <= i < |s.tasks[p].children| ==> ChildOk(s, p, s.tasks[p].children[i]);
    assert forall i :: 0 <= i < |s.tasks[q].children| ==> ChildOk(s, q, s.tasks[q].children[i]);
  }

  ghost predicate TableOk(s: Kernel) {
    && Distinct(s.free)
    && forall t: Slot ::
      && (t in s.free <==> s.tasks[t].state == Pooled)
      && (s.tasks[t].state == Pooled ==> s.tasks[t].pid == -1)
      && (s.tasks[t].state != Pooled ==>
            s.tasks[t].pid == PidOf(t, s.tasks[t].inst) && s.allocs[t] == s.tasks[t].inst + 1 && s.tasks[t].parent != NONE)
  }

  ghost predicate NoLostWakeup(s: Kernel) {
    && (forall c: Slot :: Waiters(s, ExitOf(c)) != [] ==> s.tasks[c].state != Zombie)
    && (forall p: Slot, i :: Waiters(s, ChildOf(p)) != [] && 0 <= i < |s.tasks[p].children|
                        ==> s.tasks[s.tasks[p].children[i]].state != Zombie)
    && (forall y: Tty :: Waiters(s, InputOf(y)) != [] ==> s.input[y] == [])
    && (forall y: Tty :: |s.input[y]| <= TTY_INPUT_BUF_SIZE)
  }

  ghost predicate FilesOk(s: Kernel) {
    && Partition(s.files)
    && forall t: Slot :: s.tasks[t].state in {Pooled, Zombie} ==> HoldsNone(s.files, t)
  }

  /** The invariant of the states between two dispatches too, where no task is current. */
  ghost predicate Ok(s: Kernel) {
    QueuesOk(s) && (forall t: Slot :: TaskOk(s, t)) && ChildrenOk(s) && TableOk(s) && NoLostWakeup(s) && FilesOk(s)
  }

  ghost predicate Inv(s: Kernel) {
    Ok(s) && s.current != NONE
  }

  // ---------------- switching ----------------

  /** sched_schedule for a processor that nobody holds. */
  function Take(s: Kernel): Kernel {
    var next := if s.runq == [] then SWAPPER else s.runq[0];
    Put(s, next, s.tasks[next].(state := Running))
      .(runq := if s.runq == [] then [] else s.runq[1..], ticks := s.ticks + 1, current := next)
  }

  /** The current task gives up the processor and stays runnable. */
  function Park(s: Kernel): Kernel
    requires s.current != NONE
  {
    var queued := Put(s, s.current, s.tasks[s.current].(state := Queued)).(current := NONE);
    if s.current == SWAPPER then queued else Enqueue(queued, s.current)
  }

  /** `r` differs from `s` in no fact about kinship and table slots. */
  ghost predicate SameKin(s: Kernel, r: Kernel) {
    r.free == s.free && r.allocs == s.allocs && forall t: Slot :: SameTaskKin(s.tasks[t], r.tasks[t])
  }

  ghost predicate SameTaskKin(k: Task, l: Task) {
    && l.pid == k.pid && l.parent == k.parent && l.children == k.children && l.inst == k.inst
    && (l.state == Pooled <==> k.state == Pooled)
  }

  /** ... nor about who is dead and what is open. */
  ghost predicate SameLife(s: Kernel, r: Kernel) {
    && SameKin(s, r) && r.files == s.files
    && forall t: Slot :: r.tasks[t].state == Zombie <==> s.tasks[t].state == Zombie
  }

  ghost predicate SameWaiters(s: Kernel, r: Kernel) {
    forall q: Queue :: Waiters(r, q) == Waiters(s, q)
  }

  lemma KinKept(s: Kernel, r: Kernel)
    requires ChildrenOk(s) && TableOk(s) && SameKin(s, r)
    ensures ChildrenOk(r) && TableOk(r)
  {
    forall t: Slot ensures SameTaskKin(s.tasks[t], r.tasks[t]) {}
    forall p: Slot, i | 0 <= i < |r.tasks[p].children| ensures ChildOk(r, p, r.tasks[p].children[i]) {
      assert ChildOk(s, p, s.tasks[p].children[i]);
    }
  }

  lemma LifeKept(s: Kernel, r: Kernel)
    requires ChildrenOk(s) && TableOk(s) && FilesOk(s) && SameLife(s, r)
    ensures ChildrenOk(r) && TableOk(r) && FilesOk(r)
  {
    KinKept(s, r);
    forall t: Slot ensures SameTaskKin(s.tasks[t], r.tasks[t]) {}
  }

  lemma NoLossKept(s: Kernel, r: Kernel)
    requires NoLostWakeup(s) && SameLife(s, r) && r.input == s.input
    requires forall q: Queue :: Waiters(r, q) == [] || Waiters(r, q) == Waiters(s, q)
    ensures NoLostWakeup(r)
  {
    forall t: Slot ensures SameTaskKin(s.tasks[t], r.tasks[t]) {}
  }

  lemma TakeTasksOk(s: Kernel)
    requires QueuesOk(s) && (forall t: Slot :: TaskOk(s, t)) && s.current == NONE
    ensures forall t: Slot :: TaskOk(Take(s), t)
  {
    var next := if s.runq == [] then SWAPPER else s.runq[0];
    assert TaskOk(s, next);
    forall t: Slot ensures TaskOk(Take(s), t) {
      assert TaskOk(s, t);
      assert SameWaiters(s, Take(s));
    }
  }

  lemma TakeQueuesOk(s: Kernel)
    requires QueuesOk(s) && TaskOk(s, SWAPPER)
    ensures QueuesOk(Take(s)) && SameWaiters(s, Take(s))
  {
    var r := Take(s);
    assert SameWaiters(s, r);
    forall q: Queue, i | 0 <= i < |Waiters(r, q)| ensures WaitsIn(r, Waiters(r, q)[i], q) {
      assert WaitsIn(s, Waiters(s, q)[i], q);
    }
  }

  lemma TakeOk(s: Kernel)
    requires Ok(s) && s.current == NONE
    ensures Inv(Take(s)) && Schedule(s) == Take(s)
  {
    assert TaskOk(s, SWAPPER);
    TakeQueuesOk(s);
    TakeTasksOk(s);
    TakeSameLife(s);
    LifeKept(s, Take(s));
    NoLossKept(s, Take(s));
  }

  lemma TakeSameLife(s: Kernel)
    requires QueuesOk(s) && TaskOk(s, SWAPPER)
    ensures SameLife(s, Take(s))
  {
  }

  lemma ParkQueuesOk(s: Kernel)
    requires Inv(s)
    ensures QueuesOk(Park(s)) && SameWaiters(s, Park(s))
  {
    var r := Park(s);
    assert TaskOk(s, s.current);
    assert SameWaiters(s, r);
    forall q: Queue, i | 0 <= i < |Waiters(r, q)| ensures WaitsIn(r, Waiters(r, q)[i], q) {
      assert WaitsIn(s, Waiters(s, q)[i], q);
    }
  }

  lemma ParkOk(s: Kernel)
    requires Inv(s)
    ensures Ok(Park(s)) && Park(s).current == NONE
  {
    assert TaskOk(s, s.current);
    ParkQueuesOk(s);
    forall t: Slot ensures TaskOk(Park(s), t) {
      assert TaskOk(s, t);
    }
    LifeKept(s, Park(s));
    NoLossKept(s, Park(s));
  }

  lemma ScheduleSplits(s: Kernel)
    requires s.current != NONE && s.tasks[s.current].state == Running
    requires forall i :: 0 <= i < |s.runq| ==> s.runq[i] != SWAPPER && s.runq[i] != s.current
    ensures s.runq == [] ==> Schedule(s) == s.(ticks := s.ticks + 1)
    ensures s.runq != [] ==> Schedule(s) == Take(Park(s))
  {
    if s.runq != [] {
      var rest := s.runq[1..];
      assert s.runq + [s.current] == [s.runq[0]] + (rest + [s.current]);
    }
  }

  /** A change of nothing that the invariant looks at. */
  lemma OkKept(s: Kernel, r: Kernel)
    requires Ok(s)
    requires r == s.(ticks := r.ticks, waitq := r.waitq, active := r.active) && SameWaiters(s, r)
    ensures Ok(r)
  {
    forall t: Slot ensures TaskOk(r, t) {
      assert TaskOk(s, t);
    }
    LifeKept(s, r);
    NoLossKept(s, r);
  }

  lemma ScheduleOk(s: Kernel)
    requires Inv(s)
    ensures Inv(Schedule(s))
    ensures s.runq == [] ==> Schedule(s) == s.(ticks := s.ticks + 1)
    ensures s.runq != [] ==> Schedule(s) == Take(Park(s))
  {
    assert TaskOk(s, s.current);
    ScheduleSplits(s);
    if s.runq == [] {
      OkKept(s, Schedule(s));
    } else {
      ParkOk(s);
      TakeOk(Park(s));
    }
  }

  // ---------------- wait queues ----------------

  /** The current task as wait_event leaves it: asleep, in the queue of `w`, and off the
      processor. */
  function Doze(s: Kernel, w: Wait): Kernel
    requires s.current != NONE
  {
    var q := QueueOf(s.current, w);
    SetWaiters(Put(s, s.current, s.tasks[s.current].(state := Interruptible, cont := Sleep(w))),
               q, Waiters(s, q) + [s.current])
      .(current := NONE)
  }

  /** The wait makes sense for the current task. */
  ghost predicate MayWait(s: Kernel, w: Wait)
    requires s.current != NONE
  {
    && s.current != SWAPPER && (w.ForChild? ==> w.child in s.tasks[s.current].children)
    && (w.ForInput? ==> w.count > 0)
  }

  lemma DozeIsWaitLoop(s: Kernel, w: Wait)
    requires s.current != NONE && !Holds(s, s.current, w)
    ensures WaitLoop(s, w) == Schedule(Doze(s, w))
  {
    var q := QueueOf(s.current, w);
    var asleep := Put(s, s.current, s.tasks[s.current].(state := Interruptible, cont := Sleep(w)));
    var queued := SetWaiters(asleep, q, Waiters(s, q) + [s.current]);
    assert queued.(current := NONE) == Doze(s, w);
    assert WaitLoop(s, w) == Schedule(queued);
    assert Asleep(queued.tasks[s.current]);
  }

  lemma DozeWaiters(s: Kernel, w: Wait)
    requires Inv(s)
    ensures var me, q := s.current, QueueOf(s.current, w);
      && me !in Waiters(s, q)
      && me !in s.runq
      && forall q' :: Waiters(Doze(s, w), q') == if q' == q then Waiters(s, q) + [me] else Waiters(s, q')
  {
    assert TaskOk(s, s.current);
  }

  lemma DozeTasksOk(s: Kernel, w: Wait)
    requires Inv(s) && MayWait(s, w)
    ensures forall t: Slot :: TaskOk(Doze(s, w), t)
  {
    DozeWaiters(s, w);
    forall t: Slot ensures TaskOk(Doze(s, w), t) {
      assert TaskOk(s, t);
    }
  }

  lemma DozeWaitsIn(s: Kernel, w: Wait, q: Queue, i: nat)
    requires Inv(s) && MayWait(s, w) && i < |Waiters(Doze(s, w), q)|
    ensures WaitsIn(Doze(s, w), Waiters(Doze(s, w), q)[i], q)
  {
    DozeWaiters(s, w);
    assert TaskOk(s, s.current);
    if i < |Waiters(s, q)| {
      assert WaitsIn(s, Waiters(s, q)[i], q);
    }
  }

  lemma DozeQueuesOk(s: Kernel, w: Wait)
    requires Inv(s) && MayWait(s, w)
    ensures QueuesOk(Doze(s, w))
  {
    DozeWaiters(s, w);
    DistinctAppend(Waiters(s, QueueOf(s.current, w)), s.current);
    forall q: Queue, i | 0 <= i < |Waiters(Doze(s, w), q)| ensures WaitsIn(Doze(s, w), Waiters(Doze(s, w), q)[i], q) {
      DozeWaitsIn(s, w, q, i);
    }
  }

  lemma DozeLosesNone(s: Kernel, w: Wait)
    requires Inv(s) && MayWait(s, w) && !Holds(s, s.current, w)
    ensures NoLostWakeup(Doze(s, w))
  {
    var r := Doze(s, w);
    DozeWaiters(s, w);
    assert TaskOk(s, s.current);
    assert forall t: Slot :: r.tasks[t].state == Zombie <==> s.tasks[t].state == Zombie;
    forall p: Slot, i | Waiters(r, ChildOf(p)) != [] && 0 <= i < |r.tasks[p].children|
      ensures r.tasks[r.tasks[p].children[i]].state != Zombie
    {
      assert r.tasks[p].children == s.tasks[p].children;
    }
  }

  lemma DozeOk(s: Kernel, w: Wait)
    requires Inv(s) && MayWait(s, w) && !Holds(s, s.current, w)
    ensures Ok(Doze(s, w))
    ensures WaitLoop(s, w) == Take(Doze(s, w)) && Inv(WaitLoop(s, w))
  {
    DozeQueuesOk(s, w);
    DozeTasksOk(s, w);
    DozeLosesNone(s, w);
    assert TaskOk(s, s.current);
    LifeKept(s, Doze(s, w));
    DozeIsWaitLoop(s, w);
    TakeOk(Doze(s, w));
  }

  lemma {:induction false} AllAsleep(s: Kernel, ts: seq<Slot>, n: nat)
    requires n <= |ts| && forall i :: 0 <= i < |ts| ==> Asleep(s.tasks[ts[i]])
    ensures Sleepers(s.tasks, ts, n) == ts[..n]
  {
    if n > 0 {
      AllAsleep(s, ts, n - 1);
    }
  }

  /** Waking a queue moves all its tasks, in order, to the end of the run queue. */
  lemma WakeupMoves(s: Kernel, q: Queue)
    requires QueuesOk(s)
    ensures Wakeup(s, q) == SetWaiters(s.(runq := s.runq + Waiters(s, q)), q, [])
  {
    var ws := Waiters(s, q);
    AllAsleep(s, ws, |ws|);
    assert ws[..|ws|] == ws;
  }

  lemma WakeupQueuesOk(s: Kernel, q: Queue)
    requires QueuesOk(s) && forall t: Slot :: TaskOk(s, t)
    ensures var r := Wakeup(s, q); QueuesOk(r) && forall t: Slot :: TaskOk(r, t)
    ensures forall q': Queue :: Waiters(Wakeup(s, q), q') == if q' == q then [] else Waiters(s, q')
  {
    var r := Wakeup(s, q);
    WakeupMoves(s, q);
    forall q': Queue ensures Waiters(r, q') == if q' == q then [] else Waiters(s, q') {}
    DistinctConcat(s.runq, Waiters(s, q));
    forall i | 0 <= i < |r.runq| ensures s.tasks[r.runq[i]].state in {Queued, Interruptible} && r.runq[i] != SWAPPER {
      assert TaskOk(s, r.runq[i]);
    }
    forall t: Slot ensures TaskOk(r, t) {
      assert TaskOk(s, t);
    }
    forall q': Queue, i | 0 <= i < |Waiters(r, q')| ensures WaitsIn(r, Waiters(r, q')[i], q') {
      var t := Waiters(s, q')[i];
      assert WaitsIn(s, t, q');
    }
  }

  // ---------------- the current task goes on ----------------

  /** Changes of a task that move it nowhere. */
  ghost predicate Touches(s: Kernel, t: Slot, k: Task) {
    && k == s.tasks[t].(cont := k.cont, ret := k.ret, pending := k.pending)
    && (k.cont == s.tasks[t].cont || (t == s.current && NewCont(t, k.cont)))
  }

  /** The continuations that a task takes on without going to sleep. */
  predicate NewCont(t: Slot, c: Cont) {
    match c
    case User => true
    case ReadAgain(_, _) => t != SWAPPER
    case Yielded(call) => YieldsFirst(call) && (t == SWAPPER ==> call == Yield)
    case Sleep(_) => false
  }

  lemma TouchQueuesOk(s: Kernel, t: Slot, k: Task)
    requires QueuesOk(s) && (forall u: Slot :: TaskOk(s, u)) && Touches(s, t, k)
    ensures QueuesOk(Put(s, t, k)) && SameWaiters(s, Put(s, t, k))
  {
    var r := Put(s, t, k);
    assert SameWaiters(s, r);
    assert TaskOk(s, t);
    forall q: Queue, i | 0 <= i < |Waiters(r, q)| ensures WaitsIn(r, Waiters(r, q)[i], q) {
      assert WaitsIn(s, Waiters(s, q)[i], q);
    }
  }

  lemma TouchOk(s: Kernel, t: Slot, k: Task)
    requires Ok(s) && Touches(s, t, k)
    ensures Ok(Put(s, t, k))
  {
    TouchQueuesOk(s, t, k);
    forall u: Slot ensures TaskOk(Put(s, t, k), u) {
      assert TaskOk(s, u);
    }
    LifeKept(s, Put(s, t, k));
    NoLossKept(s, Put(s, t, k));
  }

  lemma ReturnOk(s: Kernel, r: int)
    requires Inv(s)
    ensures Inv(Return(s, r))
  {
    TouchOk(s, s.current, s.tasks[s.current].(cont := User, ret := r));
  }

  /** The file calls change only descriptors of the current task. */
  lemma FilesChanged(s: Kernel, files: FileTable, r: int)
    requires Inv(s) && Partition(files) && OthersKept(s.files, files, s.current)
    ensures Inv(Return(s.(files := files), r))
  {
    var f := s.(files := files);
    assert SameWaiters(s, f);
    forall t: Slot ensures TaskOk(f, t) {
      assert TaskOk(s, t);
    }
    assert FilesOk(f) by {
      assert TaskOk(s, s.current);
      forall t: Slot | s.tasks[t].state in {Pooled, Zombie} ensures HoldsNone(files, t) {
        assert HoldsNone(s.files, t);
      }
    }
    ReturnOk(f, r);
  }

  // ---------------- exit ----------------

  /** sched_exit up to its sched_schedule. */
  function Bury(s: Kernel, status: int): Kernel
    requires s.current != NONE
  {
    var t, parent := s.current, s.tasks[s.current].parent;
    var woken := Wakeup(Dead(s, status), ExitOf(t));
    if parent == t || parent == NONE then woken else Wakeup(woken, ChildOf(parent))
  }

  function Dead(s: Kernel, status: int): Kernel
    requires s.current != NONE
  {
    var t := s.current;
    Put(s, t, s.tasks[t].(exitStatus := status, state := Zombie))
      .(files := CloseFrom(s.files, t, 0), trace := s.trace + [Exited(ProcessAt(s, t), status)], current := NONE)
  }

  lemma BuryIsExit(s: Kernel, status: int)
    requires s.current != NONE
    ensures DoExit(s, status) == Schedule(Bury(s, status))
  {
  }

  lemma DeadQueuesOk(s: Kernel, status: int)
    requires Inv(s) && s.current != SWAPPER
    ensures var r := Dead(s, status); QueuesOk(r) && SameWaiters(s, r) && forall t: Slot :: TaskOk(r, t)
  {
    var r := Dead(s, status);
    assert TaskOk(s, s.current);
    assert SameWaiters(s, r);
    forall t: Slot ensures TaskOk(r, t) {
      assert TaskOk(s, t);
    }
    forall q: Queue, i | 0 <= i < |Waiters(r, q)| ensures WaitsIn(r, Waiters(r, q)[i], q) {
      assert WaitsIn(s, Waiters(s, q)[i], q);
    }
  }

  /** The queues that an exit of the current task wakes. */
  ghost predicate WokenByExit(s: Kernel, q: Queue)
    requires s.current != NONE
  {
    q == ExitOf(s.current) || (q.ChildOf? && q.task == s.tasks[s.current].parent)
  }

  lemma RunningWaitsNowhere(s: Kernel)
    requires Inv(s)
    ensures Waiters(s, ChildOf(s.current)) == []
  {
    assert TaskOk(s, s.current);
    var ws := Waiters(s, ChildOf(s.current));
    assert ws != [] ==> WaitsIn(s, ws[0], ChildOf(s.current));
  }

  lemma BuryQueuesOk(s: Kernel, status: int)
    requires Inv(s) && s.current != SWAPPER
    ensures var r := Bury(s, status); QueuesOk(r) && forall t: Slot :: TaskOk(r, t)
    ensures forall q: Queue :: Waiters(Bury(s, status), q) == if WokenByExit(s, q) then [] else Waiters(s, q)
  {
    DeadQueuesOk(s, status);
    var t, parent := s.current, s.tasks[s.current].parent;
    var dead := Dead(s, status);
    WakeupQueuesOk(dead, ExitOf(t));
    if parent != t && parent != NONE {
      WakeupQueuesOk(Wakeup(dead, ExitOf(t)), ChildOf(parent));
    } else {
      RunningWaitsNowhere(s);
    }
  }

  /** A death loses no wakeup when the dead task's own queue and its parent's are emptied. */
  lemma DeathLosesNone(s: Kernel, r: Kernel, k: Task)
    requires Inv(s) && r.input == s.input
    requires k.state == Zombie && k.children == s.tasks[s.current].children && r.tasks == s.tasks[s.current := k]
    requires forall q: Queue :: Waiters(r, q) == if WokenByExit(s, q) then [] else Waiters(s, q)
    ensures NoLostWakeup(r)
  {
    forall p: Slot, i | Waiters(r, ChildOf(p)) != [] && 0 <= i < |s.tasks[p].children|
      ensures s.tasks[p].children[i] != s.current && s.tasks[s.tasks[p].children[i]].state != Zombie
    {
      assert ChildOk(s, p, s.tasks[p].children[i]);
    }
  }

  lemma DeadSameKin(s: Kernel, status: int)
    requires Inv(s)
    ensures SameKin(s, Dead(s, status))
  {
    assert TaskOk(s, s.current);
  }

  lemma BuryKinOk(s: Kernel, status: int)
    requires Inv(s)
    ensures ChildrenOk(Bury(s, status)) && TableOk(Bury(s, status))
  {
    DeadSameKin(s, status);
    KinKept(s, Dead(s, status));
    KinKept(Dead(s, status), Bury(s, status));
  }

  lemma BuryOk(s: Kernel, status: int)
    requires Inv(s) && s.current != SWAPPER
    ensures Ok(Bury(s, status))
  {
    BuryQueuesOk(s, status);
    DeathLosesNone(s, Bury(s, status), s.tasks[s.current].(exitStatus := status, state := Zombie));
    BuryKinOk(s, status);
    BuryFilesOk(s, status);
  }

  lemma BuryFilesOk(s: Kernel, status: int)
    requires Inv(s)
    ensures FilesOk(Bury(s, status))
  {
    CloseFromKeepsPartition(s.files, s.current, 0);
    forall t: Slot | t != s.current && s.tasks[t].state in {Pooled, Zombie} ensures HoldsNone(Bury(s, status).files, t) {
      assert HoldsNone(s.files, t);
    }
  }

  lemma ExitOk(s: Kernel, status: int)
    requires Inv(s) && s.current != SWAPPER
    ensures Inv(DoExit(s, status)) && DoExit(s, status) == Take(Bury(s, status))
  {
    BuryOk(s, status);
    BuryIsExit(s, status);
    TakeOk(Bury(s, status));
  }

  /** The states inside sched_exit, which wakeup needs in order. */
  lemma ExitStages(s: Kernel, status: int)
    requires Inv(s) && s.current != SWAPPER
    ensures var dead := Dead(s, status).(current := s.current);
      && QueuesOk(dead) && QueuesOk(Wakeup(dead, ExitOf(s.current)))
      && QueuesOk(Bury(s, status).(current := s.current))
  {
    DeadQueuesOk(s, status);
    BuryQueuesOk(s, status);
    WakeupQueuesOk(Dead(s, status), ExitOf(s.current));
    var dead := Dead(s, status).(current := s.current);
    OtherCurrent(Dead(s, status), dead);
    OtherCurrent(Wakeup(Dead(s, status), ExitOf(s.current)), Wakeup(dead, ExitOf(s.current)));
    OtherCurrent(Bury(s, status), Bury(s, status).(current := s.current));
  }

  lemma OtherCurrent(s: Kernel, r: Kernel)
    requires QueuesOk(s) && r == s.(current := r.current)
    ensures QueuesOk(r)
  {
    forall q: Queue ensures Waiters(r, q) == Waiters(s, q) {}
    forall q: Queue, i | 0 <= i < |Waiters(r, q)| ensures WaitsIn(r, Waiters(r, q)[i], q) {
      assert WaitsIn(s, Waiters(s, q)[i], q);
    }
  }

  /** While a task is alive the ring of free slots has room. */
  lemma RoomWhileAlive(s: Kernel, t: Slot)
    requires TableOk(s) && s.tasks[t].state != Pooled
    ensures |s.free| < MAX_PROCESS_CNT
  {
    var free: seq<nat> := s.free;
    var all := set i | 0 <= i < |free| :: free[i];
    SetOfDistinct(free);
    AtMost(MAX_PROCESS_CNT, all + {t});
  }

  lemma LivingHasParent(s: Kernel)
    requires Inv(s)
    ensures s.tasks[s.current].parent != NONE
  {
    assert TaskOk(s, s.current);
  }

  /** The current task is neither queued for a run nor waiting. */
  lemma RunningIsUnqueued(s: Kernel)
    requires Inv(s)
    ensures s.current !in s.runq && Distinct(s.runq) && forall q: Queue :: s.current !in Waiters(s, q)
  {
    assert TaskOk(s, s.current);
    forall q: Queue ensures s.current !in Waiters(s, q) {
      forall i | 0 <= i < |Waiters(s, q)| ensures Waiters(s, q)[i] != s.current {
        assert WaitsIn(s, Waiters(s, q)[i], q);
      }
    }
  }

  /** Going to sleep is the switch from the state in which the sleeper still is current. */
  lemma DozeIsSchedule(s: Kernel, w: Wait)
    requires s.current != NONE && !Holds(s, s.current, w)
    ensures WaitLoop(s, w) == Schedule(Doze(s, w).(current := s.current))
  {
  }
}

/** Bounded waiting: the run queue is served strictly in order. */
module RoundRobin {
  import opened Seqs
  import opened OpenFileTable
  import opened KernelState
  import opened KernelInvariant
  import opened KernelRuns

  /** Without a call of sched_schedule the queue only grows at its end; one call takes its
      head onto the processor; and the swapper gets it only when nothing else is runnable. */
  ghost predicate ServesInOrder(s: Kernel, r: Kernel) {
    && s.ticks <= r.ticks <= s.ticks + 1
    && (r.ticks == s.ticks ==> s.runq <= r.runq && r.current == s.current)
    && (r.ticks == s.ticks + 1 ==>
          && (s.runq != [] ==> r.current == s.runq[0] && s.runq[1..] <= r.runq)
          && (r.current == SWAPPER ==> s.runq == [] && r.runq == []))
  }

  lemma TakeServes(s: Kernel, parked: Kernel)
    requires Ok(parked) && parked.current == NONE && parked.ticks == s.ticks && s.runq <= parked.runq
    ensures ServesInOrder(s, Take(parked))
  {
    if s.runq != [] {
      TailsOfPrefix(s.runq, parked.runq);
    }
  }

  lemma TailsOfPrefix(a: seq<Slot>, b: seq<Slot>)
    requires a <= b && a != []
    ensures b[0] == a[0] && a[1..] <= b[1..]
  {
  }

  lemma ScheduleServes(s: Kernel, s': Kernel)
    requires Inv(s) && Inv(s') && s'.runq == s.runq && s'.ticks == s.ticks && s'.current == s.current
    ensures ServesInOrder(s, Schedule(s'))
  {
    ScheduleOk(s');
    if s.runq != [] {
      ParkOk(s');
      TakeServes(s, Park(s'));
    }
  }

  lemma ExitServes(s: Kernel, s': Kernel, status: int)
    requires Inv(s') && s'.current != SWAPPER
    requires s'.runq == s.runq && s'.ticks == s.ticks
    ensures ServesInOrder(s, DoExit(s', status))
  {
    ExitOk(s', status);
    BuryOk(s', status);
    BuryAppends(s', status);
    TakeServes(s, Bury(s', status));
  }

  /** An exit only adds the woken tasks at the end of the run queue. */
  lemma BuryAppends(s: Kernel, status: int)
    requires s.current != NONE
    ensures s.runq <= Bury(s, status).runq && Bury(s, status).ticks == s.ticks && Bury(s, status).current == NONE
  {
  }

  lemma WaitLoopServes(s: Kernel, s': Kernel, w: Wait)
    requires Inv(s') && MayWait(s', w) && s'.runq == s.runq && s'.ticks == s.ticks && s'.current == s.current
    ensures ServesInOrder(s, WaitLoop(s', w))
  {
    if !Holds(s', s'.current, w) {
      DozeOk(s', w);
      TakeServes(s, Doze(s', w));
    }
  }

  lemma ResumeWaitServes(s: Kernel, w: Wait)
    requires Inv(s) && s.tasks[s.current].cont == Sleep(w)
    ensures ServesInOrder(s, ResumeWait(s, w))
  {
    var q := QueueOf(s.current, w);
    var left := SetWaiters(s, q, Without<Slot>(Waiters(s, q), s.current));
    LeftOk(s, w);
    if s.tasks[s.current].pending != {} {
      ExitServes(s, left, -1);
    } else {
      WaitLoopServes(s, left, w);
    }
  }

  lemma ExecServes(s: Kernel, result: ExecResult)
    requires Inv(s) && s.current != SWAPPER
    ensures ServesInOrder(s, DoExec(s, result))
  {
    match result
    case NotFound =>
    case LoadFailed => ExitServes(s, s, -1);
    case Loaded =>
      var k := s.tasks[s.current].(cont := User, pending := {});
      TouchOk(s, s.current, k);
      ParkOk(Put(s, s.current, k));
      LoadedIsPark(s);
      TakeOk(Park(Put(s, s.current, k)));
      TakeServes(s, Park(Put(s, s.current, k)));
  }

  lemma SuspendServes(s: Kernel, c: Cont)
    requires Inv(s) && NewCont(s.current, c)
    ensures ServesInOrder(s, Schedule(Suspend(s, c)))
  {
    TouchOk(s, s.current, s.tasks[s.current].(cont := c));
    ScheduleServes(s, Suspend(s, c));
  }

  lemma BodyServes(s: Kernel, call: Call)
    requires Inv(s) && MayCall(s, call)
    ensures ServesInOrder(s, Body(s, call))
  {
    if IsPlain(call) {
      PlainBodyServes(s, call);
    } else {
      match call
      case Read(y, count) => SuspendServes(s, ReadAgain(y, count));
      case Exec(result) => ExecServes(s, result);
      case Exit(status) => ExitServes(s, s, status);
      case WaitPid(pid, options) => WaitPidServes(s, pid, options);
      case Fork => ForkServes(s);
      case Kill(pid, sig) => KillServes(s, pid, sig);
    }
  }

  lemma PlainBodyServes(s: Kernel, call: Call)
    requires s.current != NONE && IsPlain(call)
    ensures ServesInOrder(s, PlainBody(s, call))
  {
  }

  lemma ForkServes(s: Kernel)
    requires s.current != NONE
    ensures ServesInOrder(s, DoFork(s))
  {
  }

  lemma KillServes(s: Kernel, pid: int, sig: int)
    requires s.current != NONE
    ensures ServesInOrder(s, DoKill(s, pid, sig))
  {
  }

  lemma WaitPidServes(s: Kernel, pid: int, options: int)
    requires Inv(s) && s.current != SWAPPER
    ensures ServesInOrder(s, DoWaitPid(s, pid, options))
  {
    var c := FindPid(s.tasks, s.tasks[s.current].children, pid);
    if pid > 0 && c != NONE {
      WaitLoopServes(s, s, ForChild(c));
    } else if pid == -1 {
      WaitLoopServes(s, s, ForAnyChild);
    }
  }

  lemma StepServes(s: Kernel, l: Label)
    requires Inv(s) && Allowed(s, l)
    ensures ServesInOrder(s, Step(s, l))
  {
    assert TaskOk(s, s.current);
    match l
    case Syscall(call) =>
      if YieldsFirst(call) {
        SuspendServes(s, Yielded(call));
      } else {
        BodyServes(s, call);
      }
    case Resume =>
      match s.tasks[s.current].cont {
        case Yielded(call) => BodyServes(s, call);
        case ReadAgain(y, count) =>
          if count > 0 {
            WaitLoopServes(s, s, ForInput(y, count));
          }
        case Sleep(w) => ResumeWaitServes(s, w);
      }
    case Key(_) =>
    case Activate(_) =>
  }

  lemma {:induction false} SegmentInv(ss: seq<Kernel>, ls: seq<Label>, i: nat)
    requires Segment(ss, ls) && Inv(ss[0]) && i < |ss|
    ensures Inv(ss[i])
    ensures i > 0 ==> ServesInOrder(ss[i - 1], ss[i])
  {
    if i > 0 {
      SegmentInv(ss, ls, i - 1);
      StepServes(ss[i - 1], ls[i - 1]);
      StepOk(ss[i - 1], ls[i - 1]);
    }
  }

  lemma QueuedIsNotCurrent(s: Kernel, j: nat)
    requires Inv(s) && j < |s.runq|
    ensures s.runq[j] != s.current
  {
    assert TaskOk(s, s.current);
  }

  /** How far the task at index `k` of `s` has come after `turns` calls. */
  ghost predicate MovedUp(s: Kernel, r: Kernel, k: nat, turns: int)
    requires k < |s.runq|
  {
    (0 <= turns <= k ==> k - turns < |r.runq| && r.runq[k - turns] == s.runq[k] && r.current != s.runq[k])
  }

  lemma MovesUp(s: Kernel, p: Kernel, r: Kernel, k: nat, turns: nat)
    requires k < |s.runq| && MovedUp(s, p, k, turns) && ServesInOrder(p, r) && Inv(r)
    ensures MovedUp(s, r, k, turns + r.ticks - p.ticks)
    ensures turns == k && r.ticks == p.ticks + 1 ==> r.current == s.runq[k]
  {
    var now := turns + r.ticks - p.ticks;
    if now <= k {
      assert r.ticks == p.ticks + 1 ==> p.runq[1..][k - now] == p.runq[k - turns];
      QueuedIsNotCurrent(r, k - now);
    }
  }

  /** The task at index `k` of the run queue waits there for `k` calls of sched_schedule,
      moving up one index at each, and the next call makes it current, whatever the steps
      in between are. */
  lemma {:induction false} ServedAfterKTurns(ss: seq<Kernel>, ls: seq<Label>, k: nat, i: nat)
    requires Segment(ss, ls) && Inv(ss[0]) && k < |ss[0].runq| && i < |ss|
    ensures ss[0].ticks <= ss[i].ticks && MovedUp(ss[0], ss[i], k, ss[i].ticks - ss[0].ticks)
    ensures i > 0 ==> ss[i].ticks - ss[i - 1].ticks in {0, 1}
    ensures i > 0 && ss[i - 1].ticks == ss[0].ticks + k && ss[i].ticks == ss[0].ticks + k + 1
            ==> ss[i].current == ss[0].runq[k]
  {
    SegmentInv(ss, ls, i);
    if i == 0 {
      QueuedIsNotCurrent(ss[0], k);
    } else {
      ServedAfterKTurns(ss, ls, k, i - 1);
      NextTurn(ss[0], ss[i - 1], ss[i], k);
    }
  }

  lemma NextTurn(s: Kernel, p: Kernel, r: Kernel, k: nat)
    requires k < |s.runq| && s.ticks <= p.ticks && MovedUp(s, p, k, p.ticks - s.ticks) && ServesInOrder(p, r) && Inv(r)
    ensures s.ticks <= r.ticks && MovedUp(s, r, k, r.ticks - s.ticks) && r.ticks - p.ticks in {0, 1}
    ensures p.ticks == s.ticks + k && r.ticks == s.ticks + k + 1 ==> r.current == s.runq[k]
  {
    MovesUp(s, p, r, k, p.ticks - s.ticks);
  }

  // ---------------- sleepers ----------------

  /** A count that goes up by at most one at a time passes every value on its way. */
  lemma {:induction false} TicksPass(ss: seq<Kernel>, n: int, j: nat) returns (m: nat)
    requires j < |ss| && ss[0].ticks <= n < ss[j].ticks
    requires forall m {:trigger ss[m]} :: 0 < m < |ss| ==> ss[m].ticks - ss[m - 1].ticks in {0, 1}
    ensures 0 < m <= j && ss[m - 1].ticks == n && ss[m].ticks == n + 1
  {
    m := j;
    if ss[j - 1].ticks > n {
      m := TicksPass(ss, n, j - 1);
    }
  }

  lemma BecomesCurrent(ss: seq<Kernel>, ls: seq<Label>, k: nat, j: nat) returns (m: nat)
    requires Segment(ss, ls) && Inv(ss[0]) && k < |ss[0].runq| && j < |ss| && ss[j].ticks > ss[0].ticks + k
    ensures 0 < m <= j && ss[m].ticks == ss[0].ticks + k + 1 && ss[m].current == ss[0].runq[k]
  {
    forall i | 0 < i < |ss| ensures ss[i].ticks - ss[i - 1].ticks in {0, 1} {
      ServedAfterKTurns(ss, ls, k, i);
    }
    m := TicksPass(ss, ss[0].ticks + k, j);
    ServedAfterKTurns(ss, ls, k, m);
  }

  lemma RunQueueBound(s: Kernel)
    requires Inv(s)
    ensures |s.runq| < MAX_PROCESS_CNT
  {
    var queued: seq<nat> := s.runq;
    var all := set i | 0 <= i < |queued| :: queued[i];
    SetOfDistinct(queued);
    AtMost(MAX_PROCESS_CNT, all + {SWAPPER});
  }

  /** Task `t` gets the processor between states `i` and `j`, by call number `n` of
      sched_schedule after `i`. */
  ghost predicate RunsBetween(ss: seq<Kernel>, i: nat, j: nat, t: Slot, n: int)
    requires i < |ss| && j < |ss|
  {
    exists m :: i < m <= j && ss[m].current == t && ss[m].ticks == ss[i].ticks + n
  }

  /** No wakeup is lost and no woken sleeper starves: in every run a sleeper whose condition
      holds stands somewhere on the run queue and becomes current at exactly the call of
      sched_schedule that its index says, which is one of the next 63. */
  lemma WokenSleeperRuns(ss: seq<Kernel>, ls: seq<Label>, i: nat, j: nat, t: Slot)
    requires Run(ss, ls) && i <= j < |ss| && ss[i].tasks[t].state == Interruptible
    requires ss[i].tasks[t].cont.Sleep? ==> Holds(ss[i], t, ss[i].tasks[t].cont.wait)
    ensures exists k :: 0 <= k < |ss[i].runq| < MAX_PROCESS_CNT && ss[i].runq[k] == t
                   && (ss[j].ticks > ss[i].ticks + k ==> RunsBetween(ss, i, j, t, k + 1))
  {
    RunInv(ss, ls, i);
    RunQueueBound(ss[i]);
    SleeperIsWoken(ss, ls, i, t);
    var k :| 0 <= k < |ss[i].runq| && ss[i].runq[k] == t;
    var tail, steps := ss[i..], ls[i..];
    if ss[j].ticks > ss[i].ticks + k {
      assert tail[0] == ss[i] && tail[j - i] == ss[j];
      assert forall n :: 0 <= n < |steps| ==> Allowed(tail[n], steps[n]) && tail[n + 1] == Step(tail[n], steps[n]);
      var m := BecomesCurrent(tail, steps, k, j - i);
      assert tail[m] == ss[i + m];
      assert RunsBetween(ss, i, j, t, k + 1);
    }
  }
}

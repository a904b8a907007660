/** Each exit status is collected at most once, by the parent, after the exit. */
module Reaping {
  import opened Seqs
  import opened OpenFileTable
  import opened KernelState
  import opened KernelInvariant
  import opened KernelRuns

  // ---------------- the history invariant ----------------

  /** The process that an event is about: the one born, dead or collected. */
  function Subject(e: Event): Process {
    match e
    case Forked(_, c) => c
    case Exited(p, _) => p
    case Reaped(_, c, _, _) => c
  }

  /** The life of a process is told in order: a fork before its exit, the exit with the
      reported status before its only reaping. */
  ghost predicate TraceOk(trace: seq<Event>) {
    && (forall i, j :: 0 <= i < j < |trace| && Subject(trace[i]) == Subject(trace[j]) ==> Follows(trace[i], trace[j]))
    && (forall j :: 0 <= j < |trace| && trace[j].Reaped? ==>
          && Exited(trace[j].child, trace[j].status) in trace[..j]
          && Forked(trace[j].waiter, trace[j].child) in trace[..j])
  }

  /** `e` may stand before `f` in the life of their process. */
  predicate Follows(e: Event, f: Event) {
    match e
    case Forked(_, _) => !f.Forked?
    case Exited(_, _) => f.Reaped?
    case Reaped(_, _, _, _) => false
  }

  /** What the trace says about the task in slot `t`. */
  ghost predicate TaskTold(s: Kernel, t: Slot) {
    var k, p := s.tasks[t], ProcessAt(s, t);
    && (forall i :: 0 <= i < |s.trace| && Subject(s.trace[i]).slot == t ==> Subject(s.trace[i]).inst < s.allocs[t])
    && (k.state != Pooled ==>
          && (forall i :: 0 <= i < |s.trace| && Subject(s.trace[i]) == p ==>
                !s.trace[i].Reaped? && (k.state != Zombie ==> s.trace[i].Forked?))
          && (k.state == Zombie ==> Exited(p, k.exitStatus) in s.trace)
          && forall i :: 0 <= i < |k.children| ==> Forked(p, ProcessAt(s, k.children[i])) in s.trace)
  }

  ghost predicate Told(s: Kernel) {
    TraceOk(s.trace) && forall t: Slot :: TaskTold(s, t)
  }

  // ---------------- what a step does to lives ----------------

  ghost predicate SameStory(k: Task, l: Task) {
    && l.inst == k.inst && l.children == k.children
    && (l.state == Pooled <==> k.state == Pooled) && (l.state == Zombie <==> k.state == Zombie)
    && (k.state == Zombie ==> l.exitStatus == k.exitStatus)
  }

  ghost predicate Quiet(s: Kernel, r: Kernel) {
    && r.trace == s.trace && r.allocs == s.allocs
    && forall t: Slot :: SameStory(s.tasks[t], r.tasks[t])
  }

  ghost predicate Dies(s: Kernel, r: Kernel, t: Slot, status: int) {
    && r.trace == s.trace + [Exited(ProcessAt(s, t), status)] && r.allocs == s.allocs
    && s.tasks[t].state !in {Pooled, Zombie} && r.tasks[t].state == Zombie && r.tasks[t].exitStatus == status
    && r.tasks[t].inst == s.tasks[t].inst && r.tasks[t].children == s.tasks[t].children
    && forall u: Slot :: u != t ==> SameStory(s.tasks[u], r.tasks[u])
  }

  ghost predicate Bears(s: Kernel, r: Kernel, t: Slot, c: Slot) {
    && c != t && s.tasks[c].state == Pooled && s.tasks[c].children == [] && s.tasks[t].state !in {Pooled, Zombie}
    && r.trace == s.trace + [Forked(ProcessAt(s, t), Process(c, s.allocs[c]))]
    && r.allocs == s.allocs[c := s.allocs[c] + 1]
    && r.tasks[t] == s.tasks[t].(children := [c] + s.tasks[t].children, cont := r.tasks[t].cont, ret := r.tasks[t].ret)
    && r.tasks[c].state == Queued && r.tasks[c].inst == s.allocs[c] && r.tasks[c].children == []
    && forall u: Slot :: u != t && u != c ==> SameStory(s.tasks[u], r.tasks[u])
  }

  ghost predicate Collects(s: Kernel, r: Kernel, t: Slot, c: Slot) {
    && c != t && c in s.tasks[t].children && s.tasks[c].state == Zombie && s.tasks[t].state !in {Pooled, Zombie}
    && r.trace == s.trace + [Reaped(ProcessAt(s, t), ProcessAt(s, c), s.tasks[c].exitStatus, s.tasks[c].pid)]
    && r.allocs == s.allocs
    && r.tasks[t] == s.tasks[t].(children := Without<Slot>(s.tasks[t].children, c), cont := r.tasks[t].cont, ret := r.tasks[t].ret)
    && r.tasks[c].state == Pooled
    && forall u: Slot :: u != t && u != c ==> SameStory(s.tasks[u], r.tasks[u])
  }

  /** Every step either leaves all lives alone or is one birth, death or collection. */
  ghost predicate OneEvent(s: Kernel, r: Kernel) {
    || Quiet(s, r)
    || (exists t: Slot, status :: Dies(s, r, t, status))
    || (exists t: Slot, c: Slot :: Bears(s, r, t, c))
    || (exists t: Slot, c: Slot :: Collects(s, r, t, c))
  }

  lemma QuietTold(s: Kernel, r: Kernel)
    requires Told(s) && ChildrenOk(s) && Quiet(s, r)
    ensures Told(r)
  {
    forall t: Slot ensures TaskTold(r, t) {
      assert TaskTold(s, t) && SameStory(s.tasks[t], r.tasks[t]);
      forall i | 0 <= i < |s.tasks[t].children|
        ensures ProcessAt(r, s.tasks[t].children[i]) == ProcessAt(s, s.tasks[t].children[i])
      {
        assert SameStory(s.tasks[s.tasks[t].children[i]], r.tasks[s.tasks[t].children[i]]);
      }
    }
  }

  lemma TraceGrows(trace: seq<Event>, e: Event)
    requires TraceOk(trace)
    requires forall i :: 0 <= i < |trace| && Subject(trace[i]) == Subject(e) ==> Follows(trace[i], e)
    requires e.Reaped? ==> Exited(e.child, e.status) in trace && Forked(e.waiter, e.child) in trace
    ensures TraceOk(trace + [e])
  {
    var longer := trace + [e];
    forall j | 0 <= j < |longer| ensures longer[..j] == trace[..j] {}
    assert trace[..|trace|] == trace;
  }

  lemma DiesTold(s: Kernel, r: Kernel, t: Slot, status: int)
    requires Told(s) && TableOk(s) && Dies(s, r, t, status)
    ensures Told(r)
  {
    assert TaskTold(s, t);
    TraceGrows(s.trace, Exited(ProcessAt(s, t), status));
    forall u: Slot ensures TaskTold(r, u) {
      assert TaskTold(s, u);
      assert u != t ==> SameStory(s.tasks[u], r.tasks[u]);
      SameNames(s, r, s.tasks[u].children);
    }
  }

  /** Tasks that keep their allocation keep their process. */
  lemma SameNames(s: Kernel, r: Kernel, ts: seq<Slot>)
    requires forall i :: 0 <= i < |ts| ==> r.tasks[ts[i]].inst == s.tasks[ts[i]].inst
    ensures forall i :: 0 <= i < |ts| ==> ProcessAt(r, ts[i]) == ProcessAt(s, ts[i])
  {
  }

  lemma BearsTold(s: Kernel, r: Kernel, t: Slot, c: Slot)
    requires Told(s) && ChildrenOk(s) && TableOk(s) && Bears(s, r, t, c)
    ensures Told(r)
  {
    assert TaskTold(s, t) && TaskTold(s, c);
    TraceGrows(s.trace, Forked(ProcessAt(s, t), Process(c, s.allocs[c])));
    forall u: Slot ensures TaskTold(r, u) {
      BearsTaskTold(s, r, t, c, u);
    }
  }

  lemma BearsTaskTold(s: Kernel, r: Kernel, t: Slot, c: Slot, u: Slot)
    requires Told(s) && ChildrenOk(s) && TableOk(s) && Bears(s, r, t, c)
    ensures TaskTold(r, u)
  {
    assert TaskTold(s, u) && TaskTold(s, c);
    if u != c {
      assert u != t ==> SameStory(s.tasks[u], r.tasks[u]);
      forall i | 0 <= i < |s.tasks[u].children|
        ensures ProcessAt(r, s.tasks[u].children[i]) == ProcessAt(s, s.tasks[u].children[i])
      {
        var x := s.tasks[u].children[i];
        assert ChildOk(s, u, x);
        assert x != t && x != c ==> SameStory(s.tasks[x], r.tasks[x]);
      }
    }
  }

  lemma CollectsTold(s: Kernel, r: Kernel, t: Slot, c: Slot)
    requires Told(s) && ChildrenOk(s) && TableOk(s) && Collects(s, r, t, c)
    ensures Told(r)
  {
    var e := Reaped(ProcessAt(s, t), ProcessAt(s, c), s.tasks[c].exitStatus, s.tasks[c].pid);
    assert TaskTold(s, t) && TaskTold(s, c);
    assert Forked(e.waiter, e.child) in s.trace by {
      var i :| 0 <= i < |s.tasks[t].children| && s.tasks[t].children[i] == c;
      assert Forked(ProcessAt(s, t), ProcessAt(s, s.tasks[t].children[i])) in s.trace;
    }
    CollectionFollows(s, t, c, e);
    TraceGrows(s.trace, e);
    forall u: Slot ensures TaskTold(r, u) {
      CollectsTaskTold(s, r, t, c, u);
    }
  }

  lemma CollectionFollows(s: Kernel, t: Slot, c: Slot, e: Event)
    requires TaskTold(s, c) && s.tasks[c].state == Zombie && e.Reaped? && e.child == ProcessAt(s, c)
    ensures forall i :: 0 <= i < |s.trace| && Subject(s.trace[i]) == Subject(e) ==> Follows(s.trace[i], e)
  {
  }

  lemma CollectsTaskTold(s: Kernel, r: Kernel, t: Slot, c: Slot, u: Slot)
    requires Told(s) && ChildrenOk(s) && TableOk(s) && Collects(s, r, t, c)
    ensures TaskTold(r, u)
  {
    assert TaskTold(s, u) && TaskTold(s, c);
    assert u != t && u != c ==> SameStory(s.tasks[u], r.tasks[u]);
    forall i | u != c && 0 <= i < |r.tasks[u].children|
      ensures Forked(ProcessAt(r, u), ProcessAt(r, r.tasks[u].children[i])) in r.trace
    {
      var x := r.tasks[u].children[i];
      assert x in r.tasks[u].children;
      WithoutMember<Slot>(s.tasks[u].children, c, x);
      var j :| 0 <= j < |s.tasks[u].children| && s.tasks[u].children[j] == x;
      assert ChildOk(s, u, x) by { assert ChildOk(s, u, s.tasks[u].children[j]); }
      assert ChildOk(s, t, c);
      assert x != t && x != c ==> SameStory(s.tasks[x], r.tasks[x]);
      assert Forked(ProcessAt(s, u), ProcessAt(s, s.tasks[u].children[j])) in s.trace;
    }
  }

  // ---------------- every step is quiet or one event ----------------

  lemma QuietQuiet(s: Kernel, p: Kernel, r: Kernel)
    requires Quiet(s, p) && Quiet(p, r)
    ensures Quiet(s, r)
  {
    forall t: Slot ensures SameStory(s.tasks[t], r.tasks[t]) {
      assert SameStory(s.tasks[t], p.tasks[t]) && SameStory(p.tasks[t], r.tasks[t]);
    }
  }

  lemma DiesQuiet(s: Kernel, p: Kernel, r: Kernel, t: Slot, status: int)
    requires Dies(s, p, t, status) && Quiet(p, r)
    ensures Dies(s, r, t, status)
  {
    forall u: Slot ensures SameStory(p.tasks[u], r.tasks[u]) {}
    forall u: Slot | u != t ensures SameStory(s.tasks[u], r.tasks[u]) {
      assert SameStory(s.tasks[u], p.tasks[u]);
    }
  }

  lemma TakeQuiet(s: Kernel)
    requires QueuesOk(s) && TaskOk(s, SWAPPER)
    ensures Quiet(s, Take(s))
  {
  }

  lemma ScheduleQuiet(s: Kernel)
    requires Inv(s)
    ensures Quiet(s, Schedule(s))
  {
    ScheduleOk(s);
    assert TaskOk(s, s.current) && TaskOk(s, SWAPPER);
    if s.runq != [] {
      ParkOk(s);
      assert TaskOk(Park(s), SWAPPER);
      TakeQuiet(Park(s));
      assert Quiet(s, Park(s));
      QuietQuiet(s, Park(s), Take(Park(s)));
    }
  }

  lemma SuspendQuiet(s: Kernel, c: Cont)
    requires Inv(s) && NewCont(s.current, c)
    ensures Quiet(s, Schedule(Suspend(s, c)))
  {
    TouchOk(s, s.current, s.tasks[s.current].(cont := c));
    ScheduleQuiet(Suspend(s, c));
    assert Quiet(s, Suspend(s, c));
    QuietQuiet(s, Suspend(s, c), Schedule(Suspend(s, c)));
  }

  lemma ExitDies(s: Kernel, status: int)
    requires Inv(s) && s.current != SWAPPER
    ensures Dies(s, DoExit(s, status), s.current, status)
  {
    ExitOk(s, status);
    BuryOk(s, status);
    assert TaskOk(s, s.current) && TaskOk(Bury(s, status), SWAPPER);
    TakeQuiet(Bury(s, status));
    DeadDies(s, status);
    DiesQuiet(s, Bury(s, status), DoExit(s, status), s.current, status);
  }

  lemma DeadDies(s: Kernel, status: int)
    requires Inv(s) && s.current != SWAPPER
    ensures Dies(s, Bury(s, status), s.current, status)
  {
    assert TaskOk(s, s.current);
    var dead := Dead(s, status);
    assert Dies(s, dead, s.current, status);
    assert Bury(s, status).tasks == dead.tasks && Bury(s, status).trace == dead.trace && Bury(s, status).allocs == dead.allocs;
  }

  lemma ReapCollects(s: Kernel, c: Slot)
    requires Inv(s) && MayReap(s, c)
    ensures Collects(s, Reap(s, c), s.current, c)
  {
    assert TaskOk(s, s.current) && ChildOk(s, s.current, c);
    ReapTasks(s, c);
  }

  lemma ForkBears(s: Kernel)
    requires Inv(s) && s.free != [] && s.current != SWAPPER
    ensures Bears(s, DoFork(s), s.current, s.free[0])
  {
    assert s.free[0] in s.free;
    assert TaskOk(s, s.current);
    ForkTasks(s);
  }

  /** `s` and `p` tell the same story, so a step from `p` is one from `s`. */
  lemma OneEventFrom(s: Kernel, p: Kernel, r: Kernel)
    requires p.tasks == s.tasks && p.trace == s.trace && p.allocs == s.allocs
    requires OneEvent(p, r)
    ensures OneEvent(s, r)
  {
    if t: Slot, status :| Dies(p, r, t, status) {
      assert Dies(s, r, t, status);
    } else if t: Slot, c: Slot :| Bears(p, r, t, c) {
      assert Bears(s, r, t, c);
    } else if t: Slot, c: Slot :| Collects(p, r, t, c) {
      assert Collects(s, r, t, c);
    }
  }

  lemma WaitLoopEvent(s: Kernel, w: Wait)
    requires Inv(s) && MayWait(s, w)
    ensures OneEvent(s, WaitLoop(s, w))
  {
    assert TaskOk(s, s.current);
    if !Holds(s, s.current, w) {
      DozeOk(s, w);
      DozeQuiet(s, w);
    } else {
      match w
      case ForChild(c) => ReapCollects(s, c);
      case ForAnyChild => ReapCollects(s, FindZombie(s.tasks, s.tasks[s.current].children));
      case ForInput(y, count) => assert Quiet(s, WaitLoop(s, w));
    }
  }

  lemma DozeQuiet(s: Kernel, w: Wait)
    requires Inv(s) && Ok(Doze(s, w))
    ensures Quiet(s, Take(Doze(s, w)))
  {
    assert TaskOk(s, s.current) && TaskOk(Doze(s, w), SWAPPER);
    TakeQuiet(Doze(s, w));
    assert Quiet(s, Doze(s, w));
    QuietQuiet(s, Doze(s, w), Take(Doze(s, w)));
  }

  lemma ResumeWaitEvent(s: Kernel, w: Wait)
    requires Inv(s) && s.tasks[s.current].cont == Sleep(w)
    ensures OneEvent(s, ResumeWait(s, w))
  {
    var q := QueueOf(s.current, w);
    var left := SetWaiters(s, q, Without<Slot>(Waiters(s, q), s.current));
    LeftOk(s, w);
    if s.tasks[s.current].pending != {} {
      ExitDies(left, -1);
    } else {
      WaitLoopEvent(left, w);
    }
    OneEventFrom(s, left, ResumeWait(s, w));
  }

  lemma WaitPidEvent(s: Kernel, pid: int, options: int)
    requires Inv(s) && s.current != SWAPPER
    ensures OneEvent(s, DoWaitPid(s, pid, options))
  {
    var r, children := DoWaitPid(s, pid, options), s.tasks[s.current].children;
    if r in {Return(s, -EINVAL), Return(s, -ECHILD), Return(s, 0)} {
      assert Quiet(s, r);
    } else if pid > 0 {
      var c := FindPid(s.tasks, children, pid);
      if s.tasks[c].state == Zombie {
        ReapCollects(s, c);
      } else {
        WaitLoopEvent(s, ForChild(c));
      }
    } else {
      var z := FindZombie(s.tasks, children);
      if z != NONE {
        ReapCollects(s, z);
      } else {
        WaitLoopEvent(s, ForAnyChild);
      }
    }
  }

  lemma BodyEvent(s: Kernel, call: Call)
    requires Inv(s) && MayCall(s, call)
    ensures OneEvent(s, Body(s, call))
  {
    assert TaskOk(s, s.current);
    match call
    case Read(y, count) => SuspendQuiet(s, ReadAgain(y, count));
    case Fork => if s.free != [] { ForkBears(s); } else { assert Quiet(s, Return(s, -ENOMEM)); }
    case Exec(result) => ExecEvent(s, result);
    case Exit(status) => ExitDies(s, status);
    case WaitPid(pid, options) => WaitPidEvent(s, pid, options);
    case Kill(pid, sig) => KillQuiet(s, pid, sig);
    case _ => PlainCallQuiet(s, call);
  }

  lemma KillQuiet(s: Kernel, pid: int, sig: int)
    requires Inv(s)
    ensures Quiet(s, DoKill(s, pid, sig))
  {
    assert TaskOk(s, s.current);
  }

  lemma PlainCallQuiet(s: Kernel, call: Call)
    requires Inv(s) && IsPlain(call)
    ensures Quiet(s, PlainBody(s, call))
  {
    assert TaskOk(s, s.current);
  }

  lemma ExecEvent(s: Kernel, result: ExecResult)
    requires Inv(s) && s.current != SWAPPER
    ensures OneEvent(s, DoExec(s, result))
  {
    assert TaskOk(s, s.current);
    match result
    case NotFound => assert Quiet(s, DoExec(s, result));
    case LoadFailed => ExitDies(s, -1);
    case Loaded => LoadedQuiet(s);
  }

  lemma LoadedQuiet(s: Kernel)
    requires Inv(s) && s.current != SWAPPER
    ensures Quiet(s, DoExec(s, Loaded))
  {
    assert TaskOk(s, s.current);
    var k := s.tasks[s.current].(cont := User, pending := {});
    var touched := Put(s, s.current, k);
    TouchOk(s, s.current, k);
    ParkOk(touched);
    LoadedIsPark(s);
    assert TaskOk(Park(touched), SWAPPER);
    TakeOk(Park(touched));
    TakeQuiet(Park(touched));
    assert Quiet(s, Park(touched));
    QuietQuiet(s, Park(touched), Take(Park(touched)));
  }

  lemma StepEvent(s: Kernel, l: Label)
    requires Inv(s) && Allowed(s, l)
    ensures OneEvent(s, Step(s, l))
  {
    assert TaskOk(s, s.current);
    match l
    case Syscall(call) =>
      if YieldsFirst(call) {
        SuspendQuiet(s, Yielded(call));
      } else {
        BodyEvent(s, call);
      }
    case Resume =>
      match s.tasks[s.current].cont {
        case Yielded(call) => BodyEvent(s, call);
        case ReadAgain(y, count) =>
          assert Quiet(s, Return(s, 0));
          if count > 0 {
            WaitLoopEvent(s, ForInput(y, count));
          }
        case Sleep(w) => ResumeWaitEvent(s, w);
      }
    case Key(c) => assert Quiet(s, Step(s, l));
    case Activate(y) => assert Quiet(s, Step(s, l));
  }

  lemma StepTold(s: Kernel, l: Label)
    requires Inv(s) && Told(s) && Allowed(s, l)
    ensures Told(Step(s, l))
  {
    var r := Step(s, l);
    StepEvent(s, l);
    if t: Slot, status :| Dies(s, r, t, status) {
      DiesTold(s, r, t, status);
    } else if t: Slot, c: Slot :| Bears(s, r, t, c) {
      BearsTold(s, r, t, c);
    } else if t: Slot, c: Slot :| Collects(s, r, t, c) {
      CollectsTold(s, r, t, c);
    } else {
      QuietTold(s, r);
    }
  }

  lemma {:induction false} RunTold(ss: seq<Kernel>, ls: seq<Label>, i: nat)
    requires Run(ss, ls) && i < |ss|
    ensures Told(ss[i])
  {
    if i == 0 {
      assert Loaded0().trace == [];
      assert forall t: Slot :: TaskTold(Boot(), t);
    } else {
      RunTold(ss, ls, i - 1);
      RunInv(ss, ls, i - 1);
      StepTold(ss[i - 1], ls[i - 1]);
    }
  }

  /** Over any run from boot: a process is collected at most once; whoever collects it is
      the process that forked it; it had exited before; and the status handed over is the
      one it exited with. */
  lemma ReapedExactlyOnce(ss: seq<Kernel>, ls: seq<Label>, i: nat, j: nat)
    requires Run(ss, ls) && i < |ss| && j < |ss[i].trace| && ss[i].trace[j].Reaped?
    ensures var trace, e := ss[i].trace, ss[i].trace[j];
      && (forall k :: 0 <= k < |trace| && k != j && trace[k].Reaped? ==> trace[k].child != e.child)
      && (exists a, b :: 0 <= a < b < j && trace[a] == Forked(e.waiter, e.child) && trace[b] == Exited(e.child, e.status))
      && (forall k :: 0 <= k < |trace| && trace[k].Exited? && trace[k].process == e.child ==> k < j && trace[k].status == e.status)
  {
    RunTold(ss, ls, i);
    var trace, e := ss[i].trace, ss[i].trace[j];
    var a :| 0 <= a < j && trace[..j][a] == Forked(e.waiter, e.child);
    var b :| 0 <= b < j && trace[..j][b] == Exited(e.child, e.status);
    assert trace[a] == Forked(e.waiter, e.child) && trace[b] == Exited(e.child, e.status);
    assert Subject(trace[a]) == Subject(trace[b]);
    OrderTold(trace, b, a);
    forall k | 0 <= k < |trace| && trace[k].Exited? && trace[k].process == e.child ensures k == b {
      OrderTold(trace, k, b);
      OrderTold(trace, b, k);
    }
    forall k | 0 <= k < |trace| && k != j && trace[k].Reaped? ensures trace[k].child != e.child {
      OrderTold(trace, k, j);
      OrderTold(trace, j, k);
    }
  }

  // ---------------- the status word ----------------

  /** The status that the trace says was handed over between `s` and `r`. */
  ghost function HandedOver(s: Kernel, r: Kernel): Output {
    if |r.trace| == |s.trace| + 1 && r.trace[|s.trace|].Reaped? then Status(r.trace[|s.trace|].status) else Silent
  }

  /** The bytes of a terminal are no status. */
  function StatusOnly(output: Output): Output {
    if output.Bytes? then Silent else output
  }

  lemma ReapHandsOver(s: Kernel, c: Slot)
    requires s.current != NONE
    ensures HandedOver(s, Reap(s, c)) == Status(s.tasks[c].exitStatus)
  {
  }

  lemma WaitHandsOver(s: Kernel, w: Wait)
    requires Inv(s) && MayWait(s, w)
    ensures HandedOver(s, WaitLoop(s, w)) == StatusOnly(WaitOutput(s, w))
  {
    if !Holds(s, s.current, w) {
      DozeOk(s, w);
    } else if w.ForChild? {
      ReapHandsOver(s, w.child);
    } else if w.ForAnyChild? {
      ReapHandsOver(s, FindZombie(s.tasks, s.tasks[s.current].children));
    }
  }

  /** What sched_waitpid writes through its status pointer is the status in the event of the
      same step, and it writes nothing in a step without such an event. */
  lemma WaitPidHandsOver(s: Kernel, pid: int, options: int)
    requires Inv(s) && s.current != SWAPPER
    ensures HandedOver(s, DoWaitPid(s, pid, options)) == WaitPidOutput(s, pid, options)
  {
    var c := FindPid(s.tasks, s.tasks[s.current].children, pid);
    if c != NONE && pid > 0 {
      ReapHandsOver(s, c);
      WaitHandsOver(s, ForChild(c));
    } else if pid == -1 {
      WaitHandsOver(s, ForAnyChild);
      var z := FindZombie(s.tasks, s.tasks[s.current].children);
      if z != NONE {
        ReapHandsOver(s, z);
      }
    }
  }

  /** ... and so it is when it goes on after a sleep. */
  lemma ResumeHandsOver(s: Kernel, w: Wait)
    requires Inv(s) && s.tasks[s.current].cont == Sleep(w)
    ensures HandedOver(s, ResumeWait(s, w)) == StatusOnly(ResumeOutput(s, w))
  {
    var left := SetWaiters(s, QueueOf(s.current, w), Without<Slot>(Waiters(s, QueueOf(s.current, w)), s.current));
    LeftOk(s, w);
    if s.tasks[s.current].pending != {} {
      ExitDies(left, -1);
    } else {
      WaitHandsOver(left, w);
    }
  }

  /** In every step the status that is written is that of the collected child, and none is
      written otherwise. */
  lemma StepHandsOver(s: Kernel, l: Label)
    requires Inv(s) && Allowed(s, l)
    ensures HandedOver(s, Step(s, l)) == StatusOnly(OutputOf(s, l))
  {
    assert TaskOk(s, s.current);
    match l
    case Syscall(call) =>
      if !YieldsFirst(call) {
        BodyHandsOver(s, call);
      }
    case Resume =>
      match s.tasks[s.current].cont {
        case Yielded(call) => BodyHandsOver(s, call);
        case ReadAgain(y, count) =>
          if count > 0 {
            WaitHandsOver(s, ForInput(y, count));
          }
        case Sleep(w) => ResumeHandsOver(s, w);
      }
    case Key(c) =>
    case Activate(y) =>
  }

  lemma BodyHandsOver(s: Kernel, call: Call)
    requires Inv(s) && MayCall(s, call)
    ensures HandedOver(s, Body(s, call)) == StatusOnly(CallOutput(s, call))
  {
    if call.WaitPid? {
      WaitPidHandsOver(s, call.pid, call.options);
    } else {
      OtherCallsHandOverNothing(s, call);
    }
  }

  lemma OtherCallsHandOverNothing(s: Kernel, call: Call)
    requires s.current != NONE && !call.WaitPid?
    ensures HandedOver(s, Body(s, call)) == Silent
  {
    match call
    case Fork =>
    case Exec(result) => ExitHandsOverNothing(s, -1);
    case Exit(status) => ExitHandsOverNothing(s, status);
    case Kill(pid, sig) =>
    case Read(y, count) =>
    case _ => PlainCallHandsOverNothing(s, call);
  }

  lemma ExitHandsOverNothing(s: Kernel, status: int)
    requires s.current != NONE
    ensures HandedOver(s, DoExit(s, status)) == Silent
  {
  }

  lemma PlainCallHandsOverNothing(s: Kernel, call: Call)
    requires s.current != NONE && IsPlain(call)
    ensures HandedOver(s, PlainBody(s, call)) == Silent
  {
  }

  lemma OrderTold(trace: seq<Event>, i: nat, j: nat)
    requires TraceOk(trace) && i < |trace| && j < |trace|
    ensures i < j && Subject(trace[i]) == Subject(trace[j]) ==> Follows(trace[i], trace[j])
  {
  }
}

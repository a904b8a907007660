/** What reads of a terminal return, and that no typed byte is lost, doubled or reordered on
    its way from the keyboard to the readers (kernel/core/tty.c, wait.c). */
module TerminalReads {
  import opened Seqs
  import opened OpenFileTable
  import opened KernelState
  import opened KernelInvariant
  import opened KernelRuns
  import opened CallResults

  // ---------------- one step ----------------

  /** The bytes of terminal `y` in what a step writes. */
  function BytesOf(output: Output, y: Tty): seq<char> {
    if output.Bytes? && output.tty == y then output.bytes else []
  }

  /** The bytes that a step adds to the input of terminal `y`: a key goes to the active
      terminal, and is dropped when 256 bytes wait there. */
  function Accepted(s: Kernel, l: Label, y: Tty): seq<char> {
    if l.Key? && s.active == y && |s.input[y]| < 256 then [l.c] else []
  }

  /** Conservation for one step and one terminal. */
  predicate Conserved(s: Kernel, l: Label, y: Tty)
    requires Enabled(s, l)
  {
    BytesOf(OutputOf(s, l), y) + Step(s, l).input[y] == s.input[y] + Accepted(s, l, y)
  }

  lemma ExitKeepsInput(s: Kernel, status: int)
    requires s.current != NONE
    ensures DoExit(s, status).input == s.input
  {
  }

  lemma WaitLoopInput(s: Kernel, w: Wait, y: Tty)
    requires s.current != NONE
    ensures BytesOf(WaitOutput(s, w), y) + WaitLoop(s, w).input[y] == s.input[y]
  {
  }

  lemma WaitPidInput(s: Kernel, pid: int, options: int, y: Tty)
    requires s.current != NONE
    ensures BytesOf(WaitPidOutput(s, pid, options), y) + DoWaitPid(s, pid, options).input[y] == s.input[y]
  {
    WaitLoopInput(s, ForAnyChild, y);
    var c := FindPid(s.tasks, s.tasks[s.current].children, pid);
    if c != NONE {
      WaitLoopInput(s, ForChild(c), y);
    }
  }

  lemma BodyInput(s: Kernel, call: Call, y: Tty)
    requires s.current != NONE
    ensures BytesOf(CallOutput(s, call), y) + Body(s, call).input[y] == s.input[y]
  {
    match call
    case Read(z, count) =>
    case Fork =>
    case Exec(result) =>
    case Exit(status) =>
    case WaitPid(pid, options) => WaitPidInput(s, pid, options, y);
    case Kill(pid, sig) =>
    case _ =>
  }

  lemma ResumeWaitInput(s: Kernel, w: Wait, y: Tty)
    requires s.current != NONE
    ensures BytesOf(ResumeOutput(s, w), y) + ResumeWait(s, w).input[y] == s.input[y]
  {
    var q := QueueOf(s.current, w);
    var left := SetWaiters(s, q, Without<Slot>(Waiters(s, q), s.current));
    WaitLoopInput(left, w, y);
    ExitKeepsInput(left, -1);
    assert Holds(left, s.current, w) == Holds(s, s.current, w);
  }

  lemma KeyPressInput(s: Kernel, c: char, y: Tty)
    ensures KeyPress(s, c).input[y] == s.input[y] + Accepted(s, Key(c), y)
  {
  }

  /** No step loses, doubles or reorders a byte of a terminal: what it hands over followed by
      what waits afterwards is what waited before followed by an accepted key. */
  lemma StepConserves(s: Kernel, l: Label, y: Tty)
    requires Enabled(s, l)
    ensures Conserved(s, l, y)
  {
    match l
    case Syscall(call) => BodyInput(s, call, y);
    case Resume =>
      match s.tasks[s.current].cont {
        case Yielded(call) => BodyInput(s, call, y);
        case ReadAgain(z, count) => WaitLoopInput(s, ForInput(z, count), y);
        case Sleep(w) => ResumeWaitInput(s, w, y);
      }
    case Key(c) => KeyPressInput(s, c, y);
    case Activate(z) =>
  }

  // ---------------- what a read returns ----------------

  /** The task is inside a read of at most `count` bytes of terminal `y`. */
  predicate Reads(c: Cont, y: Tty, count: nat) {
    c == ReadAgain(y, count) || c == Sleep(ForInput(y, count))
  }

  /** Bytes come out of a step only when a read goes on. */
  lemma BytesAreRead(s: Kernel, l: Label)
    requires Enabled(s, l) && OutputOf(s, l).Bytes?
    ensures l == Resume && exists count :: Reads(s.tasks[s.current].cont, OutputOf(s, l).tty, count)
  {
    var c := s.tasks[s.current].cont;
    assert Reads(c, OutputOf(s, l).tty, if c.Sleep? then c.wait.count else c.count);
  }

  /** A read of a terminal with waiting bytes returns how many it hands over: at least one, at
      most `count`, and fewer than `count` only when none is left.  Nothing else changes. */
  lemma ReadReturns(s: Kernel, y: Tty, count: nat)
    requires Inv(s) && Reads(s.tasks[s.current].cont, y, count) && count > 0 && s.input[y] != []
    requires s.tasks[s.current].cont.Sleep? ==> s.tasks[s.current].pending == {}
    ensures var r, t, output := Step(s, Resume), s.current, OutputOf(s, Resume);
      && output.Bytes? && output.tty == y && output.bytes + r.input[y] == s.input[y]
      && 0 < |output.bytes| <= count && (|output.bytes| < count ==> r.input[y] == [])
      && r.tasks == s.tasks[t := s.tasks[t].(cont := User, ret := |output.bytes|)]
      && r == s.(tasks := r.tasks, input := s.input[y := r.input[y]], waitq := r.waitq) && SameWaiters(s, r)
  {
    StepConserves(s, Resume, y);
    if s.tasks[s.current].cont.Sleep? {
      LeftOk(s, ForInput(y, count));
    }
  }

  /** A read of a terminal without waiting bytes hands over nothing and puts the task to sleep
      behind the other readers. */
  lemma ReadWaits(s: Kernel, y: Tty, count: nat)
    requires Inv(s) && Reads(s.tasks[s.current].cont, y, count) && count > 0 && s.input[y] == []
    requires s.tasks[s.current].cont.Sleep? ==> s.tasks[s.current].pending == {}
    ensures GoesToSleep(s, Step(s, Resume), ForInput(y, count)) && OutputOf(s, Resume) == Silent
  {
    if s.tasks[s.current].cont.Sleep? {
      WokenSleepsAgain(s, ForInput(y, count));
    } else {
      FirstReadWaits(s, y, count);
    }
  }

  lemma FirstReadWaits(s: Kernel, y: Tty, count: nat)
    requires Inv(s) && s.tasks[s.current].cont == ReadAgain(y, count) && count > 0 && s.input[y] == []
    ensures GoesToSleep(s, Step(s, Resume), ForInput(y, count)) && OutputOf(s, Resume) == Silent
  {
    assert TaskOk(s, s.current);
    BlockedSleeps(s, WaitLoop(s, ForInput(y, count)), ForInput(y, count));
  }

  /** A read of no bytes returns 0 and hands over nothing. */
  lemma ReadOfNothing(s: Kernel, y: Tty)
    requires s.current != NONE && s.tasks[s.current].cont == ReadAgain(y, 0)
    ensures var r, t := Step(s, Resume), s.current;
      OutputOf(s, Resume) == Silent && r == s.(tasks := s.tasks[t := s.tasks[t].(cont := User, ret := 0)])
  {
  }

  // ---------------- runs ----------------

  /** What the first `i` steps of a run hand over to readers of terminal `y`. */
  ghost function Handed(ss: seq<Kernel>, ls: seq<Label>, y: Tty, i: nat): seq<char>
    requires Segment(ss, ls) && i <= |ls|
  {
    if i == 0 then [] else Handed(ss, ls, y, i - 1) + BytesOf(OutputOf(ss[i - 1], ls[i - 1]), y)
  }

  /** The keys that terminal `y` accepts in the first `i` steps. */
  ghost function Typed(ss: seq<Kernel>, ls: seq<Label>, y: Tty, i: nat): seq<char>
    requires Segment(ss, ls) && i <= |ls|
  {
    if i == 0 then [] else Typed(ss, ls, y, i - 1) + Accepted(ss[i - 1], ls[i - 1], y)
  }

  /** At every point of every run from boot, what the readers of a terminal have been handed,
      in order, followed by what still waits, is what has been typed. */
  lemma {:induction false} EveryKeyIsReadOnce(ss: seq<Kernel>, ls: seq<Label>, y: Tty, i: nat)
    requires Run(ss, ls) && i <= |ls|
    ensures Handed(ss, ls, y, i) + ss[i].input[y] == Typed(ss, ls, y, i)
  {
    if i == 0 {
      assert Loaded0().input[y] == [] && Boot().input == Loaded0().input;
    } else {
      var s, l := ss[i - 1], ls[i - 1];
      EveryKeyIsReadOnce(ss, ls, y, i - 1);
      StepConserves(s, l, y);
      Regroup(Handed(ss, ls, y, i - 1), BytesOf(OutputOf(s, l), y), ss[i].input[y], s.input[y], Accepted(s, l, y));
    }
  }

  lemma Regroup(handed: seq<char>, more: seq<char>, left: seq<char>, waited: seq<char>, typed: seq<char>)
    requires more + left == waited + typed
    ensures (handed + more) + left == (handed + waited) + typed
  {
    assert (handed + more) + left == handed + (more + left);
    assert (handed + waited) + typed == handed + (waited + typed);
  }
}

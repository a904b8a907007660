/** The terminals over the one console: output rings, redraw and switching
    (kernel/core/tty.c:145-196, kernel/core/tty.c:310-339). */
module Terminals {
  import KernelState
  import Rings
  import opened Ttys
  import opened Consoles

  // ---------------- the last bytes ----------------

  /** The last bytes of the last bytes and more are the last bytes of all. */
  lemma LastOfMore<T>(s: seq<T>, t: seq<T>, n: nat)
    ensures LastOf(LastOf(s, n) + t, n) == LastOf(s + t, n)
  {
    var u, v := LastOf(s, n), LastOf(s + t, n);
    if |s| > n {
      var all := s + t;
      assert u + t == all[|s| - n..];
      assert |u + t| > n ==> (u + t)[|u + t| - n..] == all[|all| - n..];
    }
  }

  /** What a terminal's ring holds after all that was ever written to it. */
  function Ring(history: string): string {
    LastOf(history, TTY_OUTPUT_BUF_SIZE)
  }

  /** The part of a buffer that tty_write takes: up to the first NUL. */
  function Accepted(text: string): (n: nat)
    ensures n <= |text| && '\0' !in text[..n] && (n < |text| ==> text[n] == '\0')
  {
    if text == "" || text[0] == '\0' then 0
    else
      var n := Accepted(text[1..]);
      assert text[..n + 1] == [text[0]] + text[1..][..n];
      n + 1
  }

  lemma {:induction false} AcceptedIs(text: string, n: nat)
    requires n <= |text| && '\0' !in text[..n] && (n < |text| ==> text[n] == '\0')
    ensures Accepted(text) == n
  {
    if n > 0 {
      assert text[..n][0] == text[0];
      assert text[1..][..n - 1] == text[..n][1..];
      AcceptedIs(text[1..], n - 1);
    }
  }

  type Tty = KernelState.Tty

  class TtyContext {
    const ttys: seq<TtyStruct>
    const buffers: seq<array<char>>
    const console: Console
    var active: Tty
    /** All that was ever accepted for each terminal. */
    ghost var history: seq<string>
    /** The screen at the last activation. */
    ghost var base: Screen
    /** No byte has been evicted from the active ring, and the kernel has printed nothing,
        since the last activation. */
    ghost var intact: bool

    /** The terminals of tty_system_init, before the first activation. */
    constructor (ttys: seq<TtyStruct>, buffers: seq<array<char>>, console: Console)
      requires |ttys| == KernelState.TTY_COUNT && |buffers| == 2 * KernelState.TTY_COUNT && console.Valid()
      requires forall y: Tty, z: Tty :: y != z ==> ttys[y] != ttys[z]
      requires forall i, j :: 0 <= i < j < |buffers| ==> buffers[i] != buffers[j]
      requires forall y: Tty {:trigger ttys[y]} ::
        && ttys[y].inBuf == buffers[2 * y] && ttys[y].outBuf == buffers[2 * y + 1]
        && ttys[y].Valid() && ttys[y].output == []
      ensures Valid() && !intact && active == 0 && forall y: Tty :: history[y] == ""
      ensures this.ttys == ttys && this.console == console
    {
      this.ttys, this.buffers, this.console := ttys, buffers, console;
      active, history, base, intact := 0, seq(KernelState.TTY_COUNT, _ => ""), console.Value(), false;
    }

    ghost predicate Shape() {
      && |ttys| == KernelState.TTY_COUNT && |buffers| == 2 * KernelState.TTY_COUNT
      && (forall y: Tty, z: Tty :: y != z ==> ttys[y] != ttys[z])
      && (forall i, j :: 0 <= i < j < |buffers| ==> buffers[i] != buffers[j])
      && (forall y: Tty {:trigger ttys[y]} :: ttys[y].inBuf == buffers[2 * y] && ttys[y].outBuf == buffers[2 * y + 1])
    }

    /** Every ring holds the last bytes written to its terminal. */
    ghost predicate RingsOk()
      requires Shape()
      reads this, ttys, buffers
    {
      |history| == KernelState.TTY_COUNT && forall y: Tty {:trigger ttys[y]} :: ttys[y].Valid() && ttys[y].output == Ring(history[y])
    }

    /** The screen is the clearing of the one at the activation and then the ring. */
    ghost predicate ScreenIsReplay()
      requires Shape()
      reads this, ttys[active], console, console.video, console.escParams
    {
      ScreenOk(base) && console.Value() == Feed(Cleared(base), ttys[active].output)
    }

    ghost predicate Valid()
      reads this, ttys, buffers, console, console.video, console.escParams
    {
      Shape() && RingsOk() && console.Valid() && (intact ==> ScreenIsReplay())
    }

    /** The ring part of tty_write for one byte. */
    method Store(y: Tty, c: char)
      requires Shape() && RingsOk()
      modifies this`history, ttys[y], ttys[y].outBuf
      ensures RingsOk() && history == old(history)[y := old(history)[y] + [c]]
    {
      LastOfMore(history[y], [c], TTY_OUTPUT_BUF_SIZE);
      ttys[y].OutputPut(c);
      history := history[y := history[y] + [c]];
      forall z: Tty ensures ttys[z].Valid() && ttys[z].output == Ring(history[z]) {
        assert z != y ==> old(ttys[z].Valid()) && buffers[2 * z] != ttys[y].outBuf && buffers[2 * z + 1] != ttys[y].outBuf;
      }
    }

    /** A byte that is in the active ring already goes to the screen, too. */
    method Echo(c: char, ghost was: string)
      requires Shape() && RingsOk() && console.Valid() && ttys[active].output == Ring(was + [c])
      requires intact ==> ScreenOk(base) && console.Value() == Feed(Cleared(base), was)
      modifies this`intact, console, console.video, console.escParams
      ensures Valid() && console.Value() == Consoles.Put(old(console.Value()), c)
      ensures intact == (old(intact) && |was| < TTY_OUTPUT_BUF_SIZE)
    {
      if intact {
        FeedAppend(Cleared(base), was, c);
      }
      console.PutChar(c);
      intact := intact && |was| < TTY_OUTPUT_BUF_SIZE;
      assert RingsOk();
    }

    /** One byte for a terminal that is not on the screen. */
    method WriteHidden(y: Tty, c: char)
      requires Valid() && y != active
      modifies this`history, ttys[y], ttys[y].outBuf
      ensures Valid() && history == old(history)[y := old(history)[y] + [c]]
    {
      Store(y, c);
    }

    /** One byte for the terminal on the screen. */
    method WriteShown(c: char)
      requires Valid()
      modifies this`history, this`intact, ttys[active], ttys[active].outBuf, console, console.video, console.escParams
      ensures Valid() && history == old(history)[active := old(history)[active] + [c]]
      ensures console.Value() == Consoles.Put(old(console.Value()), c)
      ensures intact == (old(intact) && |old(history)[active]| < TTY_OUTPUT_BUF_SIZE)
    {
      ghost var was := Ring(history[active]);
      assert ttys[active].output == was;
      LastOfMore(history[active], [c], TTY_OUTPUT_BUF_SIZE);
      Store(active, c);
      assert ttys[active].output == Ring(history[active]);
      Echo(c, was);
    }

    /** One byte of tty_write. */
    method WriteByte(y: Tty, c: char)
      requires Valid()
      modifies this`history, this`intact, ttys[y], ttys[y].outBuf, console, console.video, console.escParams
      ensures Valid() && history == old(history)[y := old(history)[y] + [c]]
      ensures console.Value() == if y == active then Consoles.Put(old(console.Value()), c) else old(console.Value())
      ensures intact == (old(intact) && (y == active ==> |old(history)[y]| < TTY_OUTPUT_BUF_SIZE))
    {
      if y == active {
        WriteShown(c);
      } else {
        WriteHidden(y, c);
      }
    }

    /** The loop of tty_write; `done` is what it has written. */
    method WriteLoop(y: Tty, cbuf: seq<char>) returns (written: nat, ghost done: string)
      requires Valid()
      modifies this`history, this`intact, ttys[y], ttys[y].outBuf, console, console.video, console.escParams
      ensures Valid() && written == |done| == Accepted(cbuf) && done == cbuf[..written]
      ensures history == old(history)[y := old(history)[y] + done]
      ensures console.Value() == if y == active then Feed(old(console.Value()), done) else old(console.Value())
      ensures intact == (old(intact) && (y == active ==> done == "" || |old(history)[y]| + |done| <= TTY_OUTPUT_BUF_SIZE))
    {
      ghost var start, was := console.Value(), history[y];
      written, done := 0, "";
      assert was + "" == was && history[y := was] == history;
      while written < |cbuf|
        invariant Valid() && written == |done| <= |cbuf| && done == cbuf[..written] && '\0' !in done
        invariant history == old(history)[y := was + done]
        invariant console.Value() == if y == active then Feed(start, done) else start
        invariant intact == (old(intact) && (y == active ==> done == "" || |was| + |done| <= TTY_OUTPUT_BUF_SIZE))
      {
        var c := cbuf[written];
        if c == '\0' {
          break;
        }
        FeedAppend(start, done, c);
        assert was + (done + [c]) == (was + done) + [c];
        WriteByte(y, c);
        done := done + [c];
        written := written + 1;
      }
      AcceptedIs(cbuf, written);
    }

    /** tty_write: the bytes before the first NUL. */
    method Write(y: Tty, cbuf: seq<char>) returns (r: int)
      requires Valid()
      modifies this`history, this`intact, ttys[y], ttys[y].outBuf, console, console.video, console.escParams
      ensures Valid() && r == if |cbuf| == 0 then -1 else Accepted(cbuf)
      ensures history == old(history)[y := old(history)[y] + cbuf[..Accepted(cbuf)]]
      ensures console.Value() == if y == active then Feed(old(console.Value()), cbuf[..Accepted(cbuf)]) else old(console.Value())
      ensures intact == (old(intact) && (y == active ==> Accepted(cbuf) == 0 || |old(history)[y]| + Accepted(cbuf) <= TTY_OUTPUT_BUF_SIZE))
    {
      if |cbuf| == 0 {
        assert history[y] + cbuf[..0] == history[y];
        return -1;
      }
      ghost var done: string;
      r, done := WriteLoop(y, cbuf);
    }

    /** Kernel messages go to the console behind the terminals' backs. */
    method KernelPrint(text: seq<char>)
      requires Valid()
      modifies this`intact, console, console.video, console.escParams
      ensures Valid() && history == old(history) && console.Value() == Feed(old(console.Value()), text)
      ensures !intact
    {
      ghost var start := console.Value();
      intact := false;
      assert text[..0] == "";
      for i := 0 to |text|
        invariant Valid() && !intact && console.Value() == Feed(start, text[..i])
      {
        FeedAppend(start, text[..i], text[i]);
        assert text[..i + 1] == text[..i] + [text[i]];
        console.PutChar(text[i]);
      }
      assert text[..|text|] == text;
    }

    /** The loop of tty_redraw. */
    method Replay(tty: TtyStruct)
      requires tty.Valid() && console.Valid()
      modifies console, console.video, console.escParams
      ensures console.Valid() && console.Value() == Feed(old(console.Value()), tty.output)
    {
      ghost var start, out := console.Value(), tty.output;
      assert out[..0] == "";
      var used := (tty.outHead - tty.outTail) % Rings.U32;
      for i := 0 to used
        invariant console.Valid() && tty.Valid() && tty.output == out && used == |out|
        invariant console.Value() == Feed(start, out[..i])
      {
        var c := tty.outBuf[(tty.outTail + i) % TTY_OUTPUT_BUF_SIZE];
        assert c == out[i] && out[..i + 1] == out[..i] + [c];
        FeedAppend(start, out[..i], c);
        console.PutChar(c);
      }
      assert out[..used] == out;
    }

    /** tty_redraw of the active terminal. */
    method Redraw()
      requires Shape() && RingsOk() && console.Valid()
      modifies console, console.video, console.escParams
      ensures RingsOk() && console.Valid()
      ensures console.Value() == Feed(Cleared(old(console.Value())), ttys[active].output)
    {
      ClearedOk(console.Value());
      console.Clear();
      Replay(ttys[active]);
      assert RingsOk();
    }

    /** tty_activate: from here on the screen is the replay of the terminal's ring. */
    method Activate(idx: nat)
      requires Valid()
      modifies this`active, this`base, this`intact, console, console.video, console.escParams
      ensures Valid() && history == old(history)
      ensures idx >= KernelState.TTY_COUNT ==> active == old(active) && intact == old(intact) && console.Value() == old(console.Value())
      ensures idx < KernelState.TTY_COUNT ==> active == idx && intact && base == old(console.Value())
    {
      if idx >= KernelState.TTY_COUNT {
        return;
      }
      active := idx;
      base := console.Value();
      Redraw();
      intact := true;
      assert RingsOk();
    }
  }
}

/** The two rings of a terminal (kernel/core/tty.c). */
module Ttys {
  import opened Rings
  import opened KernelState
  import opened SchedObjects

  const TTY_OUTPUT_BUF_SIZE := 4096

  /** The last `n` elements of `s`, or all of them. */
  function LastOf<T>(s: seq<T>, n: nat): (r: seq<T>)
    ensures |r| == if |s| < n then |s| else n
    ensures r <= s || |s| > n
  {
    if |s| <= n then s else s[|s| - n..]
  }

  class TtyStruct {
    const idx: Tty
    const inWait: WaitQueue
    const inBuf: array<char>
    const outBuf: array<char>
    var inHead: nat
    var inTail: nat
    var outHead: nat
    var outTail: nat

    /** Typed and not read yet, oldest first. */
    ghost var input: seq<char>
    /** Written and not evicted yet, oldest first. */
    ghost var output: seq<char>

    ghost predicate Valid()
      reads this, inBuf, outBuf
    {
      && inBuf.Length == TTY_INPUT_BUF_SIZE && outBuf.Length == TTY_OUTPUT_BUF_SIZE && inBuf != outBuf
      && inHead < U32 && inTail < U32 && outHead < U32 && outTail < U32
      && Used(inTail, inHead) == |input| <= TTY_INPUT_BUF_SIZE
      && (forall i :: 0 <= i < |input| ==> input[i] == inBuf[Index(inTail, i, TTY_INPUT_BUF_SIZE)])
      && Used(outTail, outHead) == |output| <= TTY_OUTPUT_BUF_SIZE
      && (forall i :: 0 <= i < |output| ==> output[i] == outBuf[Index(outTail, i, TTY_OUTPUT_BUF_SIZE)])
    }

    /** tty_init. */
    constructor (idx: Tty, inWait: WaitQueue)
      ensures Valid() && fresh(inBuf) && fresh(outBuf) && this.idx == idx && this.inWait == inWait
      ensures input == [] && output == []
    {
      this.idx, this.inWait := idx, inWait;
      inBuf, outBuf := new char[TTY_INPUT_BUF_SIZE], new char[TTY_OUTPUT_BUF_SIZE];
      inHead, inTail, outHead, outTail, input, output := 0, 0, 0, 0, [], [];
    }

    /** The ring part of tty_input_put: a byte that finds the ring full is dropped. */
    method InputPut(c: char) returns (stored: bool)
      requires Valid()
      modifies this`inHead, this`input, inBuf
      ensures Valid()
      ensures stored == (|old(input)| < TTY_INPUT_BUF_SIZE)
      ensures input == if stored then old(input) + [c] else old(input)
    {
      var used := (inHead - inTail) % U32;
      if used >= TTY_INPUT_BUF_SIZE {
        return false;
      }
      TailMoves(inTail, inHead, TTY_INPUT_BUF_SIZE);
      inBuf[inHead % TTY_INPUT_BUF_SIZE] := c;
      inHead := (inHead + 1) % U32;
      input := input + [c];
      return true;
    }

    /** The tail of tty_read: hand over at most `count` bytes, oldest first. */
    method InputTake(count: nat) returns (bytes: array<char>, available: nat)
      requires Valid()
      modifies this`inTail, this`input
      ensures Valid() && fresh(bytes)
      ensures available == (if |old(input)| > count then count else |old(input)|)
      ensures bytes[..] == old(input)[..available] && input == old(input)[available..]
    {
      available := (inHead - inTail) % U32;
      if available > count {
        available := count;
      }
      bytes := new char[available];
      for i := 0 to available
        invariant Valid() && input == old(input)
        invariant bytes[..i] == input[..i]
      {
        bytes[i] := inBuf[(inTail + i) % TTY_INPUT_BUF_SIZE];
      }
      ghost var tailWas, was := inTail, input;
      inTail := (inTail + available) % U32;
      input := input[available..];
      HeadMoves(tailWas, inHead, available);
      forall i | 0 <= i < |input| ensures input[i] == inBuf[Index(inTail, i, TTY_INPUT_BUF_SIZE)] {
        Wraps(tailWas, available, i, TTY_INPUT_BUF_SIZE);
        assert input[i] == was[available + i];
      }
    }

    /** The ring part of tty_write for one byte: a full ring evicts its oldest byte. */
    method OutputPut(c: char)
      requires Valid()
      modifies this`outHead, this`outTail, this`output, outBuf
      ensures Valid() && output == LastOf(old(output) + [c], TTY_OUTPUT_BUF_SIZE)
    {
      var used := (outHead - outTail) % U32;
      if used >= TTY_OUTPUT_BUF_SIZE {
        HeadMoves(outTail, outHead, 1);
        ghost var tailWas, was := outTail, output;
        outTail := (outTail + 1) % U32;
        output := output[1..];
        forall i | 0 <= i < |output| ensures output[i] == outBuf[Index(outTail, i, TTY_OUTPUT_BUF_SIZE)] {
          Wraps(tailWas, 1, i, TTY_OUTPUT_BUF_SIZE);
          assert output[i] == was[i + 1];
        }
      }
      TailMoves(outTail, outHead, TTY_OUTPUT_BUF_SIZE);
      outBuf[outHead % TTY_OUTPUT_BUF_SIZE] := c;
      outHead := (outHead + 1) % U32;
      output := output + [c];
    }
  }
}

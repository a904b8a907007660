/** Rings indexed by free-running 32-bit counters: task slots, open files and the two
    buffers of a terminal all use `buf[counter & (size - 1)]` with a size that divides
    2^32, so that the wrap of a counter does not disturb the places. */
module Rings {

  const U32 := 0x1_0000_0000

  /** The place of the `i`-th element behind counter value `head`. */
  function Index(head: nat, i: nat, size: nat): (r: nat)
    requires size > 0
    ensures r < size
  {
    (head + i) % size
  }

  /** How many elements lie between two counter values. */
  function Used(head: nat, tail: nat): (r: nat)
    ensures r < U32
  {
    (tail - head) % U32
  }

  ghost predicate IsRingSize(size: nat) {
    size in {64, 256, 1024, 4096}
  }

  lemma ModAdds(x: int, k: int, size: nat)
    requires size > 0
    ensures (x + k * size) % size == x % size
  {
    var q, r := x / size, x % size;
    assert x + k * size == (q + k) * size + r by {
      assert (q + k) * size == q * size + k * size;
    }
    ModOf(q + k, r, size);
  }

  lemma ModOf(q: int, r: nat, size: nat)
    requires r < size
    ensures (q * size + r) % size == r
  {
    var x := q * size + r;
    var d := x / size - q;
    assert (x / size) * size == q * size + d * size;
    assert r - x % size == d * size;
    assert d > 0 ==> d * size >= size;
    assert d < 0 ==> d * size <= -(size as int);
  }

  /** Counting up by `n` does not change the places, across the wrap too. */
  lemma Wraps(head: nat, n: nat, i: nat, size: nat)
    requires head < U32 && n < U32 && IsRingSize(size)
    ensures Index((head + n) % U32, i, size) == Index(head, n + i, size)
  {
    var k := U32 / size;
    assert U32 == k * size;
    if head + n >= U32 {
      ModAdds(head + n - U32 + i, k, size);
    }
  }

  /** Taking `n` elements out at the head. */
  lemma HeadMoves(head: nat, tail: nat, n: nat)
    requires head < U32 && tail < U32 && n <= Used(head, tail)
    ensures Used((head + n) % U32, tail) == Used(head, tail) - n
  {
    assert tail == head + Used(head, tail) || tail == head + Used(head, tail) - U32;
  }

  /** Putting one element in at the tail: its place is the one behind the last element,
      and nobody else's. */
  lemma TailMoves(head: nat, tail: nat, size: nat)
    requires head < U32 && tail < U32 && IsRingSize(size) && Used(head, tail) < size
    ensures Used(head, (tail + 1) % U32) == Used(head, tail) + 1
    ensures tail % size == Index(head, Used(head, tail), size)
    ensures forall i: nat :: i < Used(head, tail) ==> Index(head, i, size) != tail % size
  {
    var n, k := Used(head, tail), U32 / size;
    assert U32 == k * size;
    assert tail == head + n || tail == head + n - U32;
    ModAdds(head + n, -k, size);
    forall i: nat | i < n ensures Index(head, i, size) != tail % size {
      NearDiffer(head + i, head + n, size);
    }
  }

  lemma NearDiffer(x: nat, y: nat, size: nat)
    requires x < y < x + size
    ensures x % size != y % size
  {
    var d := y / size - x / size;
    assert (y / size) * size - (x / size) * size == d * size;
    assert y - x == d * size + (y % size - x % size);
    assert d > 0 ==> d * size >= size;
    assert d <= 0 ==> d * size <= 0;
  }

  /** A queue that is laid out in a ring from counter value `head` on has its rest laid out
      from the next value on. */
  lemma RestOfRing<T>(queue: seq<T>, ring: seq<T>, head: nat)
    requires head < U32 && IsRingSize(|ring|) && queue != []
    requires forall i {:trigger queue[i]} :: 0 <= i < |queue| ==> queue[i] == ring[Index(head, i, |ring|)]
    ensures forall i {:trigger queue[1..][i]} :: 0 <= i < |queue| - 1 ==> queue[1..][i] == ring[Index((head + 1) % U32, i, |ring|)]
  {
    forall i | 0 <= i < |queue| - 1 ensures queue[1..][i] == ring[Index((head + 1) % U32, i, |ring|)] {
      Wraps(head, 1, i, |ring|);
      assert queue[1..][i] == queue[i + 1];
    }
  }
}

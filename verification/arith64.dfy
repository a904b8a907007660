/** 64-bit division without a divide instruction (kernel/core/kutils.c:346-364,
    kernel/core/kutils.c:649-775, libs/libc.c:843-941). */
module Arith64 {

  const U64 := 0x1_0000_0000_0000_0000
  const MIN_INT64 := -0x8000_0000_0000_0000
  const MAX_INT64 := 0x7fff_ffff_ffff_ffff

  type Word = n: nat | n < U64
  type Long = n: int | MIN_INT64 <= n <= MAX_INT64

  function Pow2(i: nat): (r: nat)
    ensures r > 0
  {
    if i == 0 then 1 else 2 * Pow2(i - 1)
  }

  // ---------------- shift-and-add division by ten ----------------

  /** The estimate of udiv64_10 before its correction: no sum overflows, and it is at most
      one too small. */
  lemma EstimateBounds(n: Word, q0: nat, q1: nat, q2: nat, q3: nat, q4: nat, q: nat)
    requires q0 == n / 2 + n / 4
    requires q1 == q0 + q0 / 16
    requires q2 == q1 + q1 / 256
    requires q3 == q2 + q2 / 65536
    requires q4 == q3 + q3 / 0x1_0000_0000
    requires q == q4 / 8
    ensures q0 < U64 && q1 < U64 && q2 < U64 && q3 < U64 && q4 < U64
    ensures 10 * q <= n < 10 * q + 20
  {
    assert 3 * n - 5 <= 4 * q0 <= 3 * n;
    assert 17 * q0 - 15 <= 16 * q1 <= 17 * q0;
    assert 257 * q1 - 255 <= 256 * q2 <= 257 * q1;
    assert 65537 * q2 - 65535 <= 65536 * q3 <= 65537 * q2;
    assert 0x1_0000_0001 * q3 - 0xffff_ffff <= 0x1_0000_0000 * q4 <= 0x1_0000_0001 * q3;
    assert 8 * q <= q4 <= 8 * q + 7;
  }

  /** udiv64_10 is exact. */
  method DivideBy10(n: Word) returns (q: Word, rem: nat)
    ensures q == n / 10 && rem == n % 10
  {
    var q0: Word := n / 2 + n / 4;
    var q1, q2, q3, q4: nat;
    q1 := q0 + q0 / 16;
    q2 := q1 + q1 / 256;
    q3 := q2 + q2 / 65536;
    q4 := q3 + q3 / 0x1_0000_0000;
    var estimate := q4 / 8;
    EstimateBounds(n, q0, q1, q2, q3, q4, estimate);
    var w1: Word, w2: Word, w3: Word, w4: Word := q1, q2, q3, q4;
    q := w4 / 8;
    var r := n - q * 10;
    if r >= 10 {
      q := q + 1;
      r := r - 10;
    }
    rem := r;
  }

  // ---------------- restoring division ----------------

  /** Bit `i` of `n`. */
  function Bit(n: nat, i: nat): (b: nat)
    ensures b <= 1
  {
    n / Pow2(i) % 2
  }

  /** `q | (1 << i)`. */
  function SetBit(q: nat, i: nat): nat {
    if Bit(q, i) == 1 then q else q + Pow2(i)
  }

  lemma TimesKeepsOrder(a: nat, b: nat, k: nat)
    requires a <= b
    ensures a * k <= b * k
  {
    assert b * k - a * k == (b - a) * k;
  }

  lemma QuotientIs(n: int, d: int, q: int, r: int)
    requires d > 0 && n == q * d + r && 0 <= r < d
    ensures n / d == q && n % d == r
  {
    var e := n / d - q;
    assert e * d == r - n % d;
    assert e >= 1 ==> e * d >= d;
    assert e <= -1 ==> e * d <= -d;
    assert e == 0;
  }

  /** Halving what is left. */
  lemma HalfOf(n: nat, a: nat)
    requires a > 0
    ensures n / a == 2 * (n / (2 * a)) + n / a % 2
  {
    var k, r := n / a, n % a;
    var h, b := k / 2, k % 2;
    assert n == k * a + r;
    assert k * a == h * (2 * a) + b * a by {
      assert k * a == (2 * h) * a + b * a;
      assert (2 * h) * a == h * (2 * a);
    }
    assert b * a == if b == 1 then a else 0;
    QuotientIs(n, 2 * a, h, b * a + r);
  }

  /** Shifting in the next bit of `n`. */
  lemma NextBit(n: nat, i: nat)
    ensures n / Pow2(i) == 2 * (n / Pow2(i + 1)) + Bit(n, i)
  {
    HalfOf(n, Pow2(i));
  }

  /** What the loops keep before they look at bit `i`. */
  ghost predicate Divided(n: nat, d: nat, i: nat, q: nat, r: nat)
    requires d > 0
  {
    q == n / Pow2(i) / d * Pow2(i) && r == n / Pow2(i) % d
  }

  lemma QuotientBelow(n: nat, p: nat, bound: nat)
    requires p > 0 && n < bound * p
    ensures n / p < bound
  {
    assert n / p * p <= n;
    if n / p >= bound {
      TimesKeepsOrder(bound, n / p, p);
    }
  }

  lemma RemainderSmall(k: nat, d: nat)
    requires d > 0
    ensures k % d <= k && k % d < d
  {
    if k < d {
      QuotientIs(k, d, 0, k);
    }
  }

  lemma ShiftRoom(n: Word, d: nat, p: nat, rest: nat)
    requires p > 0 && d > 0 && rest * p == U64 && 2 * rest <= U64
    ensures 2 * (n / p % d) + 1 < U64
  {
    QuotientBelow(n, p, rest);
    RemainderSmall(n / p, d);
  }

  /** The remainder has room to be shifted, even by a divisor of 64 bits. */
  lemma RoomToShift(n: Word, d: nat, i: nat)
    requires d > 0 && i < 64
    ensures 2 * (n / Pow2(i + 1) % d) + 1 < U64
  {
    var rest := 63 - i;
    PowersMultiply(rest, i + 1);
    PowersGrow(rest, 63);
    PowerOf64();
    ShiftRoom(n, d, Pow2(i + 1), Pow2(rest));
  }

  lemma {:induction false} PowersMultiply(i: nat, j: nat)
    ensures Pow2(i) * Pow2(j) == Pow2(i + j)
  {
    if i > 0 {
      PowersMultiply(i - 1, j);
      assert Pow2(i) * Pow2(j) == 2 * (Pow2(i - 1) * Pow2(j));
    }
  }

  lemma {:induction false} PowersGrow(i: nat, j: nat)
    requires i <= j
    ensures Pow2(i) <= Pow2(j)
    decreases j
  {
    if i < j {
      PowersGrow(i, j - 1);
    }
  }

  lemma PowerOf64()
    ensures Pow2(64) == U64 && Pow2(63) == U64 / 2
  {
    assert Pow2(8) == 256;
    PowersMultiply(8, 8);
    PowersMultiply(16, 16);
    PowersMultiply(32, 32);
    assert Pow2(64) == 2 * Pow2(63);
  }

  /** One turn of the loop: the shifted remainder, and what a subtraction makes of it. */
  lemma DivisionStep(n: Word, d: nat, i: nat, q: nat, r: nat)
    requires d > 0 && Divided(n, d, i + 1, q, r)
    ensures var s := 2 * r + Bit(n, i);
      && (s < d ==> Divided(n, d, i, q, s))
      && (s >= d ==> Divided(n, d, i, SetBit(q, i), s - d))
  {
    var k, m := n / Pow2(i + 1), n / Pow2(i);
    var s := 2 * r + Bit(n, i);
    NextBit(n, i);
    assert k == k / d * d + r;
    assert m == (2 * (k / d)) * d + s by {
      assert 2 * (k / d * d) == (2 * (k / d)) * d;
    }
    assert q == k / d * Pow2(i + 1) == (2 * (k / d)) * Pow2(i);
    if s < d {
      QuotientIs(m, d, 2 * (k / d), s);
    } else {
      QuotientIs(m, d, 2 * (k / d) + 1, s - d) by {
        assert (2 * (k / d) + 1) * d == (2 * (k / d)) * d + d;
      }
      QuotientIs(q, Pow2(i), 2 * (k / d), 0);
      assert Bit(q, i) == 0;
      assert (2 * (k / d) + 1) * Pow2(i) == (2 * (k / d)) * Pow2(i) + Pow2(i);
    }
  }

  /** ... with the words of the machine: the shift loses no bit. */
  lemma Turn(n: Word, d: nat, i: nat, q: nat, r: Word)
    requires d > 0 && i < 64 && Divided(n, d, i + 1, q, r)
    ensures var s := ShiftIn(r, n, i);
      && s == 2 * r + Bit(n, i)
      && (s < d ==> Divided(n, d, i, q, s))
      && (s >= d ==> Divided(n, d, i, SetBit(q, i), s - d))
  {
    ShiftLosesNone(n, d, i, r);
    DivisionStep(n, d, i, q, r);
  }

  lemma ShiftLosesNone(n: Word, d: nat, i: nat, r: Word)
    requires d > 0 && i < 64 && r == n / Pow2(i + 1) % d
    ensures ShiftIn(r, n, i) == 2 * r + Bit(n, i)
  {
    RoomToShift(n, d, i);
    Unwrapped(2 * r);
  }

  lemma Unwrapped(x: Word)
    ensures x % U64 == x
  {
  }

  lemma DivisionStarts(n: Word, d: nat)
    requires d > 0
    ensures Divided(n, d, 64, 0, 0)
  {
    PowerOf64();
  }

  lemma DivisionEnds(n: Word, d: nat, q: nat, r: nat)
    requires d > 0 && Divided(n, d, 0, q, r)
    ensures q == n / d && r == n % d
  {
  }

  /** `r <<= 1; r |= (n >> i) & 1`, which wraps for a remainder of 64 bits. */
  function ShiftIn(r: Word, n: Word, i: nat): Word {
    2 * r % U64 + Bit(n, i)
  }

  /** __udivmoddi4: quotient and remainder at once. */
  method DivMod(n: Word, d: Word) returns (q: Word, r: Word)
    ensures d > 0 ==> q == n / d && r == n % d
    ensures d == 0 ==> q == 0 && r == 0
  {
    if d == 0 {
      return 0, 0;
    }
    var quot: nat := 0;
    r := 0;
    DivisionStarts(n, d);
    var i := 63;
    while i >= 0
      invariant -1 <= i < 64 && Divided(n, d, i + 1, quot, r)
    {
      Turn(n, d, i, quot, r);
      r := ShiftIn(r, n, i);
      if r >= d {
        r := r - d;
        quot := SetBit(quot, i);
      }
      i := i - 1;
    }
    DivisionEnds(n, d, quot, r);
    QuotientShrinks(n, d);
    q := quot;
  }

  /** The do-while form of __udivmoddi4 in libs/libc.c. */
  method DivModDoWhile(n: Word, d: Word) returns (q: Word, r: Word)
    ensures d > 0 ==> q == n / d && r == n % d
    ensures d == 0 ==> q == 0 && r == 0
  {
    if d == 0 {
      return 0, 0;
    }
    var quot: nat := 0;
    r := 0;
    DivisionStarts(n, d);
    var i := 63;
    var more := true;
    while more
      invariant more ==> 0 <= i < 64
      invariant !more ==> i == -1
      invariant Divided(n, d, i + 1, quot, r)
      decreases i + 1, more
    {
      Turn(n, d, i, quot, r);
      r := ShiftIn(r, n, i);
      if r >= d {
        r := r - d;
        quot := SetBit(quot, i);
      }
      more := i != 0;
      i := i - 1;
    }
    DivisionEnds(n, d, quot, r);
    QuotientShrinks(n, d);
    q := quot;
  }

  /** __udivdi3. */
  method Divide(n: Word, d: Word) returns (q: Word)
    ensures q == if d == 0 then 0 else n / d
  {
    if d == 0 {
      return 0;
    }
    var quot: nat := 0;
    var r: Word := 0;
    DivisionStarts(n, d);
    var i := 63;
    while i >= 0
      invariant -1 <= i < 64 && Divided(n, d, i + 1, quot, r)
    {
      Turn(n, d, i, quot, r);
      r := ShiftIn(r, n, i);
      if r >= d {
        r := r - d;
        quot := SetBit(quot, i);
      }
      i := i - 1;
    }
    DivisionEnds(n, d, quot, r);
    QuotientShrinks(n, d);
    q := quot;
  }

  /** __umoddi3. */
  method Modulo(n: Word, d: Word) returns (r: Word)
    ensures r == if d == 0 then 0 else n % d
  {
    if d == 0 {
      return 0;
    }
    r := 0;
    ghost var quot: nat := 0;
    DivisionStarts(n, d);
    var i := 63;
    while i >= 0
      invariant -1 <= i < 64 && Divided(n, d, i + 1, quot, r)
    {
      Turn(n, d, i, quot, r);
      r := ShiftIn(r, n, i);
      if r >= d {
        r := r - d;
        quot := SetBit(quot, i);
      }
      i := i - 1;
    }
    DivisionEnds(n, d, quot, r);
  }

  // ---------------- signed division ----------------

  function Abs(x: int): nat {
    if x < 0 then -x else x
  }

  /** Quotient and remainder as C11 section 6.5.5 wants them: the quotient truncates toward
      zero, and the remainder has the sign of the dividend. */
  ghost predicate IsTruncated(a: int, b: int, q: int, r: int) {
    && a == q * b + r && Abs(r) < Abs(b)
    && (r != 0 ==> (r < 0 <==> a < 0))
  }

  /** The C11 pair is unique, and the quotient has the magnitude of the exact quotient
      rounded down. */
  lemma TruncatedIsUnique(a: int, b: int, q: int, r: int)
    requires b != 0 && IsTruncated(a, b, q, r)
    ensures Abs(r) == Abs(a) % Abs(b) && Abs(q) == Abs(a) / Abs(b)
    ensures q != 0 ==> (q < 0 <==> (a < 0) != (b < 0))
  {
    var n, d, l := Abs(a), Abs(b), Abs(r);
    if a == 0 {
      TimesZero(q, b, r);
      QuotientIs(n, d, 0, l);
    } else {
      var p := if (a < 0) != (b < 0) then -q else q;
      Magnitudes(a, b, q, r);
      QuotientIs(n, d, p, l);
      QuotientNat(n, d);
    }
  }

  lemma QuotientNat(n: nat, d: nat)
    requires d > 0
    ensures n / d >= 0
  {
  }

  lemma Magnitudes(a: int, b: int, q: int, r: int)
    requires a != 0 && IsTruncated(a, b, q, r)
    ensures Abs(a) == (if (a < 0) != (b < 0) then -q else q) * Abs(b) + Abs(r)
  {
    SignsOut(q, b);
    var qb := q * b;
    assert a == qb + r;
  }

  lemma SignsOut(q: int, b: int)
    ensures (-q) * b == -(q * b) && q * (-b) == -(q * b) && (-q) * (-b) == q * b
  {
  }

  /** Zero has only one quotient. */
  lemma TimesZero(q: int, b: int, r: int)
    requires 0 == q * b + r && Abs(r) < Abs(b)
    ensures q == 0 && r == 0
  {
    assert Abs(q * b) == Abs(q) * Abs(b) by {
      SignsOut(q, b);
    }
    if Abs(q) >= 1 {
      TimesKeepsOrder(1, Abs(q), Abs(b));
    }
  }

  lemma SignedPair(a: int, b: int, q: int, r: int)
    requires b != 0
    requires q == if (a < 0) != (b < 0) then -(Abs(a) / Abs(b)) else Abs(a) / Abs(b)
    requires r == if a < 0 then -(Abs(a) % Abs(b)) else Abs(a) % Abs(b)
    ensures IsTruncated(a, b, q, r)
  {
    DivisionIdentity(Abs(a), Abs(b));
    TruncatedOf(a, b, Abs(a) / Abs(b), Abs(a) % Abs(b), q, r);
  }

  lemma DivisionIdentity(m: nat, d: nat)
    requires d > 0
    ensures m == m / d * d + m % d && 0 <= m % d < d
  {
  }

  /** Signs put on a quotient and a remainder of the magnitudes. */
  lemma TruncatedOf(a: int, b: int, k: int, l: int, q: int, r: int)
    requires Abs(a) == k * Abs(b) + l && 0 <= l < Abs(b)
    requires q == if (a < 0) != (b < 0) then -k else k
    requires r == if a < 0 then -l else l
    ensures IsTruncated(a, b, q, r)
  {
    SignedProduct(a, b, k, q);
  }

  lemma SignedProduct(a: int, b: int, k: int, q: int)
    requires q == if (a < 0) != (b < 0) then -k else k
    ensures q * b == if a < 0 then -(k * Abs(b)) else k * Abs(b)
  {
    SignsOut(k, Abs(b));
  }

  /** A quotient of absolute values is not larger than the dividend's. */
  lemma QuotientShrinks(n: nat, d: nat)
    requires d > 0
    ensures n / d <= n
  {
    TimesKeepsOrder(1, d, n / d);
    assert n / d * d <= n;
  }

  /** Negation of a 64-bit word in two's complement: the least int64 is its own. */
  function Negated(x: Long): Long {
    if x == MIN_INT64 then x else -x
  }

  /** The conversions between int64_t and uint64_t. */
  function AsWord(x: Long): Word {
    if x < 0 then x + U64 else x
  }

  function AsLong(w: Word): Long {
    if w > MAX_INT64 then w - U64 else w
  }

  /** The one pair of operands whose quotient is no int64. */
  predicate Overflows(a: Long, b: Long) {
    a == MIN_INT64 && b == -1
  }

  /** __divdi3.  Only a quotient of 2^63 does not fit: it comes out as the least int64. */
  method SignedDivide(a: Long, b: Long) returns (q: Long)
    ensures b == 0 ==> q == 0
    ensures b != 0 && Overflows(a, b) ==> q == MIN_INT64
    ensures b != 0 && !Overflows(a, b) ==> q == if (a < 0) != (b < 0) then -(Abs(a) / Abs(b)) else Abs(a) / Abs(b)
  {
    var neg := false;
    var m, d := a, b;
    if m < 0 {
      m := Negated(m);
      neg := !neg;
    }
    if d < 0 {
      d := Negated(d);
      neg := !neg;
    }
    assert AsWord(m) == Abs(a) && AsWord(d) == Abs(b);
    var u := Divide(AsWord(m), AsWord(d));
    if b != 0 {
      QuotientShrinks(Abs(a), Abs(b));
      TopQuotient(a, b);
    }
    q := if neg then Negated(AsLong(u)) else AsLong(u);
  }

  /** A quotient of 2^63 comes from the least int64 and one or minus one. */
  lemma TopQuotient(a: Long, b: Long)
    requires b != 0
    ensures Abs(a) / Abs(b) > MAX_INT64 ==> a == MIN_INT64 && (b == 1 || b == -1)
  {
    if Abs(b) >= 2 {
      QuotientHalves(Abs(a), Abs(b));
    }
  }

  lemma QuotientHalves(n: nat, d: nat)
    requires d >= 2
    ensures 2 * (n / d) <= n
  {
    TimesKeepsOrder(2, d, n / d);
    assert n / d * d <= n;
  }

  /** __moddi3. */
  method SignedModulo(a: Long, b: Long) returns (r: Long)
    ensures b == 0 ==> r == 0
    ensures b != 0 ==> r == if a < 0 then -(Abs(a) % Abs(b)) else Abs(a) % Abs(b)
  {
    var neg := a < 0;
    var m := if a < 0 then Negated(a) else a;
    var d := if b < 0 then Negated(b) else b;
    assert AsWord(m) == Abs(a) && AsWord(d) == Abs(b);
    var u := Modulo(AsWord(m), AsWord(d));
    assert b != 0 ==> u < Abs(b) <= MAX_INT64 + 1;
    r := if neg then Negated(AsLong(u)) else AsLong(u);
  }

  /** The signed routines together divide as C11 wants exactly when the quotient is an
      int64, and give two zeros for a zero divisor. */
  method SignedDivMod(a: Long, b: Long) returns (q: Long, r: Long)
    ensures b != 0 ==> (IsTruncated(a, b, q, r) <==> !Overflows(a, b))
    ensures b == 0 ==> q == 0 && r == 0
  {
    q := SignedDivide(a, b);
    r := SignedModulo(a, b);
    if b != 0 && !Overflows(a, b) {
      SignedPair(a, b, q, r);
    }
  }

  /** An integer in the 64 bits of an int64. */
  function Wrapped(x: int): Long {
    AsLong(x % U64)
  }

  lemma WrappedInRange(x: Long)
    ensures Wrapped(x) == x
  {
  }

  /** __divmoddi4: the remainder it computes from the quotient is that of __moddi3, even
      when the quotient overflows. */
  method SignedDivModCombined(a: Long, b: Long) returns (q: Long, rem: Long)
    ensures b == 0 ==> q == 0 && rem == a
    ensures b != 0 ==> (IsTruncated(a, b, q, rem) <==> !Overflows(a, b))
    ensures b != 0 ==> rem == if a < 0 then -(Abs(a) % Abs(b)) else Abs(a) % Abs(b)
  {
    q := SignedDivide(a, b);
    rem := Wrapped(a - Wrapped(q * b));
    if b == 0 {
      WrappedInRange(a);
    } else if !Overflows(a, b) {
      var r := if a < 0 then -(Abs(a) % Abs(b)) else Abs(a) % Abs(b);
      SignedPair(a, b, q, r);
      ProductInRange(a, b, q, r);
      WrappedInRange(a - r);
      WrappedInRange(r);
    }
  }

  /** The product in the remainder's computation stays between zero and the dividend. */
  lemma ProductInRange(a: Long, b: Long, q: int, r: int)
    requires b != 0 && IsTruncated(a, b, q, r)
    ensures q * b == a - r && MIN_INT64 <= a - r <= MAX_INT64 && MIN_INT64 <= r <= MAX_INT64
  {
    var n, d := Abs(a), Abs(b);
    TruncatedIsUnique(a, b, q, r);
    DivisionIdentity(n, d);
    TimesKeepsOrder(0, n / d, d);
  }
}

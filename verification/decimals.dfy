/** Decimal numerals, and how k_vsnprintf prints a 64-bit number (kernel/core/kutils.c:366-378,
    kernel/core/kutils.c:500-551). */
module Decimals {
  import opened Arith64

  function Digit(d: nat): char
    requires d < 10
  {
    '0' + d as char
  }

  predicate IsDigit(c: char) {
    '0' <= c <= '9'
  }

  function DigitValue(c: char): (d: nat)
    requires IsDigit(c)
    ensures d < 10
  {
    (c - '0') as nat
  }

  predicate AllDigits(s: string) {
    forall i :: 0 <= i < |s| ==> IsDigit(s[i])
  }

  /** The number that a row of digits stands for. */
  function Value(s: string): nat
    requires AllDigits(s)
  {
    if s == "" then 0 else 10 * Value(s[..|s| - 1]) + DigitValue(s[|s| - 1])
  }

  /** Digits without a superfluous zero in front. */
  predicate IsCanonical(s: string) {
    s != "" && AllDigits(s) && (|s| > 1 ==> s[0] != '0')
  }

  function Numeral(n: nat): string {
    if n < 10 then [Digit(n)] else Numeral(n / 10) + [Digit(n % 10)]
  }

  lemma {:induction false} NumeralIsCanonical(n: nat)
    ensures IsCanonical(Numeral(n)) && (n > 0 ==> Numeral(n)[0] != '0')
  {
    if n >= 10 {
      NumeralIsCanonical(n / 10);
    }
  }

  /** A numeral read back is the number. */
  lemma {:induction false} NumeralValue(n: nat)
    ensures AllDigits(Numeral(n)) && Value(Numeral(n)) == n
  {
    NumeralIsCanonical(n);
    if n < 10 {
      assert Numeral(n)[..0] == "";
    } else {
      NumeralValue(n / 10);
      assert Numeral(n)[..|Numeral(n)| - 1] == Numeral(n / 10);
    }
  }

  /** ... and canonical digits are the numeral of their value. */
  lemma {:induction false} ValueNumeral(s: string)
    requires IsCanonical(s)
    ensures Numeral(Value(s)) == s && (s != "0" ==> Value(s) > 0)
    decreases |s|
  {
    var front, last := s[..|s| - 1], s[|s| - 1];
    assert s == front + [last];
    if front == "" {
      assert Value(s) == DigitValue(last);
    } else {
      assert front[0] == s[0];
      ValueNumeral(front);
      assert Value(s) / 10 == Value(front) && Value(s) % 10 == DigitValue(last);
    }
  }

  function Pow10(k: nat): nat {
    if k == 0 then 1 else 10 * Pow10(k - 1)
  }

  lemma {:induction false} NumeralLength(n: nat, k: nat)
    requires k > 0 && n < Pow10(k)
    ensures |Numeral(n)| <= k
  {
    if n >= 10 {
      NumeralLength(n / 10, k - 1);
    }
  }

  /** Every 64-bit number has at most 20 digits. */
  lemma WordLength(n: Word)
    ensures |Numeral(n)| <= 20
  {
    assert Pow10(5) == 100000;
    assert Pow10(10) == 100000 * Pow10(5);
    assert Pow10(15) == 100000 * Pow10(10);
    assert Pow10(20) == 100000 * Pow10(15);
    NumeralLength(n, 20);
  }

  function Reverse(s: string): (r: string)
    ensures |r| == |s|
  {
    if s == "" then "" else Reverse(s[1..]) + [s[0]]
  }

  lemma {:induction false} ReverseAppend(s: string, c: char)
    ensures Reverse(s + [c]) == [c] + Reverse(s)
  {
    if s != "" {
      ReverseAppend(s[1..], c);
      assert (s + [c])[1..] == s[1..] + [c];
    }
  }

  lemma {:induction false} ReverseAt(s: string, i: nat)
    requires i < |s|
    ensures Reverse(s)[i] == s[|s| - 1 - i]
  {
    if i < |s| - 1 {
      ReverseAt(s[1..], i);
    }
  }

  /** The digits not produced yet, in front of those in the buffer. */
  ghost function Rest(v: nat): string {
    if v == 0 then "" else Numeral(v)
  }

  lemma RestStep(v: nat)
    requires v > 0
    ensures Rest(v) == Rest(v / 10) + [Digit(v % 10)]
  {
  }

  /** The digits of a number, last one first: the loop never fills its 24 characters. */
  method Digits(n: Word) returns (tmp: array<char>, tmpPos: nat)
    ensures fresh(tmp) && tmp.Length == 24 && tmpPos == |Numeral(n)| <= 20
    ensures Reverse(tmp[..tmpPos]) == Numeral(n)
  {
    tmp, tmpPos := new char[24], 0;
    WordLength(n);
    if n == 0 {
      tmp[tmpPos] := '0';
      tmpPos := tmpPos + 1;
      assert tmp[..1] == "0" && Reverse("0") == Reverse("") + "0";
      return;
    }
    var uv := n;
    while uv != 0 && tmpPos < 24
      invariant Rest(uv) + Reverse(tmp[..tmpPos]) == Numeral(n) && tmpPos <= 20
      decreases uv
    {
      var rem: nat;
      RestStep(uv);
      ReverseAppend(tmp[..tmpPos], Digit(uv % 10));
      ghost var v, done := uv, tmp[..tmpPos];
      uv, rem := DivideBy10(uv);
      tmp[tmpPos] := Digit(rem);
      tmpPos := tmpPos + 1;
      assert tmp[..tmpPos] == done + [Digit(v % 10)];
      assert Rest(uv) + ([Digit(rem)] + Reverse(done)) == Rest(v) + Reverse(done);
    }
    assert uv == 0;
  }

  // ---------------- output ----------------

  /** The buffer of k_vsnprintf after the text `t` has gone out from position `pos`: what does
      not fit in front of the last character is counted, but not stored. */
  ghost predicate Emitted(was: seq<char>, buf: seq<char>, pos: nat, t: string)
    requires |was| == |buf|
  {
    forall k :: 0 <= k < |buf| ==>
      buf[k] == if pos <= k < pos + |t| && k < |buf| - 1 then t[k - pos] else was[k]
  }

  lemma EmittedTwice(was: seq<char>, mid: seq<char>, buf: seq<char>, pos: nat, s: string, t: string)
    requires |was| == |mid| == |buf| && Emitted(was, mid, pos, s) && Emitted(mid, buf, pos + |s|, t)
    ensures Emitted(was, buf, pos, s + t)
  {
  }

  /** PUT_CHAR. */
  method PutChar(buf: array<char>, pos: nat, c: char) returns (newPos: nat)
    requires buf.Length > 0
    modifies buf
    ensures newPos == pos + 1 && Emitted(old(buf[..]), buf[..], pos, [c])
  {
    if pos < buf.Length - 1 {
      buf[pos] := c;
    }
    newPos := pos + 1;
  }

  function Padding(c: char, n: nat): string {
    seq(n, _ => c)
  }

  /** The text of a number in a field of the given width. */
  function Field(n: nat, width: nat, zeroPad: bool): string {
    var t := Numeral(n);
    Padding(if zeroPad then '0' else ' ', if width > |t| then width - |t| else 0) + t
  }

  method Pad(buf: array<char>, pos: nat, c: char, n: nat) returns (newPos: nat)
    requires buf.Length > 0
    modifies buf
    ensures newPos == pos + n && Emitted(old(buf[..]), buf[..], pos, Padding(c, n))
  {
    newPos := pos;
    var padLen: nat := n;
    while padLen > 0
      invariant padLen <= n && newPos == pos + (n - padLen)
      invariant Emitted(old(buf[..]), buf[..], pos, Padding(c, n - padLen))
    {
      newPos := PutChar(buf, newPos, c);
      padLen := padLen - 1;
    }
  }

  method PutReversed(buf: array<char>, pos: nat, tmp: array<char>, n: nat) returns (newPos: nat)
    requires buf.Length > 0 && buf != tmp && n <= tmp.Length
    modifies buf
    ensures newPos == pos + n && Emitted(old(buf[..]), buf[..], pos, Reverse(tmp[..n]))
  {
    newPos := pos;
    ghost var s := tmp[..n];
    var tmpPos: nat := n;
    while tmpPos > 0
      invariant tmpPos <= n && newPos == pos + (n - tmpPos) && tmp[..n] == s
      invariant Emitted(old(buf[..]), buf[..], pos, Reverse(s)[..n - tmpPos])
    {
      tmpPos := tmpPos - 1;
      ReverseAt(s, n - 1 - tmpPos);
      newPos := PutChar(buf, newPos, tmp[tmpPos]);
    }
    assert Reverse(s)[..n] == Reverse(s);
  }

  /** The conversion %llu of k_vsnprintf, with its flag and width. */
  method PrintWord(buf: array<char>, pos: nat, n: Word, width: nat, zeroPad: bool) returns (newPos: nat)
    requires buf.Length > 0
    modifies buf
    ensures newPos == pos + |Field(n, width, zeroPad)|
    ensures Emitted(old(buf[..]), buf[..], pos, Field(n, width, zeroPad))
  {
    var tmp, tmpPos := Digits(n);
    var padLen := if width > tmpPos then width - tmpPos else 0;
    ghost var c := if zeroPad then '0' else ' ';
    newPos := Pad(buf, pos, if zeroPad then '0' else ' ', padLen);
    ghost var mid := buf[..];
    newPos := PutReversed(buf, newPos, tmp, tmpPos);
    EmittedTwice(old(buf[..]), mid, buf[..], pos, Padding(c, padLen), Numeral(n));
  }

  /** A field is as wide as asked for, or as the numeral if that is wider, with blanks or
      zeros in front that do not change its value; and a number printed into a buffer with
      room for it can be read back from there. */
  lemma FieldReadsBack(n: nat, width: nat, zeroPad: bool, was: seq<char>, buf: seq<char>, pos: nat)
    requires |was| == |buf| && Emitted(was, buf, pos, Field(n, width, zeroPad))
    requires pos + |Field(n, width, zeroPad)| < |buf|
    ensures var t, m := Field(n, width, zeroPad), Numeral(n);
      && |t| == (if width > |m| then width else |m|)
      && (zeroPad ==> AllDigits(t) && Value(t) == n)
      && (!zeroPad ==> forall i :: 0 <= i < |t| - |m| ==> t[i] == ' ')
      && buf[pos + |t| - |m|..pos + |t|] == m
      && AllDigits(m) && Value(m) == n
  {
    NumeralValue(n);
    NumeralIsCanonical(n);
    FieldEnds(n, width, zeroPad);
    if zeroPad {
      LeadingZeros(if width > |Numeral(n)| then width - |Numeral(n)| else 0, Numeral(n));
    }
    EmittedEnd(was, buf, pos, Field(n, width, zeroPad), |Numeral(n)|);
  }

  lemma FieldEnds(n: nat, width: nat, zeroPad: bool)
    requires AllDigits(Numeral(n))
    ensures var t, m := Field(n, width, zeroPad), Numeral(n);
      && |t| == (if width > |m| then width else |m|) && t[|t| - |m|..] == m && (zeroPad ==> AllDigits(t))
      && (!zeroPad ==> forall i :: 0 <= i < |t| - |m| ==> t[i] == ' ')
  {
  }

  lemma {:induction false} ZerosAreNothing(k: nat)
    ensures AllDigits(Padding('0', k)) && Value(Padding('0', k)) == 0
  {
    if k > 0 {
      ZerosAreNothing(k - 1);
      assert Padding('0', k)[..k - 1] == Padding('0', k - 1);
    }
  }

  lemma {:induction false} LeadingZeros(k: nat, s: string)
    requires AllDigits(s)
    ensures AllDigits(Padding('0', k) + s) && Value(Padding('0', k) + s) == Value(s)
  {
    var t := Padding('0', k) + s;
    if s == "" {
      ZerosAreNothing(k);
      assert t == Padding('0', k);
    } else {
      LeadingZeros(k, s[..|s| - 1]);
      assert t[..|t| - 1] == Padding('0', k) + s[..|s| - 1];
    }
  }

  lemma EmittedEnd(was: seq<char>, buf: seq<char>, pos: nat, t: string, n: nat)
    requires |was| == |buf| && Emitted(was, buf, pos, t) && pos + |t| < |buf| && n <= |t|
    ensures buf[pos + |t| - n..pos + |t|] == t[|t| - n..]
  {
  }
}

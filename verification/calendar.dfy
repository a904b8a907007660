/** Seconds since the epoch and calendar dates: the conversion of bin/date.c and the
    independent one, in the other direction, of arch/x86/clock.c. */
module Calendar {

  const U32 := 0x1_0000_0000

  type Second = n: nat | n < U32

  predicate IsLeap(y: int) {
    (y % 4 == 0 && y % 100 != 0) || y % 400 == 0
  }

  const DIM: seq<nat> := [31, 28, 31, 30, 31, 30, 31, 31, 30, 31, 30, 31]

  /** Months are counted from 0. */
  function DaysInMonth(y: int, m: nat): nat
    requires m < 12
  {
    if m == 1 && IsLeap(y) then 29 else DIM[m]
  }

  function DaysInYear(y: int): nat {
    if IsLeap(y) then 366 else 365
  }

  datatype Date = Date(year: nat, mon: nat, mday: nat, hour: nat, min: nat, sec: nat)

  ghost predicate IsDate(d: Date) {
    && d.year >= 1970 && d.mon < 12 && 1 <= d.mday <= DaysInMonth(d.year, d.mon)
    && d.hour < 24 && d.min < 60 && d.sec < 60
  }

  /** Days from the epoch to the first day of a year. */
  function DaysBeforeYear(y: nat): nat
    requires y >= 1970
  {
    if y == 1970 then 0 else DaysBeforeYear(y - 1) + DaysInYear(y - 1)
  }

  /** Days from the first day of a year to the first day of a month. */
  function DaysBeforeMonth(y: nat, m: nat): nat
    requires m <= 12
  {
    if m == 0 then 0 else DaysBeforeMonth(y, m - 1) + DaysInMonth(y, m - 1)
  }

  function DayNumber(y: nat, m: nat, mday: nat): nat
    requires y >= 1970 && m < 12 && mday >= 1
  {
    DaysBeforeYear(y) + DaysBeforeMonth(y, m) + (mday - 1)
  }

  /** POSIX seconds since the epoch. */
  function Seconds(d: Date): nat
    requires d.year >= 1970 && d.mon < 12 && d.mday >= 1
  {
    ((DayNumber(d.year, d.mon, d.mday) * 24 + d.hour) * 60 + d.min) * 60 + d.sec
  }

  // ---------------- the calendar itself ----------------

  /** The Gregorian rule counted instead of recursed: a leap day every 4 years, but not
      every 100, but every 400. */
  lemma {:induction false} DaysBeforeYearClosed(y: nat)
    requires y >= 1970
    ensures DaysBeforeYear(y) == 365 * (y - 1970) + ((y - 1) / 4 - (y - 1) / 100 + (y - 1) / 400) - 477
  {
    if y > 1970 {
      DaysBeforeYearClosed(y - 1);
      MultiplesPassed(y - 1, 4);
      MultiplesPassed(y - 1, 100);
      MultiplesPassed(y - 1, 400);
      LeapNests(y - 1);
    }
  }

  lemma MultiplesPassed(z: nat, n: nat)
    requires z > 0 && n in {4, 100, 400}
    ensures z / n - (z - 1) / n == if z % n == 0 then 1 else 0
  {
  }

  lemma LeapNests(z: nat)
    ensures z % 400 == 0 ==> z % 100 == 0
    ensures z % 100 == 0 ==> z % 4 == 0
  {
    assert z % 400 == 0 ==> z == 100 * (4 * (z / 400));
    assert z % 100 == 0 ==> z == 4 * (25 * (z / 100));
  }

  lemma YearHasMonths(y: nat)
    ensures DaysBeforeMonth(y, 12) == DaysInYear(y)
  {
    TableIsDaysBefore(y, 11);
  }

  lemma {:induction false} MonthsGrow(y: nat, m: nat, n: nat)
    requires m < n <= 12
    ensures DaysBeforeMonth(y, m) + DaysInMonth(y, m) <= DaysBeforeMonth(y, n)
    decreases n
  {
    if m < n - 1 {
      MonthsGrow(y, m, n - 1);
    }
  }

  lemma {:induction false} YearsGrow(y: nat, z: nat)
    requires 1970 <= y < z
    ensures DaysBeforeYear(y) + DaysInYear(y) <= DaysBeforeYear(z)
    decreases z
  {
    if y < z - 1 {
      YearsGrow(y, z - 1);
    }
  }

  /** A day lies within its year. */
  lemma DayInYear(y: nat, m: nat, mday: nat)
    requires y >= 1970 && m < 12 && 1 <= mday <= DaysInMonth(y, m)
    ensures DaysBeforeYear(y) <= DayNumber(y, m, mday) < DaysBeforeYear(y) + DaysInYear(y)
  {
    YearHasMonths(y);
    MonthsGrow(y, m, 12);
  }

  ghost predicate EarlierDay(a: Date, b: Date) {
    a.year < b.year || (a.year == b.year && (a.mon < b.mon || (a.mon == b.mon && a.mday < b.mday)))
  }

  ghost predicate Earlier(a: Date, b: Date) {
    EarlierDay(a, b)
    || (a.year == b.year && a.mon == b.mon && a.mday == b.mday
        && (a.hour < b.hour || (a.hour == b.hour && (a.min < b.min || (a.min == b.min && a.sec < b.sec)))))
  }

  lemma EarlierDayLess(a: Date, b: Date)
    requires IsDate(a) && IsDate(b) && EarlierDay(a, b)
    ensures DayNumber(a.year, a.mon, a.mday) < DayNumber(b.year, b.mon, b.mday)
  {
    if a.year < b.year {
      DayInYear(a.year, a.mon, a.mday);
      DayInYear(b.year, b.mon, b.mday);
      YearsGrow(a.year, b.year);
    } else if a.mon < b.mon {
      MonthsGrow(a.year, a.mon, b.mon);
    }
  }

  lemma EarlierLess(a: Date, b: Date)
    requires IsDate(a) && IsDate(b) && Earlier(a, b)
    ensures Seconds(a) < Seconds(b)
  {
    if EarlierDay(a, b) {
      EarlierDayLess(a, b);
    }
  }

  /** Counting seconds keeps the order of dates, and so no two dates have the same count. */
  lemma SecondsOrder(a: Date, b: Date)
    requires IsDate(a) && IsDate(b)
    ensures Earlier(a, b) <==> Seconds(a) < Seconds(b)
    ensures Seconds(a) == Seconds(b) ==> a == b
  {
    if Earlier(a, b) {
      EarlierLess(a, b);
    } else if Earlier(b, a) {
      EarlierLess(b, a);
    }
  }

  // ---------------- from seconds to dates ----------------

  /** The loop over years. */
  method TakeYears(days: nat) returns (y: nat, t: nat)
    ensures y >= 1970 && t < DaysInYear(y) && DaysBeforeYear(y) + t == days
  {
    y, t := 1970, days;
    while true
      invariant y >= 1970 && DaysBeforeYear(y) + t == days
      decreases t
    {
      var n := if IsLeap(y) then 366 else 365;
      if t < n {
        break;
      }
      t := t - n;
      y := y + 1;
    }
  }

  /** The loop over months; it never gets past December. */
  method TakeMonths(y: nat, days: nat) returns (m: nat, t: nat)
    requires days < DaysInYear(y)
    ensures m < 12 && t < DaysInMonth(y, m) && DaysBeforeMonth(y, m) + t == days
  {
    m, t := 0, days;
    YearHasMonths(y);
    while true
      invariant m < 12 && DaysBeforeMonth(y, m) + t == days
      decreases t
    {
      var d := DaysInMonth(y, m);
      if t < d {
        break;
      }
      t := t - d;
      m := m + 1;
    }
  }

  /** epoch_to_utc: the one date whose count of seconds is `t`, and its weekday. */
  method EpochToUtc(t: Second) returns (d: Date, wday: nat)
    ensures IsDate(d) && Seconds(d) == t
    ensures forall e: Date :: IsDate(e) && Seconds(e) == t ==> e == d
    ensures wday == (DayNumber(d.year, d.mon, d.mday) + 4) % 7
  {
    var sec, t1 := t % 60, t / 60;
    var min, t2 := t1 % 60, t1 / 60;
    var hour, t3 := t2 % 24, t2 / 24;
    wday := (t3 + 4) % 7;
    var y, m, rest: nat;
    y, rest := TakeYears(t3);
    m, rest := TakeMonths(y, rest);
    d := Date(y, m, rest + 1, hour, min, sec);
    forall e: Date | IsDate(e) && Seconds(e) == t ensures e == d {
      SecondsOrder(e, d);
    }
  }

  /** Later seconds give later dates. */
  method CompareInstants(s: Second, t: Second) returns (a: Date, b: Date)
    ensures IsDate(a) && IsDate(b) && Seconds(a) == s && Seconds(b) == t
    ensures s < t <==> Earlier(a, b)
  {
    var w, v: nat;
    a, w := EpochToUtc(s);
    b, v := EpochToUtc(t);
    SecondsOrder(a, b);
  }

  // ---------------- from the clock chip to seconds ----------------

  type Byte = n: nat | n < 256

  /** A two-digit number from its binary-coded form. */
  function Bcd(v: Byte): nat {
    v % 16 + v / 16 * 10
  }

  lemma BcdDecodes(n: nat)
    requires n < 100
    ensures n / 10 * 16 + n % 10 < 256 && Bcd(n / 10 * 16 + n % 10) == n
  {
  }

  const DAYS_BEFORE: seq<nat> := [0, 31, 59, 90, 120, 151, 181, 212, 243, 273, 304, 334]

  /** The table in clock.c and the leap-day adjustment. */
  lemma {:induction false} TableIsDaysBefore(y: nat, m: nat)
    requires m < 12
    ensures DaysBeforeMonth(y, m) == DAYS_BEFORE[m] + if m >= 2 && IsLeap(y) then 1 else 0
  {
    if m > 0 {
      TableIsDaysBefore(y, m - 1);
    }
  }

  /** Until 2100 every fourth year is a leap year. */
  lemma {:induction false} YearsOfThisCentury(y: nat)
    requires 1970 <= y <= 2100
    ensures DaysBeforeYear(y) == (y - 1970) * 365 + (y - 1969) / 4
  {
    if y > 1970 {
      YearsOfThisCentury(y - 1);
      OnlyCentury(y - 1);
      MultiplesPassed(y - 1, 4);
    }
  }

  lemma OnlyCentury(z: nat)
    requires 1970 <= z <= 2099
    ensures IsLeap(z) <==> z % 4 == 0
  {
    LeapNests(z);
    assert z / 100 == 19 || z / 100 == 20;
  }

  lemma SecondsFit(d: Date)
    requires IsDate(d) && d.year <= 2099
    ensures Seconds(d) < U32
  {
    DayInYear(d.year, d.mon, d.mday);
    YearsGrow(d.year, 2100);
    YearsOfThisCentury(2100);
  }

  /** A known instant: 12:34:56 on the leap day of the year 2000, a Tuesday. */
  lemma KnownInstant(d: Date)
    requires d.year == 2000 && d.mon == 1 && d.mday == 29 && d.hour == 12 && d.min == 34 && d.sec == 56
    ensures IsDate(d) && Seconds(d) == 951827696 && (DayNumber(d.year, d.mon, d.mday) + 4) % 7 == 2
  {
    YearsOfThisCentury(d.year);
    TableIsDaysBefore(d.year, d.mon);
  }

  /** The count of days with the table of months. */
  function RtcDays(y: nat, m: nat, day: nat): int
    requires m < 12
  {
    (y - 1970) * 365 + (y - 1969) / 4 + DAYS_BEFORE[m] + (day - 1) + if m >= 2 && IsLeap(y) then 1 else 0
  }

  lemma RtcDaysCount(y: nat, m: nat, day: nat)
    requires 2000 <= y <= 2099 && m < 12 && day >= 1
    ensures RtcDays(y, m, day) == DayNumber(y, m, day)
  {
    TableIsDaysBefore(y, m);
    YearsOfThisCentury(y);
  }

  lemma RtcCount(d: Date)
    requires IsDate(d) && 2000 <= d.year <= 2099
    ensures RtcDays(d.year, d.mon, d.mday) * 86400 + d.hour * 3600 + d.min * 60 + d.sec == Seconds(d) < U32
  {
    RtcDaysCount(d.year, d.mon, d.mday);
    SecondsFit(d);
  }

  /** The arithmetic of rtc_seconds_since_epoch on the registers of the clock chip, modulo
      2^32: a date of this century is counted without a wrap. */
  method RtcSeconds(sec: nat, min: nat, hour: nat, day: nat, mon: nat, year: nat) returns (t: Second)
    requires 1 <= mon <= 12
    ensures var d := Date(2000 + year, mon - 1, day, hour, min, sec);
      year <= 99 && IsDate(d) ==> t == Seconds(d)
  {
    var y := 2000 + year;
    var days: int := (y - 1970) * 365 + (y - 1969) / 4 + DAYS_BEFORE[mon - 1] + (day - 1);
    if mon > 2 && y % 4 == 0 && (y % 100 != 0 || y % 400 == 0) {
      days := days + 1;
    }
    assert days == RtcDays(y, mon - 1, day);
    var total := days * 86400 + hour * 3600 + min * 60 + sec;
    t := total % U32;
    ghost var d := Date(y, mon - 1, day, hour, min, sec);
    if year <= 99 && IsDate(d) {
      RtcCount(d);
      Unwrapped(total);
    }
  }

  lemma Unwrapped(x: Second)
    ensures x % U32 == x
  {
  }

  /** The two conversions are inverse to each other for every date of this century. */
  method ClockRoundTrip(sec: nat, min: nat, hour: nat, day: nat, mon: nat, year: nat) returns (d: Date)
    requires 1 <= mon <= 12 && day >= 1 && year <= 99
    requires IsDate(Date(2000 + year, mon - 1, day, hour, min, sec))
    ensures d == Date(2000 + year, mon - 1, day, hour, min, sec)
  {
    var t := RtcSeconds(sec, min, hour, day, mon, year);
    var w: nat;
    d, w := EpochToUtc(t);
  }
}

/** Calendar time both ways: localtime (userspace/libc/time.c) turns seconds into a date,
    the real-time clock code (kernel/dev/lapic.c) turns a date into seconds. */
module Calendar {
  import opened Arithmetic

  const TWO31 := 0x8000_0000
  const TWO32 := 0x1_0000_0000
  const DAY := 86400

  /** struct tm, with the full year and 1-based month that localtime stores */
  datatype Tm = Tm(year: int, mon: int, mday: int, hour: int, min: int, sec: int)

  // ----- the calendar ------------------------------------------------------

  predicate IsLeapYear(y: nat) {
    y % 4 == 0 && (y % 100 != 0 || y % 400 == 0)
  }

  function DaysInYear(y: nat): (n: nat) {
    if IsLeapYear(y) then 366 else 365
  }

  const DAYS_OF_MONTH: seq<nat> := [31, 28, 31, 30, 31, 30, 31, 31, 30, 31, 30, 31]

  function DaysInMonth(y: nat, m: nat): (n: nat)
    requires 1 <= m <= 12
  {
    if m == 2 && IsLeapYear(y) then 29 else DAYS_OF_MONTH[m - 1]
  }

  lemma MonthLength(y: nat, m: nat)
    requires 1 <= m <= 12
    ensures 28 <= DaysInMonth(y, m) <= 31
  {
  }

  /** Days from 1 January 1970 to 1 January of year y. */
  function YearStart(y: nat): (n: nat)
    decreases y
  {
    if y <= 1970 then 0 else YearStart(y - 1) + DaysInYear(y - 1)
  }

  /** Days from 1 January to the first of month m. */
  function MonthStart(y: nat, m: nat): (n: nat)
    requires m <= 13
    decreases m
  {
    if m <= 1 then 0 else MonthStart(y, m - 1) + DaysInMonth(y, m - 1)
  }

  /** A date of the Gregorian calendar. */
  predicate ValidDate(tm: Tm) {
    tm.year >= 1970 && 1 <= tm.mon <= 12 && 1 <= tm.mday <= DaysInMonth(tm.year, tm.mon)
  }

  predicate ValidTime(tm: Tm) {
    0 <= tm.hour < 24 && 0 <= tm.min < 60 && 0 <= tm.sec < 60
  }

  function DayNumber(tm: Tm): (n: int)
    requires tm.year >= 0 && 0 <= tm.mon <= 13
  {
    YearStart(tm.year) + MonthStart(tm.year, tm.mon) + tm.mday - 1
  }

  lemma DivStep(x: int, d: int)
    requires x > 0 && d > 0
    ensures x / d - (x - 1) / d == if x % d == 0 then 1 else 0
  {
    var q, r := x / d, x % d;
    assert x == d * q + r;
    if r == 0 {
      assert x - 1 == d * (q - 1) + (d - 1);
      DivUnique(x - 1, d, q - 1, d - 1);
    } else {
      DivUnique(x - 1, d, q, r - 1);
    }
  }

  /** The leap days of section 4.16 of POSIX.1-2017 Base Definitions, "Seconds Since the Epoch",
      are those that the loops over years count. */
  lemma {:induction false} YearStartClosedForm(y: nat)
    requires y >= 1970
    ensures YearStart(y) == 365 * (y - 1970) + (y - 1969) / 4 - (y - 1901) / 100 + (y - 1601) / 400
    decreases y
  {
    if y > 1970 {
      YearStartClosedForm(y - 1);
      LeapDays(y);
      DivStep(y - 1969, 4);
      DivStep(y - 1901, 100);
      DivStep(y - 1601, 400);
    }
  }

  lemma LeapDays(y: nat)
    requires y > 1970
    ensures IsLeapYear(y - 1) <==> (y - 1969) % 4 == 0 && ((y - 1901) % 100 != 0 || (y - 1601) % 400 == 0)
    ensures (y - 1901) % 100 == 0 ==> (y - 1969) % 4 == 0
    ensures (y - 1601) % 400 == 0 ==> (y - 1901) % 100 == 0
  {
    ModShift(y - 1, 4, 492);
    ModShift(y - 1, 100, 19);
    ModShift(y - 1, 400, 4);
    if (y - 1) % 100 == 0 { MultipleOf(y - 1, 4, 25); }
    if (y - 1) % 400 == 0 { MultipleOf(y - 1, 100, 4); }
  }

  /** The days ahead of a month, by a formula that knows no table of month lengths: months have
      30 and 31 days in turn as a line of slope 367 / 12 crosses whole numbers, but for February. */
  lemma {:induction false} MonthStartClosedForm(y: nat, m: nat)
    requires 1 <= m <= 13
    ensures MonthStart(y, m) == (367 * m - 362) / 12 - (if m <= 2 then 0 else if IsLeapYear(y) then 1 else 2)
    decreases m
  {
    if m > 1 {
      MonthStartClosedForm(y, m - 1);
      LineCrosses(m);
    }
  }

  lemma LineCrosses(m: nat)
    requires 2 <= m <= 13
    ensures (367 * m - 362) / 12 - (367 * (m - 1) - 362) / 12 == DAYS_OF_MONTH[m - 2] + if m == 3 then 2 else 0
  {
    match m
    case 2 => case 3 => case 4 => case 5 => case 6 => case 7 =>
    case 8 => case 9 => case 10 => case 11 => case 12 => case 13 =>
  }

  lemma YearLength(y: nat)
    ensures MonthStart(y, 13) == DaysInYear(y)
  {
    MonthStartClosedForm(y, 13);
  }

  lemma {:induction false} MonthsRise(y: nat, m: nat, m': nat)
    requires 1 <= m < m' <= 13
    ensures MonthStart(y, m) + DaysInMonth(y, m) <= MonthStart(y, m')
    decreases m'
  {
    if m + 1 < m' {
      MonthsRise(y, m, m' - 1);
    }
  }

  lemma {:induction false} YearsRise(y: nat, y': nat)
    requires 1970 <= y < y'
    ensures YearStart(y) + DaysInYear(y) <= YearStart(y')
    decreases y'
  {
    if y + 1 < y' {
      YearsRise(y, y' - 1);
    }
  }

  lemma DayInYear(tm: Tm)
    requires ValidDate(tm)
    ensures YearStart(tm.year) <= DayNumber(tm) < YearStart(tm.year) + DaysInYear(tm.year)
  {
    YearLength(tm.year);
    MonthsRise(tm.year, tm.mon, 13);
  }

  /** Two valid dates with the same day number are the same date. */
  lemma DateUnique(a: Tm, b: Tm)
    requires ValidDate(a) && ValidDate(b) && DayNumber(a) == DayNumber(b)
    ensures a.year == b.year && a.mon == b.mon && a.mday == b.mday
  {
    DayInYear(a);
    DayInYear(b);
    if a.year < b.year { YearsRise(a.year, b.year); }
    if b.year < a.year { YearsRise(b.year, a.year); }
    if a.mon < b.mon { MonthsRise(a.year, a.mon, b.mon); }
    if b.mon < a.mon { MonthsRise(a.year, b.mon, a.mon); }
  }

  // ----- localtime ---------------------------------------------------------

  /** Conversion of an unsigned 64-bit value to int. */
  function ToInt(x: nat): (r: int)
    ensures -TWO31 <= r < TWO31
  {
    (x + TWO31) % TWO32 - TWO31
  }

  /** The loop over years. */
  method FindYear(days: int) returns (year: nat, left: int)
    ensures days < 0 ==> year == 1970 && left == days
    ensures days >= 0 ==> year >= 1970 && 0 <= left < DaysInYear(year) && YearStart(year) + left == days
  {
    year, left := 1970, days;
    while true
      invariant days < 0 ==> year == 1970 && left == days
      invariant days >= 0 ==> year >= 1970 && left >= 0 && YearStart(year) + left == days
      decreases left
    {
      if year % 400 == 0 || (year % 4 == 0 && year % 100 != 0) {
        if left < 366 {
          break;
        }
        left := left - 366;
      } else {
        if left < 365 {
          break;
        }
        left := left - 365;
      }
      year := year + 1;
    }
  }

  /** Months as the loop counts them. */
  lemma NextMonth(year: nat, index: nat)
    requires index < 12
    ensures DaysInMonth(year, index + 1) ==
            if (year % 400 == 0 || (year % 4 == 0 && year % 100 != 0)) && index == 1 then 29 else DAYS_OF_MONTH[index]
    ensures MonthStart(year, index + 2) == MonthStart(year, index + 1) + DaysInMonth(year, index + 1)
    ensures index == 0 ==> MonthStart(year, index + 1) == 0
  {
    if year % 400 == 0 { MultipleOf(year, 4, 100); }
  }

  /** The loop over months, and the day of the month that remains. `extra` counts the
      current day, so the last day of a month leaves 0 after the subtraction. */
  method FindMonth(year: nat, extra0: int) returns (month: nat, date: int)
    requires extra0 <= DaysInYear(year)
    ensures extra0 <= 0 ==> month == 0 && date == 31
    ensures extra0 > 0 ==> 1 <= month <= 12 && 1 <= date <= DaysInMonth(year, month)
                           && MonthStart(year, month) + date == extra0
  {
    hide DaysInMonth, MonthStart, DaysInYear;
    var flag := year % 400 == 0 || (year % 4 == 0 && year % 100 != 0);
    var extra, index := extra0, 0;
    month := 0;
    YearLength(year);
    NextMonth(year, 0);
    while index < 12
      invariant 0 <= index == month <= 12
      invariant extra0 <= 0 ==> month == 0 && extra == extra0
      invariant extra0 > 0 ==> extra >= 0 && MonthStart(year, month + 1) + extra == extra0
    {
      var length := if flag && index == 1 then 29 else DAYS_OF_MONTH[index];
      NextMonth(year, index);
      MonthLength(year, index + 1);
      if extra - length < 0 {
        break;
      }
      month := month + 1;
      extra := extra - length;
      index := index + 1;
    }
    if month > 0 {
      NextMonth(year, month - 1);
      MonthLength(year, month);
    }
    if extra > 0 {
      month := month + 1;
      date := extra;
    } else if month == 2 && flag {
      date := 29;
    } else {
      date := DAYS_OF_MONTH[month - (if month >= 1 then 1 else 0)];
    }
  }

  /** localtime, for every 64-bit time. Days beyond the range of int wrap around. */
  method LocalTime(t: nat) returns (tm: Tm)
    requires t < TWO64
    ensures ValidTime(tm) && tm.hour * 3600 + tm.min * 60 + tm.sec == t % DAY
    ensures ToInt(t / DAY) >= 0 ==> ValidDate(tm) && DayNumber(tm) == ToInt(t / DAY)
    ensures ToInt(t / DAY) < 0 ==> tm.year == 1970 && tm.mon == 0 && tm.mday == 31
  {
    var days := ToInt(t / DAY);
    var extraTime := t % DAY;
    var year, left := FindYear(days);
    var month, date := FindMonth(year, left + 1);
    tm := Tm(year, month, date, extraTime / 3600, extraTime % 3600 / 60, extraTime % 3600 % 60);
  }

  // ----- the real-time clock -----------------------------------------------

  /** One addition in unsigned arithmetic. */
  function AddU(a: nat, b: nat): (r: nat)
    ensures r < TWO32
  {
    (a + b) % TWO32
  }

  lemma AddUWraps(a: nat, b: nat)
    ensures AddU(a % TWO32, b) == (a + b) % TWO32
  {
    ModShift(a + b, TWO32, a / TWO32);
    assert a + b - TWO32 * (a / TWO32) == a % TWO32 + b;
  }

  /** day_of_year, in unsigned arithmetic */
  method DayOfYear(year: nat, month: nat, day: nat) returns (r: nat)
    requires month <= 13 && 1 <= day < TWO32
    ensures r == (MonthStart(year, month) + day - 1) % TWO32
  {
    hide DaysInMonth, AddU;
    r := day - 1;
    var m := 1;
    while m < month
      invariant 1 <= m <= month || month == 0
      invariant r == (MonthStart(year, if month == 0 then 0 else m) + day - 1) % TWO32
    {
      AddUWraps(MonthStart(year, m) + day - 1, DaysInMonth(year, m));
      r := AddU(r, DaysInMonth(year, m));
      m := m + 1;
    }
  }

  /** days_since_epoch, in unsigned arithmetic */
  method DaysSinceEpoch(year: nat, month: nat, day: nat) returns (days: nat)
    requires year >= 1970 && month <= 13 && 1 <= day < TWO32
    ensures days == (YearStart(year) + MonthStart(year, month) + day - 1) % TWO32
  {
    hide DaysInYear, AddU, MonthStart;
    days := DayOfYear(year, month, day);
    var y := 1970;
    while y < year
      invariant 1970 <= y <= year
      invariant days == (YearStart(y) + MonthStart(year, month) + day - 1) % TWO32
    {
      AddUWraps(YearStart(y) + MonthStart(year, month) + day - 1, DaysInYear(y));
      days := AddU(days, DaysInYear(y));
      y := y + 1;
    }
  }

  /** The closing arithmetic of rtc_now. */
  method ToSeconds(tm: Tm) returns (r: nat)
    requires tm.year >= 1970 && 0 <= tm.mon <= 13 && 1 <= tm.mday < TWO32 && ValidTime(tm)
    ensures r == ((DayNumber(tm) % TWO32 * 24 + tm.hour) * 60 + tm.min) * 60 + tm.sec
  {
    var days := DaysSinceEpoch(tm.year, tm.mon, tm.mday);
    var hours := days * 24 + tm.hour;
    var minutes := hours * 60 + tm.min;
    r := minutes * 60 + tm.sec;
  }

  /** Seconds to date and back gives the same seconds exactly while the day number fits an int. */
  method RoundTrip(t: nat) returns (r: nat)
    requires t < TWO64
    ensures r == t <==> t / DAY < TWO31
  {
    var tm := LocalTime(t);
    if 1 <= tm.mon <= 12 { MonthLength(tm.year, tm.mon); }
    if tm.mon == 0 {
      assert DayNumber(tm) == 30;
    }
    r := ToSeconds(tm);
  }

  lemma ClockUnique(h: int, m: int, s: int, h': int, m': int, s': int)
    requires 0 <= m < 60 && 0 <= s < 60 && 0 <= m' < 60 && 0 <= s' < 60
    requires h * 3600 + m * 60 + s == h' * 3600 + m' * 60 + s'
    ensures h == h' && m == m' && s == s'
  {
  }

  /** Date to seconds and back gives the same date. */
  method RoundTripDate(tm: Tm) returns (r: Tm)
    requires ValidDate(tm) && ValidTime(tm) && DayNumber(tm) < TWO31
    ensures r == tm
  {
    hide YearStart, MonthStart;
    var t := ToSeconds(tm);
    var day, rest := DayNumber(tm), tm.hour * 3600 + tm.min * 60 + tm.sec;
    assert t == DAY * day + rest;
    DivUnique(t, DAY, day, rest);
    r := LocalTime(t);
    DateUnique(tm, r);
    ClockUnique(tm.hour, tm.min, tm.sec, r.hour, r.min, r.sec);
  }
}

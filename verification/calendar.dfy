/**
 * Calendar conversion of src/time_r.c and src/time_conv.c: seconds since the
 * epoch to a broken-down date and back. time_t is unbounded here; the day count,
 * which the source keeps in an int, is cut to 32 bits as there.
 */
module Calendar {
  import opened Bytes

  const DAY: int := 86400
  const INT_SPAN: int := 0x1_0000_0000
  const INT_MAX: int := 0x7FFF_FFFF

  predicate IsLeap(year: int) {
    if year % 4 != 0 then false else if year % 100 != 0 then true else year % 400 == 0
  }

  function YearDays(year: int): int {
    if IsLeap(year) then 366 else 365
  }

  function MonthDays(leap: bool, mon: int): (d: int)
    requires 0 <= mon < 12
    ensures 28 <= d <= 31
  {
    if mon == 1 then if leap then 29 else 28
    else if mon == 3 || mon == 5 || mon == 8 || mon == 10 then 30
    else 31
  }

  /** Days from the epoch to the first of January. */
  function DaysBefore(year: int): int {
    if year <= 1970 then 0 else DaysBefore(year - 1) + YearDays(year - 1)
  }

  /** Days from the first of January to the first of the month; a negative month counts as January. */
  function MonthStart(leap: bool, mon: int): int
    requires mon <= 12
  {
    if mon <= 0 then 0 else MonthStart(leap, mon - 1) + MonthDays(leap, mon - 1)
  }

  /** Leap years up to and including y, by the Gregorian rule. */
  function LeapsUpTo(y: int): int {
    y / 4 - y / 100 + y / 400
  }

  lemma DivStep(y: int)
    ensures y / 4 - (y - 1) / 4 == if y % 4 == 0 then 1 else 0
    ensures y / 100 - (y - 1) / 100 == if y % 100 == 0 then 1 else 0
    ensures y / 400 - (y - 1) / 400 == if y % 400 == 0 then 1 else 0
  {
  }

  lemma CenturiesDivide(y: int)
    ensures y % 100 == 0 ==> y % 4 == 0
    ensures y % 400 == 0 ==> y % 100 == 0
  {
  }

  lemma LeapStep(y: int)
    ensures LeapsUpTo(y) - LeapsUpTo(y - 1) == if IsLeap(y) then 1 else 0
  {
    DivStep(y);
    CenturiesDivide(y);
  }

  /** The year loop counts what the Gregorian rule says. */
  lemma {:induction false} DaysBeforeClosed(year: int)
    requires year >= 1970
    ensures DaysBefore(year) == 365 * (year - 1970) + LeapsUpTo(year - 1) - LeapsUpTo(1969)
  {
    if year > 1970 {
      DaysBeforeClosed(year - 1);
      LeapStep(year - 1);
    }
  }

  lemma MonthsFillYear(leap: bool)
    ensures MonthStart(leap, 12) == if leap then 366 else 365
  {
    assert MonthStart(leap, 1) == 31;
    assert MonthStart(leap, 2) == if leap then 60 else 59;
    assert MonthStart(leap, 4) == if leap then 121 else 120;
    assert MonthStart(leap, 6) == if leap then 182 else 181;
    assert MonthStart(leap, 8) == if leap then 244 else 243;
    assert MonthStart(leap, 10) == if leap then 305 else 304;
  }

  /** A day of the calendar, counted from the epoch. */
  function DayNumber(year: int, mon: int, mday: int): int
    requires mon <= 12
  {
    DaysBefore(year) + MonthStart(IsLeap(year), mon) + mday - 1
  }

  // ---- The calendar without its tables ----

  /** Months run through by the rule of five months to 153 days, counted from March. */
  function FromMarch(k: int): int {
    (153 * k + 2) / 5
  }

  /** The Gregorian day number, counted from the epoch: years start in March, so the leap day comes last. */
  function Civil(year: int, mon: int, mday: int): int {
    var y := if mon < 2 then year - 1 else year;
    365 * y + LeapsUpTo(y) + FromMarch((mon + 10) % 12) + mday - 1 - 719468
  }

  lemma FromMarchStep(k: int)
    requires 0 <= k < 11
    ensures FromMarch(k + 1) - FromMarch(k) == if k == 1 || k == 3 || k == 6 || k == 8 then 30 else 31
  {
    assert FromMarch(0) == 0 && FromMarch(1) == 31 && FromMarch(2) == 61 && FromMarch(3) == 92;
    assert FromMarch(4) == 122 && FromMarch(5) == 153 && FromMarch(6) == 184 && FromMarch(7) == 214;
    assert FromMarch(8) == 245 && FromMarch(9) == 275 && FromMarch(10) == 306 && FromMarch(11) == 337;
  }

  /** From March on the month table follows the rule. */
  lemma {:induction false} MonthStartClosed(leap: bool, mon: int)
    requires 2 <= mon <= 12
    ensures MonthStart(leap, mon) == (if leap then 60 else 59) + FromMarch(mon - 2)
    decreases mon
  {
    if mon > 2 {
      MonthStartClosed(leap, mon - 1);
      FromMarchStep(mon - 3);
    } else {
      assert MonthStart(leap, 1) == 31;
      assert FromMarch(0) == 0;
    }
  }

  lemma FirstMonths(leap: bool)
    ensures MonthStart(leap, 0) == 0 && MonthStart(leap, 1) == 31
  {
  }

  /** The sum of the loops is the Gregorian day number. */
  lemma DayNumberIsCivil(year: int, mon: int, mday: int)
    requires year >= 1970 && 0 <= mon < 12
    ensures DayNumber(year, mon, mday) == Civil(year, mon, mday)
  {
    assert LeapsUpTo(1969) == 477 && FromMarch(10) == 306 && FromMarch(11) == 337;
    hide IsLeap, LeapsUpTo, DaysBefore, MonthStart, FromMarch;
    DaysBeforeClosed(year);
    LeapStep(year);
    FirstMonths(IsLeap(year));
    if mon >= 2 {
      MonthStartClosed(IsLeap(year), mon);
      assert (mon + 10) % 12 == mon - 2;
    }
  }

  /** A month is as long as the way to the next. */
  lemma MonthDaysIsCivil(year: int, mon: int)
    requires year >= 1970 && 0 <= mon < 12
    ensures MonthDays(IsLeap(year), mon) ==
            (if mon == 11 then Civil(year + 1, 0, 1) else Civil(year, mon + 1, 1)) - Civil(year, mon, 1)
  {
    DayNumberIsCivil(year, mon, 1);
    if mon == 11 {
      DayNumberIsCivil(year + 1, 0, 1);
      MonthsFillYear(IsLeap(year));
    } else {
      DayNumberIsCivil(year, mon + 1, 1);
    }
  }

  predicate ValidDate(year: int, mon: int, mday: int) {
    year >= 1970 && 0 <= mon < 12 && 1 <= mday <= MonthDays(IsLeap(year), mon)
  }

  lemma {:induction false} DaysBeforeGrows(a: int, b: int)
    requires 1970 <= a < b
    ensures DaysBefore(a) + YearDays(a) <= DaysBefore(b)
    decreases b
  {
    if a < b - 1 {
      DaysBeforeGrows(a, b - 1);
    }
  }

  lemma {:induction false} MonthStartGrows(leap: bool, a: int, b: int)
    requires 0 <= a < b <= 12
    ensures MonthStart(leap, a) + MonthDays(leap, a) <= MonthStart(leap, b)
    decreases b
  {
    if a < b - 1 {
      MonthStartGrows(leap, a, b - 1);
    }
  }

  /** The day of the year lies inside the year. */
  lemma InsideYear(year: int, mon: int, mday: int)
    requires ValidDate(year, mon, mday)
    ensures 0 <= MonthStart(IsLeap(year), mon) + mday - 1 < YearDays(year)
    ensures MonthStart(IsLeap(year), mon) >= 0
  {
    var leap := IsLeap(year);
    MonthsFillYear(leap);
    MonthStartGrows(leap, mon, 12);
    if mon > 0 {
      MonthStartGrows(leap, 0, mon);
    }
  }

  lemma {:induction false} DaysBeforeNatural(year: int)
    ensures DaysBefore(year) >= 0
    decreases year
  {
    if year > 1970 {
      DaysBeforeNatural(year - 1);
    }
  }

  /** Different dates have different day numbers. */
  lemma DayNumberInjective(y: int, m: int, d: int, y2: int, m2: int, d2: int)
    requires ValidDate(y, m, d) && ValidDate(y2, m2, d2) && DayNumber(y, m, d) == DayNumber(y2, m2, d2)
    ensures y == y2 && m == m2 && d == d2
  {
    InsideYear(y, m, d);
    InsideYear(y2, m2, d2);
    if y < y2 {
      DaysBeforeGrows(y, y2);
    } else if y2 < y {
      DaysBeforeGrows(y2, y);
    } else if m < m2 {
      MonthStartGrows(IsLeap(y), m, m2);
    } else if m2 < m {
      MonthStartGrows(IsLeap(y), m2, m);
    }
  }

  /** Conversion to a 32-bit int. */
  function ToInt(v: int): (r: int)
    ensures -INT_MAX - 1 <= r <= INT_MAX
    ensures (r - v) % INT_SPAN == 0
    ensures 0 <= v ==> (r == v <==> v <= INT_MAX)
  {
    var w := v % INT_SPAN;
    if w > INT_MAX then w - INT_SPAN else w
  }

  lemma MultipleMod(q: int, m: int)
    requires m > 0
    ensures q * m % m == 0
  {
    ModUnique(q * m, m, q, 0);
  }

  /** C's remainder. */
  function Remainder(a: int, m: int): (r: int)
    requires m > 0
    ensures (a - r) % m == 0 && -m < r < m && (a >= 0 ==> r >= 0) && (a <= 0 ==> r <= 0)
  {
    var q := if a >= 0 then a / m else -((-a) / m);
    MultipleMod(q, m);
    a - q * m
  }

  /** struct tm. */
  class Tm {
    var sec: int
    var min: int
    var hour: int
    var mday: int
    var mon: int
    var year: int
    var wday: int
    var yday: int
    var isdst: int

    constructor () {
    }

    ghost predicate ValidTime()
      reads this
    {
      ValidDate(year + 1900, mon, mday) && 0 <= hour < 24 && 0 <= min < 60 && 0 <= sec < 60
    }

    ghost function Days(): int
      reads this
      requires mon <= 12
    {
      DayNumber(year + 1900, mon, mday)
    }

    ghost function Seconds(): int
      reads this
      requires mon <= 12
    {
      Days() * DAY + hour * 3600 + min * 60 + sec
    }

    /** The year loop of convert_tm. */
    static method SplitYear(n: int) returns (year: int, rest: int)
      ensures year >= 1970 && DaysBefore(year) + rest == n && rest < YearDays(year)
      ensures n >= 0 ==> rest >= 0
      ensures n < 0 ==> year == 1970 && rest == n
    {
      year, rest := 1970, n;
      while rest >= YearDays(year)
        invariant year >= 1970 && DaysBefore(year) + rest == n
        invariant if n >= 0 then rest >= 0 else year == 1970 && rest == n
        decreases rest
      {
        rest := rest - YearDays(year);
        year := year + 1;
      }
    }

    /** The month loop of convert_tm. */
    static method SplitMonth(leap: bool, yday: int) returns (mon: int, rest: int)
      requires yday < if leap then 366 else 365
      ensures 0 <= mon < 12 && MonthStart(leap, mon) + rest == yday && rest < MonthDays(leap, mon)
      ensures yday >= 0 ==> rest >= 0
      ensures yday < 0 ==> mon == 0
    {
      mon, rest := 0, yday;
      MonthsFillYear(leap);
      assert MonthStart(leap, 12) == MonthStart(leap, 11) + MonthDays(leap, 11);
      while rest >= MonthDays(leap, mon)
        invariant 0 <= mon < 12 && MonthStart(leap, mon) + rest == yday
        invariant if yday >= 0 then rest >= 0 else mon == 0
        decreases 12 - mon
      {
        rest := rest - MonthDays(leap, mon);
        mon := mon + 1;
      }
    }

    /** convert_tm: the day count is an int. */
    method Convert(time: int)
      modifies this
      ensures 0 <= mon < 12 && 0 <= hour < 24 && 0 <= min < 60 && 0 <= sec < 60 && isdst == 0
      ensures var t := if time < 0 then 0 else time;
              Days() == ToInt(t / DAY) && hour * 3600 + min * 60 + sec == t % DAY &&
              wday == Remainder(ToInt(ToInt(t / DAY) + 4), 7) && yday == Days() - DaysBefore(year + 1900) &&
              (ToInt(t / DAY) >= 0 ==> ValidTime()) && Civil(year + 1900, mon, mday) == ToInt(t / DAY)
      ensures yday == Civil(year + 1900, mon, mday) - Civil(year + 1900, 0, 1)
    {
      hide Civil, IsLeap, DaysBefore, MonthStart, Remainder, ToInt, MonthDays;
      var t := if time < 0 then 0 else time;
      SplitSeconds(t);
      sec, min, hour := t % 60, t / 60 % 60, t / 3600 % 24;
      var days := ToInt(t / DAY);
      wday := Remainder(ToInt(days + 4), 7);
      var y, d;
      y, yday := SplitYear(days);
      mon, d := SplitMonth(IsLeap(y), yday);
      mday := d + 1;
      year := y - 1900;
      isdst := 0;
      DayNumberIsCivil(y, mon, mday);
      DayNumberIsCivil(y, 0, 1);
      YearStarts(y);
    }

    /** gmtime_r: a date of the Gregorian calendar, in the right place. */
    method Gmtime(time: int)
      modifies this
      ensures 0 <= mon < 12
      ensures 0 <= time / DAY <= INT_MAX ==>
                Civil(year + 1900, mon, mday) * DAY + hour * 3600 + min * 60 + sec == time
      ensures time >= 0 ==> Seconds() == ToInt(time / DAY) * DAY + time % DAY
      ensures time < 0 ==> Seconds() == 0
      ensures 0 <= time / DAY <= INT_MAX ==> ValidTime()
      ensures 0 <= time / DAY <= INT_MAX - 4 ==> wday == (time / DAY + 4) % 7
      ensures isdst == 0 && yday == Civil(year + 1900, mon, mday) - Civil(year + 1900, 0, 1)
    {
      hide Civil, IsLeap, DaysBefore, MonthStart, MonthDays;
      Convert(time);
    }

    /** localtime_r with the given offset from UTC. */
    method Localtime(time: int, offset: int)
      modifies this
      ensures 0 <= mon < 12
      ensures 0 <= (time + offset) / DAY <= INT_MAX ==>
                Civil(year + 1900, mon, mday) * DAY + hour * 3600 + min * 60 + sec == time + offset
      ensures time + offset >= 0 ==> Seconds() == ToInt((time + offset) / DAY) * DAY + (time + offset) % DAY
      ensures time + offset < 0 ==> Seconds() == 0
      ensures 0 <= (time + offset) / DAY <= INT_MAX ==> ValidTime()
      ensures 0 <= (time + offset) / DAY <= INT_MAX - 4 ==> wday == ((time + offset) / DAY + 4) % 7
      ensures isdst == 0 && yday == Civil(year + 1900, mon, mday) - Civil(year + 1900, 0, 1)
    {
      hide Civil, IsLeap, DaysBefore, MonthStart, MonthDays;
      Convert(time + offset);
    }

    /** The day sum of mktime and timegm. */
    method SumDays() returns (days: int)
      requires mon <= 12
      ensures days == Days()
    {
      var y := year + 1900;
      days := 0;
      var k := 1970;
      while k < y
        invariant 1970 <= k && (k <= y || y < 1970) && days == DaysBefore(k)
        invariant y <= 1970 ==> k == 1970
      {
        days := days + YearDays(k);
        k := k + 1;
      }
      ghost var before := days;
      var m := 0;
      while m < mon
        invariant 0 <= m <= 12 && (mon > 0 ==> m <= mon) && (mon <= 0 ==> m == 0)
        invariant days == before + MonthStart(IsLeap(y), m)
      {
        days := days + MonthDays(IsLeap(y), m);
        m := m + 1;
      }
      days := days + mday - 1;
    }

    /** timegm; the yday it leaves behind is the day since the epoch. */
    method Timegm() returns (t: int)
      requires mon <= 12
      modifies this`yday, this`wday, this`isdst
      ensures t == Seconds()
      ensures year + 1900 >= 1970 && 0 <= mon < 12 ==>
                t == Civil(year + 1900, mon, mday) * DAY + hour * 3600 + min * 60 + sec
      ensures yday == ToInt(Days()) && wday == Remainder(Days() + 4, 7) && isdst == 0
    {
      var days := SumDays();
      yday, wday, isdst := ToInt(days), Remainder(days + 4, 7), 0;
      t := days * DAY + hour * 3600 + min * 60 + sec;
      if year + 1900 >= 1970 && 0 <= mon < 12 {
        DayNumberIsCivil(year + 1900, mon, mday);
      }
    }

    /** mktime with the given offset from UTC. */
    method Mktime(offset: int) returns (t: int)
      requires mon <= 12
      modifies this`yday, this`wday, this`isdst
      ensures t == Seconds() - offset
      ensures year + 1900 >= 1970 && 0 <= mon < 12 ==>
                t == Civil(year + 1900, mon, mday) * DAY + hour * 3600 + min * 60 + sec - offset
      ensures yday == ToInt(Days()) && wday == Remainder(Days() + 4, 7) && isdst == 0
    {
      t := Timegm();
      t := t - offset;
    }
  }

  lemma YearStarts(year: int)
    ensures DayNumber(year, 0, 1) == DaysBefore(year)
  {
  }

  lemma SplitSeconds(t: int)
    requires t >= 0
    ensures t / 60 / 60 / 24 == t / DAY && t / 60 / 60 % 24 == t / 3600 % 24
    ensures t / 3600 % 24 * 3600 + t / 60 % 60 * 60 + t % 60 == t % DAY
  {
  }

  /** A day and a time of day are determined by their second. */
  lemma ClockUnique(d: int, h: int, m: int, s: int, d2: int, h2: int, m2: int, s2: int)
    requires 0 <= h < 24 && 0 <= m < 60 && 0 <= s < 60 && 0 <= h2 < 24 && 0 <= m2 < 60 && 0 <= s2 < 60
    requires d * DAY + h * 3600 + m * 60 + s == d2 * DAY + h2 * 3600 + m2 * 60 + s2
    ensures d == d2 && h == h2 && m == m2 && s == s2
  {
  }

  lemma SecondsSplit(d: int, clock: int)
    requires 0 <= clock < DAY
    ensures (d * DAY + clock) / DAY == d && (d * DAY + clock) % DAY == clock
  {
  }

  /** timegm after gmtime_r gives the time back exactly when it is not negative and its day count fits an int. */
  method GmtimeThenTimegm(time: int) returns (t: int)
    ensures t == time <==> 0 <= time && time / DAY <= INT_MAX
  {
    var tm := new Tm();
    tm.Gmtime(time);
    t := tm.Timegm();
  }

  /** mktime after localtime_r, under any offset. */
  method LocaltimeThenMktime(time: int, offset: int) returns (t: int)
    ensures t == time <==> 0 <= time + offset && (time + offset) / DAY <= INT_MAX
  {
    var tm := new Tm();
    tm.Localtime(time, offset);
    t := tm.Mktime(offset);
  }

  /**
   * gmtime_r after timegm gives back every field of a valid date from 1970 on,
   * exactly when its day count fits an int, and the weekday agrees.
   */
  method TimegmThenGmtime(tm: Tm, back: Tm) returns (t: int)
    requires tm != back && tm.ValidTime()
    modifies tm, back
    ensures (back.year == tm.year && back.mon == tm.mon && back.mday == tm.mday &&
             back.hour == tm.hour && back.min == tm.min && back.sec == tm.sec) <==> old(tm.Days()) <= INT_MAX
    ensures tm.year == old(tm.year) && tm.mon == old(tm.mon) && tm.mday == old(tm.mday)
    ensures tm.hour == old(tm.hour) && tm.min == old(tm.min) && tm.sec == old(tm.sec)
    ensures old(tm.Days()) <= INT_MAX - 4 ==> back.wday == tm.wday
  {
    hide Civil, IsLeap, DaysBefore, MonthStart, MonthDays;
    t := tm.Timegm();
    ghost var days := tm.Days();
    InsideYear(tm.year + 1900, tm.mon, tm.mday);
    DaysBeforeNatural(tm.year + 1900);
    SecondsSplit(days, tm.hour * 3600 + tm.min * 60 + tm.sec);
    back.Gmtime(t);
    if days <= INT_MAX {
      ClockUnique(days, tm.hour, tm.min, tm.sec, back.Days(), back.hour, back.min, back.sec);
      DayNumberInjective(tm.year + 1900, tm.mon, tm.mday, back.year + 1900, back.mon, back.mday);
    }
  }
}

/** The calendar conversion that stands in for `gmtime_r`, against the proleptic Gregorian calendar
    counted year by year. */
module Gmtime {
  import opened Arith

  // ---- the calendar, year by year ----

  predicate Leap(y: int) {
    (y % 4 == 0 && y % 100 != 0) || y % 400 == 0
  }

  function YearLength(y: int): int {
    if Leap(y) then 366 else 365
  }

  /** Day number of the first of January; day 0 is the first of January 1970. */
  function YearStart(y: int): int
    decreases if y >= 1970 then y - 1970 else 1970 - y
  {
    if y == 1970 then 0
    else if y > 1970 then YearStart(y - 1) + YearLength(y - 1)
    else YearStart(y + 1) - YearLength(y)
  }

  function MonthLength(y: int, m: int): int {
    if m == 2 then (if Leap(y) then 29 else 28)
    else if m == 4 || m == 6 || m == 9 || m == 11 then 30
    else 31
  }

  /** Days of the year before a month. */
  function MonthStart(y: int, m: nat): int {
    if m <= 1 then 0 else MonthStart(y, m - 1) + MonthLength(y, m - 1)
  }

  predicate ValidDate(y: int, m: int, d: int) {
    1 <= m <= 12 && 1 <= d <= MonthLength(y, m)
  }

  function DayNumber(y: int, m: nat, d: int): int {
    YearStart(y) + MonthStart(y, m) + d - 1
  }

  /** 0 is Sunday; day 0 was a Thursday and weekdays follow one another. */
  function Weekday(day: int): int
    decreases if day >= 0 then day else -day
  {
    if day == 0 then 4
    else if day > 0 then (Weekday(day - 1) + 1) % 7
    else (Weekday(day + 1) + 6) % 7
  }

  lemma {:induction false} WeekdayIs(day: int)
    ensures Weekday(day) == (day + 4) % 7
    decreases if day >= 0 then day else -day
  {
    if day > 0 {
      WeekdayIs(day - 1);
      NextMod(day + 3);
    } else if day < 0 {
      WeekdayIs(day + 1);
      PreviousMod(day + 5);
    }
  }

  lemma NextMod(n: int)
    ensures (n % 7 + 1) % 7 == (n + 1) % 7
  {
    var q, r := n / 7, n % 7;
    Euclid(n + 1, 7, if r == 6 then q + 1 else q, if r == 6 then 0 else r + 1);
  }

  lemma PreviousMod(n: int)
    ensures (n % 7 + 6) % 7 == (n - 1) % 7
  {
    var q, r := n / 7, n % 7;
    Euclid(n - 1, 7, if r == 0 then q - 1 else q, if r == 0 then 6 else r - 1);
  }

  lemma MonthStarts(y: int)
    ensures var l := if Leap(y) then 1 else 0;
            && MonthStart(y, 1) == 0 && MonthStart(y, 2) == 31 && MonthStart(y, 3) == 59 + l
            && MonthStart(y, 4) == 90 + l
            && MonthStart(y, 5) == 120 + l && MonthStart(y, 6) == 151 + l && MonthStart(y, 7) == 181 + l
            && MonthStart(y, 8) == 212 + l
            && MonthStart(y, 9) == 243 + l && MonthStart(y, 10) == 273 + l && MonthStart(y, 11) == 304 + l
            && MonthStart(y, 12) == 334 + l
  {
    hide Leap;
    assert MonthStart(y, 3) == MonthStart(y, 2) + MonthLength(y, 2);
    assert MonthStart(y, 5) == MonthStart(y, 4) + MonthLength(y, 4);
    assert MonthStart(y, 7) == MonthStart(y, 6) + MonthLength(y, 6);
    assert MonthStart(y, 9) == MonthStart(y, 8) + MonthLength(y, 8);
    assert MonthStart(y, 11) == MonthStart(y, 10) + MonthLength(y, 10);
  }

  // ---- dates are unique ----

  lemma {:induction false} YearsAscend(a: int, b: int)
    requires a <= b
    ensures YearStart(b) - YearStart(a) >= 365 * (b - a)
    decreases b - a
  {
    if a < b {
      YearsAscend(a, b - 1);
      NextYear(b - 1);
    }
  }

  lemma NextYear(y: int)
    ensures YearStart(y + 1) == YearStart(y) + YearLength(y)
  {
  }

  /** Every valid date lies in its year and has its own day number. */
  lemma DateInYear(y: int, m: nat, d: int)
    requires ValidDate(y, m, d)
    ensures 0 <= MonthStart(y, m) + d - 1 < YearLength(y)
  {
    hide Leap;
    MonthStarts(y);
  }

  lemma DateIsUnique(y: int, m: nat, d: int, y': int, m': nat, d': int)
    requires ValidDate(y, m, d) && ValidDate(y', m', d') && DayNumber(y, m, d) == DayNumber(y', m', d')
    ensures y == y' && m == m' && d == d'
  {
    hide Leap, MonthStart, MonthLength, YearStart;
    DateInYear(y, m, d);
    DateInYear(y', m', d');
    if y < y' {
      YearsAscend(y + 1, y');
      NextYear(y);
    } else if y' < y {
      YearsAscend(y' + 1, y);
      NextYear(y');
    } else {
      MonthIsUnique(y, m, d, m', d');
    }
  }

  lemma MonthIsUnique(y: int, m: nat, d: int, m': nat, d': int)
    requires ValidDate(y, m, d) && ValidDate(y, m', d') && MonthStart(y, m) + d == MonthStart(y, m') + d'
    ensures m == m' && d == d'
  {
    hide Leap, MonthStart;
    MonthStarts(y);
  }

  // ---- the first of March ----

  /** Day number of the first of March. */
  function MarchFirst(y: int): int {
    YearStart(y) + 59 + (if Leap(y) then 1 else 0)
  }

  /** Counting whole years from March to March: day 719468 before day 0 is the first of March of year 0. */
  lemma {:induction false} MarchFirstIs(y: int)
    ensures MarchFirst(y) == 365 * y + y / 4 - y / 100 + y / 400 - 719468
    decreases if y >= 1970 then y - 1970 else 1970 - y
  {
    if y > 1970 {
      MarchFirstIs(y - 1);
      MarchToMarch(y - 1);
    } else if y < 1970 {
      MarchFirstIs(y + 1);
      MarchToMarch(y);
    }
  }

  lemma MarchToMarch(y: int)
    ensures MarchFirst(y + 1) - MarchFirst(y) == 365 + (if Leap(y + 1) then 1 else 0)
    ensures (y + 1) / 4 - y / 4 - ((y + 1) / 100 - y / 100) + ((y + 1) / 400 - y / 400) == if Leap(y + 1) then 1 else 0
  {
    hide Leap;
    NextYear(y);
    Carry(y, 4);
    Carry(y, 100);
    Carry(y, 400);
    LeapIs(y + 1);
  }

  lemma LeapIs(y: int)
    ensures (if Leap(y) then 1 else 0) == (if y % 4 == 0 then 1 else 0) - (if y % 100 == 0 then 1 else 0)
              + (if y % 400 == 0 then 1 else 0)
  {
    if y % 100 == 0 {
      Euclid(y, 4, 25 * (y / 100), 0);
    }
    if y % 400 == 0 {
      Euclid(y, 100, 4 * (y / 400), 0);
    }
  }

  lemma Carry(y: int, d: int)
    requires d > 1
    ensures (y + 1) / d - y / d == if (y + 1) % d == 0 then 1 else 0
  {
    var q, r := y / d, y % d;
    if r + 1 < d {
      Euclid(y + 1, d, q, r + 1);
    } else {
      Euclid(y + 1, d, q + 1, 0);
    }
  }

  // ---- the algorithm's steps ----

  const DAYS_PER_ERA := 146097

  function YearOfEra(doe: nat): int {
    (doe - doe / 1460 + doe / 36524 - doe / 146096) / 365
  }

  /** First day of a year within its era. */
  function EraYearStart(yoe: nat): int {
    365 * yoe + yoe / 4 - yoe / 100
  }

  /** The position of a day in its era: century, four years, year and day, each capped so that the day
      that four years or four centuries have left over belongs to the last of them. */
  lemma EraParts(doe: nat) returns (c: nat, q: nat, y: nat, d: nat)
    requires doe < DAYS_PER_ERA
    ensures c <= 3 && q <= 24 && y <= 3 && d <= 365
    ensures doe == 36524 * c + 1461 * q + 365 * y + d
    ensures d == 365 ==> y == 3
    ensures 365 * y + d <= 1460 && 1461 * q + 365 * y + d <= (if c == 3 then 36524 else 36523)
  {
    c := if doe / 36524 < 3 then doe / 36524 else 3;
    var r := doe - 36524 * c;
    q := r / 1461;
    var s := r - 1461 * q;
    y := if s / 365 < 3 then s / 365 else 3;
    d := s - 365 * y;
  }

  lemma YearOfEraIs(c: nat, q: nat, y: nat, d: nat)
    requires c <= 3 && q <= 24 && y <= 3 && d <= 365 && (d == 365 ==> y == 3)
    requires 365 * y + d <= 1460 && 1461 * q + 365 * y + d <= (if c == 3 then 36524 else 36523)
    ensures var doe, yoe := 36524 * c + 1461 * q + 365 * y + d, 100 * c + 4 * q + y;
            && YearOfEra(doe) == yoe && yoe <= 399
            && yoe / 4 == 25 * c + q && yoe / 100 == c
            && doe - EraYearStart(yoe) == d
  {
    var doe, yoe := 36524 * c + 1461 * q + 365 * y + d, 100 * c + 4 * q + y;
    var w := 24 * c + q + 365 * y + d;
    var k := if w >= 1460 then 1 else 0;
    Euclid(doe, 1460, 25 * c + q + k, w - 1460 * k);
    var last := if doe == 146096 then 1 else 0;
    Euclid(doe, 36524, c + last, doe - 36524 * (c + last));
    Euclid(doe, 146096, last, doe - 146096 * last);
    Euclid(doe - (25 * c + q + k) + c, 365, yoe, d - k);
    Euclid(yoe, 4, 25 * c + q, y);
    Euclid(yoe, 100, c, 4 * q + y);
  }

  /** The day of the year that starts in March. It has 366 days exactly when the February at its end has
      29. */
  lemma DayOfMarchYear(doe: nat)
    requires doe < DAYS_PER_ERA
    ensures var yoe := YearOfEra(doe);
            && 0 <= yoe <= 399 && 0 <= doe - EraYearStart(yoe) <= 365
            && (doe - EraYearStart(yoe) == 365 ==> Leap(yoe + 1))
  {
    var c, q, y, d := EraParts(doe);
    YearOfEraIs(c, q, y, d);
    var yoe := 100 * c + 4 * q + y;
    if d == 365 {
      Euclid(yoe + 1, 4, 25 * c + q + 1, 0);
      if q == 24 {
        Euclid(yoe + 1, 400, 1, 0);
      } else {
        Euclid(yoe + 1, 100, c, 4 * (q + 1));
      }
    }
  }

  function MonthIndex(doy: nat): nat {
    (5 * doy + 2) / 153
  }

  /** First day of a month in the year that starts in March. */
  function MarchMonthStart(mp: nat): nat {
    (153 * mp + 2) / 5
  }

  lemma MarchMonthStarts()
    ensures MarchMonthStart(0) == 0 && MarchMonthStart(1) == 31 && MarchMonthStart(2) == 61 && MarchMonthStart(3) == 92
    ensures MarchMonthStart(4) == 122 && MarchMonthStart(5) == 153 && MarchMonthStart(6) == 184
              && MarchMonthStart(7) == 214
    ensures MarchMonthStart(8) == 245 && MarchMonthStart(9) == 275 && MarchMonthStart(10) == 306
              && MarchMonthStart(11) == 337
    ensures MarchMonthStart(12) == 367
  {
  }

  lemma MonthOfDay(doy: nat)
    requires doy <= 365
    ensures MonthIndex(doy) <= 11
    ensures MarchMonthStart(MonthIndex(doy)) <= doy < MarchMonthStart(MonthIndex(doy) + 1)
  {
    var mp := MonthIndex(doy);
    assert 153 * mp <= 5 * doy + 2 < 153 * (mp + 1);
  }

  function MonthOf(mp: nat): int {
    if mp < 10 then mp + 3 else mp - 9
  }

  /** The civil date of day `doy` of the March year that starts in year `y`. */
  lemma CivilDate(y: int, doy: nat)
    requires doy <= 365 && (doy == 365 ==> Leap(y + 1))
    ensures var mp := MonthIndex(doy);
            var month, day := MonthOf(mp), doy - MarchMonthStart(mp) + 1;
            var year := if month <= 2 then y + 1 else y;
            && ValidDate(year, month, day) && DayNumber(year, month, day) == MarchFirst(y) + doy
  {
    hide Leap, YearStart, MonthStart;
    var mp := MonthIndex(doy);
    MonthOfDay(doy);
    MarchMonthStarts();
    MonthStarts(y);
    MonthStarts(y + 1);
    NextYear(y);
  }

  /** An era has the same calendar as the first one, 146097 days later. */
  lemma EraShift(era: int, yoe: nat)
    requires yoe <= 399
    ensures MarchFirst(yoe + 400 * era) == DAYS_PER_ERA * era + EraYearStart(yoe) - 719468
    ensures Leap(yoe + 1 + 400 * era) <==> Leap(yoe + 1)
  {
    var y := yoe + 400 * era;
    MarchFirstIs(y);
    Euclid(y, 4, yoe / 4 + 100 * era, yoe % 4);
    Euclid(y, 100, yoe / 100 + 4 * era, yoe % 100);
    Euclid(y, 400, era, yoe);
    Euclid(y + 1, 4, (yoe + 1) / 4 + 100 * era, (yoe + 1) % 4);
    Euclid(y + 1, 100, (yoe + 1) / 100 + 4 * era, (yoe + 1) % 100);
    Euclid(y + 1, 400, (yoe + 1) / 400 + era, (yoe + 1) % 400);
  }

  // ---- the C function ----

  /** Division and remainder of C, which truncate toward zero. */
  function TruncDiv(a: int, b: int): int
    requires b > 0
  {
    if a >= 0 then a / b else -(-a / b)
  }

  function TruncMod(a: int, b: int): int
    requires b > 0
  {
    a - b * TruncDiv(a, b)
  }

  lemma TruncIs(a: int, b: int)
    requires b > 0
    ensures a >= 0 ==> TruncDiv(a, b) == a / b && TruncMod(a, b) == a % b
    ensures a < 0 ==> TruncMod(a, b) == if a % b == 0 then 0 else a % b - b
    ensures a < 0 ==> TruncDiv(a, b) == if a % b == 0 then a / b else a / b + 1
  {
    if a < 0 {
      var q, r := a / b, a % b;
      if r == 0 {
        Euclid(-a, b, -q, 0);
      } else {
        Euclid(-a, b, -q - 1, b - r);
      }
    }
  }

  /** Conversion to a 32-bit `int`. */
  function ToInt(n: int): int {
    (n + 0x8000_0000) % 0x1_0000_0000 - 0x8000_0000
  }

  lemma ToIntFits(n: int)
    ensures ToInt(n) == n <==> -0x8000_0000 <= n < 0x8000_0000
  {
    if -0x8000_0000 <= n < 0x8000_0000 {
      Euclid(n + 0x8000_0000, 0x1_0000_0000, 0, n + 0x8000_0000);
    }
  }

  const SECONDS_PER_DAY := 86400
  const MONTH_DAYS := [0, 31, 59, 90, 120, 151, 181, 212, 243, 273, 304, 334]

  class Tm {
    var sec: int
    var min: int
    var hour: int
    var mday: int
    var mon: int
    var year: int
    var wday: int
    var yday: int
    var isdst: int
  }

  /** The civil date of a day: the algorithm after its division of the time. */
  lemma EraDate(days: int) returns (year: int, month: int, day: int)
    ensures var z := days + 719468;
            var doe := z % DAYS_PER_ERA;
            var yoe := YearOfEra(doe);
            var doy := doe - EraYearStart(yoe);
            && 0 <= yoe <= 399 && 0 <= doy <= 365 && 0 <= MonthIndex(doy) <= 11
            && month == MonthOf(MonthIndex(doy)) && day == doy - MarchMonthStart(MonthIndex(doy)) + 1
            && year == yoe + z / DAYS_PER_ERA * 400 + (if month <= 2 then 1 else 0)
    ensures ValidDate(year, month, day) && DayNumber(year, month, day) == days
  {
    hide Leap, YearStart, MonthStart, YearOfEra, EraYearStart, MonthIndex, MarchMonthStart, MarchFirst;
    var z := days + 719468;
    var doe, era := z % DAYS_PER_ERA, z / DAYS_PER_ERA;
    var yoe := YearOfEra(doe);
    DayOfMarchYear(doe);
    var doy := doe - EraYearStart(yoe);
    MonthOfDay(doy);
    EraShift(era, yoe);
    CivilDate(yoe + 400 * era, doy);
    month, day := MonthOf(MonthIndex(doy)), doy - MarchMonthStart(MonthIndex(doy)) + 1;
    year := yoe + era * 400 + (if month <= 2 then 1 else 0);
  }

  /** Fill in the broken-down time. It names the day that the calendar gives, counted year by year, for
      every 64-bit time; only the year field wraps when the year does not fit. */
  method GmtimeR(timep: int, result: Tm) returns (ghost civilYear: int)
    requires -0x8000_0000_0000_0000 <= timep < 0x8000_0000_0000_0000
    modifies result
    ensures result.sec == timep % SECONDS_PER_DAY % 60
    ensures result.min == timep % SECONDS_PER_DAY / 60 % 60
    ensures result.hour == timep % SECONDS_PER_DAY / 3600
    ensures 0 <= result.mon && ValidDate(civilYear, result.mon + 1, result.mday)
    ensures DayNumber(civilYear, result.mon + 1, result.mday) == timep / SECONDS_PER_DAY
    ensures result.wday == Weekday(timep / SECONDS_PER_DAY)
    ensures result.yday == timep / SECONDS_PER_DAY - YearStart(civilYear)
    ensures result.year == civilYear - 1900 <==> -0x8000_0000 <= civilYear - 1900 < 0x8000_0000
    ensures result.isdst == 0
  {
    hide Leap, YearStart, MonthStart, Weekday, DayNumber, ValidDate, TruncDiv, TruncMod;
    var days := TruncDiv(timep, SECONDS_PER_DAY);
    var secs := TruncMod(timep, SECONDS_PER_DAY);
    TruncIs(timep, SECONDS_PER_DAY);
    if secs < 0 {
      secs := secs + SECONDS_PER_DAY;
      days := days - 1;
    }
    result.sec := secs % 60;
    result.min := secs / 60 % 60;
    result.hour := secs / 3600;
    result.wday := TruncMod(TruncMod(days, 7) + 4 + 7, 7);
    WeekdayField(days);
    civilYear := SetDate(days, result);
    result.isdst := 0;
  }

  /** The date fields of a day. The unsigned values of the C text stay within their ranges. */
  method SetDate(days: int, result: Tm) returns (ghost civilYear: int)
    modifies result`year, result`mon, result`mday, result`yday
    ensures 0 <= result.mon && ValidDate(civilYear, result.mon + 1, result.mday)
    ensures DayNumber(civilYear, result.mon + 1, result.mday) == days
    ensures result.yday == days - YearStart(civilYear)
    ensures result.year == civilYear - 1900 <==> -0x8000_0000 <= civilYear - 1900 < 0x8000_0000
  {
    hide Leap, YearStart, MonthStart, DayNumber, ValidDate, TruncDiv, TruncMod;
    var z := days + 719468;
    var era := TruncDiv(if z >= 0 then z else z - 146096, 146097);
    EraField(z);
    var doe := z - era * 146097;
    ghost var month', day';
    civilYear, month', day' := EraDate(days);
    var yoe := (doe - doe / 1460 + doe / 36524 - doe / 146096) / 365;
    assert yoe == YearOfEra(doe);
    var year := yoe + era * 400;
    var doy := doe - (365 * yoe + yoe / 4 - yoe / 100);
    assert doy == doe - EraYearStart(yoe);
    var mp := (5 * doy + 2) / 153;
    var day := doy - (153 * mp + 2) / 5 + 1;
    var month := if mp < 10 then mp + 3 else mp - 9;
    assert month == month' && day == day';
    year := year + (if month <= 2 then 1 else 0);
    LeapField(year);
    var leap := (TruncMod(year, 4) == 0 && TruncMod(year, 100) != 0) || TruncMod(year, 400) == 0;
    ToIntFits(year - 1900);
    result.year := ToInt(year - 1900);
    result.mon := month - 1;
    result.mday := day;
    YearDay(year, month, day);
    result.yday := MONTH_DAYS[month - 1] + day - 1 + (if month > 2 && leap then 1 else 0);
  }

  lemma WeekdayField(days: int)
    ensures TruncMod(TruncMod(days, 7) + 4 + 7, 7) == Weekday(days)
  {
    WeekdayIs(days);
    var q, r := days / 7, days % 7;
    TruncIs(days, 7);
    var m := TruncMod(days, 7);
    TruncIs(m + 11, 7);
    Euclid(m + 11, 7, (m + 11) / 7, (m + 11) % 7);
    if m == r {
      Euclid(days + 4, 7, q - 1 + (m + 11) / 7, (m + 11) % 7);
    } else {
      Euclid(days + 4, 7, q + (m + 11) / 7, (m + 11) % 7);
    }
  }

  lemma EraField(z: int)
    ensures TruncDiv(if z >= 0 then z else z - 146096, 146097) == z / DAYS_PER_ERA
    ensures z - z / DAYS_PER_ERA * 146097 == z % DAYS_PER_ERA
  {
    if z < 0 {
      var q, r := z / DAYS_PER_ERA, z % DAYS_PER_ERA;
      TruncIs(z - 146096, 146097);
      if r == 146096 {
        Euclid(z - 146096, 146097, q, 0);
      } else {
        Euclid(z - 146096, 146097, q - 1, r + 1);
      }
    }
  }

  lemma LeapField(year: int)
    ensures ((TruncMod(year, 4) == 0 && TruncMod(year, 100) != 0) || TruncMod(year, 400) == 0) == Leap(year)
  {
    TruncIs(year, 4);
    TruncIs(year, 100);
    TruncIs(year, 400);
  }

  lemma YearDay(year: int, month: int, day: int)
    requires ValidDate(year, month, day)
    ensures MONTH_DAYS[month - 1] + day - 1 + (if month > 2 && Leap(year) then 1 else 0)
              == DayNumber(year, month, day) - YearStart(year)
  {
    hide Leap, YearStart;
    MonthStarts(year);
  }

  // ---- the POSIX formula ----

  /** Seconds since the Epoch (section 4.16 of POSIX.1-2017 Base Definitions). */
  function SecondsSinceEpoch(sec: int, min: int, hour: int, yday: int, year: int): int {
    sec + min * 60 + hour * 3600 + yday * 86400
    + (year - 70) * 31536000 + (year - 69) / 4 * 86400 - (year - 1) / 100 * 86400 + (year + 299) / 400 * 86400
  }

  /** From 1970 on, the broken-down time of the calendar satisfies the formula. */
  lemma PosixFormula(t: int, year: int, month: nat, day: int)
    requires t >= 0 && ValidDate(year, month, day) && DayNumber(year, month, day) == t / SECONDS_PER_DAY
    ensures year >= 1970
    ensures var s := t % SECONDS_PER_DAY;
            SecondsSinceEpoch(s % 60, s / 60 % 60, s / 3600, t / SECONDS_PER_DAY - YearStart(year), year - 1900) == t
  {
    hide Leap, MonthStart, YearStart, ValidDate, DayNumber;
    AfterEpoch(year, month, day);
    YearStartIs(year);
    var s := t % SECONDS_PER_DAY;
    Euclid(s / 60, 60, s / 3600, s / 60 % 60) by { SixtySquared(s); }
  }

  lemma SixtySquared(s: int)
    requires s >= 0
    ensures s / 60 == s / 3600 * 60 + s / 60 % 60
  {
    var h, m, r := s / 60 / 60, s / 60 % 60, s % 60;
    Euclid(s, 3600, h, m * 60 + r);
  }

  lemma AfterEpoch(year: int, month: nat, day: int)
    requires ValidDate(year, month, day) && DayNumber(year, month, day) >= 0
    ensures year >= 1970
  {
    hide Leap, MonthStart;
    DateInYear(year, month, day);
    if year < 1970 {
      YearsAscend(year + 1, 1970);
      NextYear(year);
    }
  }

  lemma YearStartIs(y: int)
    ensures YearStart(y) == (y - 1970) * 365 + (y - 1969) / 4 - (y - 1901) / 100 + (y - 1601) / 400
  {
    hide Leap, YearStart;
    MarchFirstIs(y - 1);
    NextYear(y - 1);
    Euclid(y - 1, 4, (y - 1969) / 4 + 492, (y - 1969) % 4);
    Euclid(y - 1, 100, (y - 1901) / 100 + 19, (y - 1901) % 100);
    Euclid(y - 1, 400, (y - 1601) / 400 + 4, (y - 1601) % 400);
  }
}

/** Day numbers and the Gregorian calendar. */
module Calendar {
  /** C++ division and remainder, which truncate toward zero. */
  function Quot(a: int, b: int): int
    requires b > 0
  {
    if a >= 0 then a / b else -((-a) / b)
  }

  function Rem(a: int, b: int): int
    requires b > 0
  {
    a - b * Quot(a, b)
  }

  datatype Ymd = Ymd(year: int, month: int, day: int)

  function JulianDate(year: int, month: int, day: int): int {
    var a := Quot(14 - month, 12);
    var y := year + 4800 - a;
    var m := month + 12 * a - 3;
    day + Quot(153 * m + 2, 5) + y * 365 + Quot(y, 4) - Quot(y, 100) + Quot(y, 400) - 32045
  }

  function GetYmd(jday: int): Ymd {
    var a := jday + 32044;
    var b := Quot(4 * a + 3, 146097);
    var c := a - Quot(b * 146097, 4);
    var d := Quot(4 * c + 3, 1461);
    var e := c - Quot(1461 * d, 4);
    DateInYear(b * 100 + d - 4800, e)
  }

  /** The last three lines of `get_ymd`: the date of a day of a year that starts in March. */
  function DateInYear(y: int, e: int): Ymd {
    var m := Quot(5 * e + 2, 153);
    Ymd(y + Quot(m, 10), m + 3 - 12 * Quot(m, 10), e - Quot(153 * m + 2, 5) + 1)
  }

  function MaxDayInMonthFor(year: int, month: int): int {
    var tmpMonth := Rem(month - 1, 12) + 1;
    var tmpYear := year + Quot(tmpMonth - 1, 12);
    if tmpMonth == 1 || tmpMonth == 3 || tmpMonth == 5 || tmpMonth == 7 || tmpMonth == 8 || tmpMonth == 10
       || tmpMonth == 12 then 31
    else if tmpMonth == 4 || tmpMonth == 6 || tmpMonth == 9 || tmpMonth == 11 then 30
    else if tmpMonth == 2 && (Rem(tmpYear, 400) == 0 || (Rem(tmpYear, 100) != 0 && Rem(tmpYear, 4) == 0)) then 29
    else 28
  }

  // ---------------------------------------------------------------- the calendar, on its own terms

  predicate Leap(year: int) {
    year % 4 == 0 && (year % 100 == 0 ==> year % 400 == 0)
  }

  function MonthLength(year: int, month: int): int {
    if month == 2 then (if Leap(year) then 29 else 28)
    else if month in {4, 6, 9, 11} then 30
    else 31
  }

  /** A date of the Gregorian calendar, from 1 March of the year -4800 on. */
  predicate ValidDate(d: Ymd) {
    && 1 <= d.month <= 12
    && 1 <= d.day <= MonthLength(d.year, d.month)
    && (d.year > -4800 || (d.year == -4800 && d.month >= 3))
  }

  function NextDay(d: Ymd): Ymd {
    if d.day < MonthLength(d.year, d.month) then d.(day := d.day + 1)
    else if d.month < 12 then Ymd(d.year, d.month + 1, 1)
    else Ymd(d.year + 1, 1, 1)
  }

  lemma Rem4(x: int)
    ensures Rem(x, 4) == 0 <==> x % 4 == 0
  {
  }

  lemma Rem100(x: int)
    ensures Rem(x, 100) == 0 <==> x % 100 == 0
  {
  }

  lemma Rem400(x: int)
    ensures Rem(x, 400) == 0 <==> x % 400 == 0
  {
  }

  lemma Mod4(x: int, q: int, r: int)
    requires x == 4 * q + r && 0 <= r < 4
    ensures x % 4 == r && x / 4 == q
  {
  }

  lemma Mod100(x: int, q: int, r: int)
    requires x == 100 * q + r && 0 <= r < 100
    ensures x % 100 == r && x / 100 == q
  {
  }

  lemma Mod400(x: int, q: int, r: int)
    requires x == 400 * q + r && 0 <= r < 400
    ensures x % 400 == r && x / 400 == q
  {
  }

  lemma LeapRule(year: int)
    ensures Leap(year) <==> year % 400 == 0 || (year % 100 != 0 && year % 4 == 0)
  {
    if year % 400 == 0 {
      Mod4(year, 100 * (year / 400), 0);
    }
  }

  lemma FebruaryLength(year: int)
    ensures MaxDayInMonthFor(year, 2) == MonthLength(year, 2)
  {
    Rem400(year);
    Rem100(year);
    Rem4(year);
    LeapRule(year);
  }

  /** The length that the code computes is the calendar's. */
  lemma MaxDayIsMonthLength(year: int, month: int)
    requires 1 <= month <= 12
    ensures MaxDayInMonthFor(year, month) == MonthLength(year, month)
  {
    assert Rem(month - 1, 12) == month - 1;
    if month == 2 {
      FebruaryLength(year);
    }
  }

  // ---------------------------------------------------------------- years that start in March

  /** The days before the year that starts on 1 March, counted from 1 March -4800. */
  function DaysBeforeYear(y: nat): nat {
    365 * y + y / 4 - y / 100 + y / 400
  }

  /** The days before a month, counted from 1 March; March is month 0. */
  function DaysBeforeMonth(m: int): int {
    (153 * m + 2) / 5
  }

  function MarchYear(year: int, month: int): int {
    year + 4800 - (if month <= 2 then 1 else 0)
  }

  function MarchMonth(month: int): int {
    if month <= 2 then month + 9 else month - 3
  }

  lemma JulianDateIs(d: Ymd)
    requires ValidDate(d)
    ensures MarchYear(d.year, d.month) >= 0
    ensures JulianDate(d.year, d.month, d.day) ==
            d.day - 1 + DaysBeforeMonth(MarchMonth(d.month)) + DaysBeforeYear(MarchYear(d.year, d.month)) - 32044
  {
    assert Quot(14 - d.month, 12) == if d.month <= 2 then 1 else 0;
  }

  lemma YearSplit(b: nat, d: nat)
    requires d < 100
    ensures DaysBeforeYear(100 * b + d) == 365 * d + d / 4 + 36524 * b + b / 4
  {
    assert (100 * b + d) / 100 == b;
    assert (100 * b + d) / 4 == 25 * b + d / 4;
    assert (100 * b + d) / 400 == b / 4;
  }

  lemma LeapSplit(b: nat, d: nat)
    requires d < 100
    ensures Leap(100 * b + d - 4800) <==> d % 4 == 0 && (d == 0 ==> b % 4 == 0)
  {
    var x := 100 * b + d - 4800;
    Mod4(x, 25 * b - 1200 + d / 4, d % 4);
    Mod100(x, b - 48, d);
    Mod400(x, b / 4 - 12, 100 * (b % 4) + d);
  }

  /** A year that starts in March ends with the February that decides its length. */
  lemma YearLength(y: nat)
    ensures DaysBeforeYear(y + 1) == DaysBeforeYear(y) + (if Leap(y + 1 - 4800) then 366 else 365)
  {
    var b, d := y / 100, y % 100;
    YearSplit(b, d);
    if d < 99 {
      YearSplit(b, d + 1);
      LeapSplit(b, d + 1);
    } else {
      YearSplit(b + 1, 0);
      LeapSplit(b + 1, 0);
    }
  }

  lemma DaysBeforeMonthTable(m: int)
    requires 0 <= m <= 11
    ensures DaysBeforeMonth(m) == [0, 31, 61, 92, 122, 153, 184, 214, 245, 275, 306, 337][m]
  {
  }

  lemma NextMonth(d: Ymd)
    requires 1 <= d.month <= 12 && d.month != 2
    ensures MarchMonth(d.month) < 11
    ensures DaysBeforeMonth(MarchMonth(d.month) + 1) ==
            DaysBeforeMonth(MarchMonth(d.month)) + MonthLength(d.year, d.month)
  {
    DaysBeforeMonthTable(MarchMonth(d.month));
    DaysBeforeMonthTable(MarchMonth(d.month) + 1);
  }

  lemma LastOfFebruary(d: Ymd, n: Ymd)
    requires ValidDate(d) && d.month == 2 && d.day == MonthLength(d.year, 2) && n == NextDay(d)
    ensures ValidDate(n) && JulianDate(n.year, n.month, n.day) == JulianDate(d.year, d.month, d.day) + 1
  {
    var y := MarchYear(d.year, d.month);
    JulianDateIs(d);
    JulianDateIs(n);
    assert MarchYear(n.year, n.month) == y + 1;
    YearLength(y);
    DaysBeforeMonthTable(11);
    DaysBeforeMonthTable(0);
  }

  lemma LastOfMonth(d: Ymd, n: Ymd)
    requires ValidDate(d) && d.month != 2 && d.day == MonthLength(d.year, d.month) && n == NextDay(d)
    ensures ValidDate(n) && JulianDate(n.year, n.month, n.day) == JulianDate(d.year, d.month, d.day) + 1
  {
    JulianDateIs(d);
    JulianDateIs(n);
    NextMonth(d);
    assert MarchYear(n.year, n.month) == MarchYear(d.year, d.month);
  }

  lemma NextDayIsNextNumber(d: Ymd)
    requires ValidDate(d)
    ensures ValidDate(NextDay(d))
    ensures JulianDate(NextDay(d).year, NextDay(d).month, NextDay(d).day) == JulianDate(d.year, d.month, d.day) + 1
  {
    if d.day == MonthLength(d.year, d.month) {
      if d.month == 2 {
        LastOfFebruary(d, NextDay(d));
      } else {
        LastOfMonth(d, NextDay(d));
      }
    } else {
      JulianDateIs(d);
      JulianDateIs(NextDay(d));
      assert MarchYear(NextDay(d).year, NextDay(d).month) == MarchYear(d.year, d.month);
    }
  }

  // ---------------------------------------------------------------- from a day number back to a date

  /** The place of a day: century, year of the century, day of the year, all counted from 1 March -4800. */
  predicate Place(b: int, d: int, e: int) {
    && 0 <= b && 0 <= d < 100 && 0 <= e <= 365
    && (e == 365 ==> d % 4 == 3 && (d == 99 ==> b % 4 == 3))
  }

  function DayOfPlace(b: int, d: int, e: int): int
    requires Place(b, d, e)
  {
    e + 365 * d + d / 4 + 36524 * b + b / 4
  }

  lemma QuarterOfCentury(b: int)
    requires 0 <= b
    ensures Quot(b * 146097, 4) == 36524 * b + b / 4
  {
    Mod4(b * 146097, 36524 * b + b / 4, b % 4);
  }

  lemma QuarterOfYear(d: int)
    requires 0 <= d
    ensures Quot(1461 * d, 4) == 365 * d + d / 4
  {
    Mod4(1461 * d, 365 * d + d / 4, d % 4);
  }

  lemma CenturyOf(a: int, b: int, d: int, e: int)
    requires Place(b, d, e) && a == DayOfPlace(b, d, e)
    ensures Quot(4 * a + 3, 146097) == b
  {
    assert 0 <= 4 * a + 3 - 146097 * b < 146097;
  }

  lemma YearOfCenturyOf(c: int, d: int, e: int)
    requires 0 <= d < 100 && 0 <= e <= 365 && (e == 365 ==> d % 4 == 3) && c == e + 365 * d + d / 4
    ensures Quot(4 * c + 3, 1461) == d
  {
    assert 0 <= 4 * c + 3 - 1461 * d < 1461;
  }

  lemma MonthOf(e: int, m: int, day: int)
    requires 0 <= m <= 11 && 1 <= day && e == day - 1 + DaysBeforeMonth(m) && e <= 365
    requires m < 11 ==> day <= DaysBeforeMonth(m + 1) - DaysBeforeMonth(m)
    ensures Quot(5 * e + 2, 153) == m
  {
    DaysBeforeMonthTable(m);
    if m < 11 {
      DaysBeforeMonthTable(m + 1);
    }
  }

  /** Every day number from the start of the calendar on has a place. */
  lemma PlaceOf(a: int) returns (b: int, d: int, e: int)
    requires 0 <= a
    ensures Place(b, d, e) && a == DayOfPlace(b, d, e)
  {
    b := (4 * a + 3) / 146097;
    var c := a - (36524 * b + b / 4);
    assert 0 <= c <= 36524 && (c == 36524 ==> b % 4 == 3);
    d := (4 * c + 3) / 1461;
    e := c - (365 * d + d / 4);
  }

  lemma GetYmdUnfolds(jday: int, b: int, c: int, d: int, e: int)
    requires b == Quot(4 * (jday + 32044) + 3, 146097) && c == jday + 32044 - Quot(b * 146097, 4)
    requires d == Quot(4 * c + 3, 1461) && e == c - Quot(1461 * d, 4)
    requires jday + 32044 >= 0 && b >= 0 && c >= 0 && d >= 0
    ensures GetYmd(jday) == DateInYear(b * 100 + d - 4800, e)
  {
  }

  lemma CenturyStage(a: int, b: int, d: int, e: int)
    requires Place(b, d, e) && a == DayOfPlace(b, d, e)
    ensures Quot(4 * a + 3, 146097) == b && a - Quot(b * 146097, 4) == e + 365 * d + d / 4
  {
    CenturyOf(a, b, d, e);
    QuarterOfCentury(b);
  }

  lemma YearStage(c: int, d: int, e: int)
    requires 0 <= d < 100 && 0 <= e <= 365 && (e == 365 ==> d % 4 == 3) && c == e + 365 * d + d / 4
    ensures Quot(4 * c + 3, 1461) == d && c - Quot(1461 * d, 4) == e
  {
    YearOfCenturyOf(c, d, e);
    QuarterOfYear(d);
  }

  lemma GetYmdOfPlace(jday: int, b: int, d: int, e: int)
    requires Place(b, d, e) && jday + 32044 == DayOfPlace(b, d, e)
    ensures GetYmd(jday) == DateInYear(b * 100 + d - 4800, e)
  {
    CenturyStage(jday + 32044, b, d, e);
    YearStage(e + 365 * d + d / 4, d, e);
    GetYmdUnfolds(jday, b, e + 365 * d + d / 4, d, e);
  }

  /** The place of a valid date. */
  lemma PlaceOfDate(x: Ymd) returns (b: int, d: int, e: int)
    requires ValidDate(x)
    ensures Place(b, d, e) && JulianDate(x.year, x.month, x.day) == DayOfPlace(b, d, e) - 32044
    ensures 100 * b + d == MarchYear(x.year, x.month) && e == x.day - 1 + DaysBeforeMonth(MarchMonth(x.month))
  {
    JulianDateIs(x);
    var y := MarchYear(x.year, x.month);
    b, d := y / 100, y % 100;
    e := x.day - 1 + DaysBeforeMonth(MarchMonth(x.month));
    YearSplit(b, d);
    DaysBeforeMonthTable(MarchMonth(x.month));
    if x.month == 2 {
      LeapOfPlace(b, d);
    }
  }

  lemma DateInYearInverse(x: Ymd, e: int)
    requires ValidDate(x) && e == x.day - 1 + DaysBeforeMonth(MarchMonth(x.month)) && e <= 365
    ensures DateInYear(MarchYear(x.year, x.month) - 4800, e) == x
  {
    if x.month != 2 {
      NextMonth(x);
    }
    MonthOf(e, MarchMonth(x.month), x.day);
  }

  lemma DateRoundTrip(x: Ymd)
    requires ValidDate(x)
    ensures GetYmd(JulianDate(x.year, x.month, x.day)) == x
  {
    var b, d, e := PlaceOfDate(x);
    GetYmdOfPlace(JulianDate(x.year, x.month, x.day), b, d, e);
    DateInYearInverse(x, e);
  }

  lemma DateInYearIs(y: nat, e: int) returns (m: int)
    requires 0 <= e <= 365
    ensures 0 <= m <= 11 && DaysBeforeMonth(m) <= e && (m < 11 ==> e < DaysBeforeMonth(m + 1))
    ensures var x := DateInYear(y - 4800, e);
            && 1 <= x.month <= 12 && MarchMonth(x.month) == m && MarchYear(x.year, x.month) == y
            && x.day == e - DaysBeforeMonth(m) + 1
  {
    m := (5 * e + 2) / 153;
  }

  /** Every day number from -32044 on is the number of exactly the valid date that `get_ymd` gives. */
  lemma DayNumberRoundTrip(jday: int)
    requires jday >= -32044
    ensures ValidDate(GetYmd(jday))
    ensures var x := GetYmd(jday); JulianDate(x.year, x.month, x.day) == jday
  {
    var b, d, e := PlaceOf(jday + 32044);
    GetYmdOfPlace(jday, b, d, e);
    DateOfPlace(b, d, e);
  }

  lemma DateOfPlace(b: int, d: int, e: int)
    requires Place(b, d, e)
    ensures var x := DateInYear(b * 100 + d - 4800, e);
            ValidDate(x) && JulianDate(x.year, x.month, x.day) == DayOfPlace(b, d, e) - 32044
  {
    var x := DateInYear(b * 100 + d - 4800, e);
    var m := DateInYearIs(b * 100 + d, e);
    if x.month != 2 {
      NextMonth(x);
    } else {
      DaysBeforeMonthTable(11);
      LeapOfPlace(b, d);
    }
    YearSplit(b, d);
    JulianDateIs(x);
  }

  lemma Next4(x: int)
    ensures (x + 1) % 4 == 0 <==> x % 4 == 3
  {
  }

  lemma LeapOfPlace(b: nat, d: nat)
    requires d < 100
    ensures Leap(100 * b + d + 1 - 4800) <==> d % 4 == 3 && (d == 99 ==> b % 4 == 3)
  {
    Next4(d);
    Next4(b);
    if d < 99 {
      LeapSplit(b, d + 1);
      assert 100 * b + d + 1 - 4800 == 100 * b + (d + 1) - 4800;
    } else {
      LeapSplit(b + 1, 0);
      assert 100 * b + d + 1 - 4800 == 100 * (b + 1) + 0 - 4800;
    }
  }

  /** Before the calendar starts, `get_ymd` answers with a day of the month that is not positive. */
  lemma EarlyDayNumbersFail(jday: int)
    requires jday < -32044
    ensures GetYmd(jday).day <= 0
  {
    var a := jday + 32044;
    var b := Quot(4 * a + 3, 146097);
    var c := a - Quot(b * 146097, 4);
    assert c <= -1;
    var d := Quot(4 * c + 3, 1461);
    var e := c - Quot(1461 * d, 4);
    assert e <= -1;
  }

  lemma GetYmdValidIff(jday: int)
    ensures ValidDate(GetYmd(jday)) <==> jday >= -32044
  {
    if jday >= -32044 {
      DayNumberRoundTrip(jday);
    } else {
      EarlyDayNumbersFail(jday);
    }
  }
}

/** Dates with a time of day. */
module DateTimeObject {
  import opened Calendar

  const SECONDS_PER_DAY := 86400
  const MILLIS_PER_DAY := 86400000

  datatype Hms = Hms(hour: int, minute: int, second: int, millis: int)

  function MakeHms(hour: int, minute: int, second: int, millis: int): int {
    1000 * (3600 * hour + 60 * minute + second) + millis
  }

  function GetHms(time: int): Hms {
    var ticks := Quot(time, 1000);
    Hms(Quot(ticks, 3600), Rem(Quot(ticks, 60), 60), Rem(ticks, 60), Rem(time, 1000))
  }

  /** The duration fields, after parsing. */
  datatype Duration = Duration(years: int, months: int, days: int, hours: int, minutes: int, seconds: int)

  /** The days that the time of day carries over. */
  function DaysCarried(t: Hms, dur: Duration): int {
    Quot(t.hour + dur.hours + Quot(t.minute + dur.minutes + Quot(t.second + dur.seconds, 60), 60), 24)
  }

  predicate NonNegative(d: Duration) {
    d.years >= 0 && d.months >= 0 && d.days >= 0 && d.hours >= 0 && d.minutes >= 0 && d.seconds >= 0
  }

  /** The whole-second instant, counted from the start of day 0. */
  function Instant(date: int, time: int): int {
    SECONDS_PER_DAY * date + Quot(time, 1000)
  }

  /** `n` months later or earlier, with the day cut down to the length of the month reached. */
  function ShiftMonths(d: Ymd, n: int): Ymd {
    var index := d.month - 1 + n;
    var year, month := d.year + index / 12, index % 12 + 1;
    Ymd(year, month, if d.day > MonthLength(year, month) then MonthLength(year, month) else d.day)
  }

  lemma HmsRoundTrip(time: int)
    ensures var h := GetHms(time); MakeHms(h.hour, h.minute, h.second, h.millis) == time
  {
    var ticks := Quot(time, 1000);
    assert Quot(Quot(ticks, 60), 60) == Quot(ticks, 3600);
  }

  /** The components are in their ranges and have one sign. */
  predicate Regular(h: Hms) {
    || (0 <= h.hour && 0 <= h.minute < 60 && 0 <= h.second < 60 && 0 <= h.millis < 1000)
    || (h.hour <= 0 && -60 < h.minute <= 0 && -60 < h.second <= 0 && -1000 < h.millis <= 0)
  }

  lemma GetHmsRegular(time: int)
    ensures Regular(GetHms(time))
  {
  }

  lemma HmsSplit(h: Hms)
    requires Regular(h)
    ensures var ticks := 3600 * h.hour + 60 * h.minute + h.second;
            && Quot(1000 * ticks + h.millis, 1000) == ticks
            && Quot(ticks, 60) == 60 * h.hour + h.minute
            && Quot(ticks, 3600) == h.hour && Quot(60 * h.hour + h.minute, 60) == h.hour
  {
  }

  lemma RegularComesBack(h: Hms, time: int, ticks: int)
    requires Regular(h) && ticks == 3600 * h.hour + 60 * h.minute + h.second && time == 1000 * ticks + h.millis
    ensures GetHms(time) == h
  {
    HmsSplit(h);
    assert Quot(time, 1000) == ticks;
  }

  /** Components come back if and only if they are in their ranges and have one sign. */
  lemma HmsComponents(h: Hms)
    ensures GetHms(MakeHms(h.hour, h.minute, h.second, h.millis)) == h <==> Regular(h)
  {
    GetHmsRegular(MakeHms(h.hour, h.minute, h.second, h.millis));
    if Regular(h) {
      RegularComesBack(h, MakeHms(h.hour, h.minute, h.second, h.millis), 3600 * h.hour + 60 * h.minute + h.second);
    }
  }

  lemma Mod1000(x: int, q: int, r: int)
    requires x == 1000 * q + r && 0 <= r < 1000
    ensures x % 1000 == r && x / 1000 == q
  {
  }

  lemma Mod12(x: int, q: int, r: int)
    requires x == 12 * q + r && 0 <= r < 12
    ensures x % 12 == r && x / 12 == q
  {
  }

  lemma ShiftZero(d: Ymd)
    requires ValidDate(d)
    ensures ShiftMonths(d, 0) == d
  {
  }

  lemma ShiftKeepsValid(d: Ymd, n: nat)
    requires ValidDate(d)
    ensures ValidDate(ShiftMonths(d, n))
  {
  }

  lemma DayIsLinear(year: int, month: int, day: int, k: int)
    ensures JulianDate(year, month, day + k) == JulianDate(year, month, day) + k
  {
  }

  lemma RollMonth(year: int, month: int)
    requires 1 <= month <= 12
    ensures Rem(month + 1 - 1, 12) + 1 == (if month == 12 then 1 else month + 1)
    ensures year + Quot(month + 1 - 1, 12) == (if month == 12 then year + 1 else year)
  {
  }

  lemma FirstOfNextMonth(year: int, month: int, y: int, m: int)
    requires ValidDate(Ymd(year, month, 1))
    requires y == (if month == 12 then year + 1 else year) && m == (if month == 12 then 1 else month + 1)
    ensures ValidDate(Ymd(y, m, 1))
    ensures JulianDate(y, m, 1) == JulianDate(year, month, 1) + MonthLength(year, month)
  {
    var len := MonthLength(year, month);
    NextDayIsNextNumber(Ymd(year, month, len));
    DayIsLinear(year, month, 1, len - 1);
  }

  /** Past the end of a month the day numbers go on into the next month. */
  lemma CarryOneMonth(year: int, month: int, day: int)
    requires ValidDate(Ymd(year, month, 1))
    ensures var y, m := year + Quot(month + 1 - 1, 12), Rem(month + 1 - 1, 12) + 1;
            && ValidDate(Ymd(y, m, 1))
            && JulianDate(year, month, day) == JulianDate(y, m, day - MaxDayInMonthFor(year, month))
  {
    var y, m := year + Quot(month + 1 - 1, 12), Rem(month + 1 - 1, 12) + 1;
    RollMonth(year, month);
    MaxDayIsMonthLength(year, month);
    FirstOfNextMonth(year, month, y, m);
    DayIsLinear(year, month, 1, day - 1);
    DayIsLinear(y, m, 1, day - MaxDayInMonthFor(year, month) - 1);
  }

  // ---------------------------------------------------------------- backwards

  /** Months before January are those of the year before, as far as the day number goes. */
  lemma EarlyMonth(year: int, month: int, day: int)
    requires -10 <= month <= 0
    ensures JulianDate(year, month, day) == JulianDate(year - 1, month + 12, day)
  {
    assert Quot(14 - month, 12) == Quot(14 - (month + 12), 12) + 1;
  }

  /** Where the loop goes from a month, one step back. */
  lemma BackPlace(year: int, month: int)
    requires -10 <= month <= 12
    ensures Rem(month - 1 - 1, 12) + 1 == (if month == -10 then 1 else month - 1)
    ensures year + Quot(month - 1 - 1, 12) == (if month == -10 then year - 1 else year)
  {
  }

  /** Before January every month counts 28 days, but for the January before. */
  lemma BackLength(year: int, month: int)
    requires -10 <= month <= 1
    ensures MaxDayInMonthFor(year, month - 1) == if month == -10 then 31 else 28
  {
    assert Rem(month - 1 - 1, 12) + 1 == if month == -10 then 1 else month - 1;
  }

  /** The end of the month before, by the calendar. */
  lemma MonthBefore(year: int, month: int, day: int)
    requires 1 <= month <= 11 && ValidDate(Ymd(year, month, 1))
    ensures JulianDate(year, month, day + MonthLength(year, month)) == JulianDate(year, month + 1, day)
  {
    RollMonth(year, month);
    MaxDayIsMonthLength(year, month);
    CarryOneMonth(year, month, day + MonthLength(year, month));
  }

  lemma DecemberBefore(year: int, day: int)
    requires year > -4799
    ensures JulianDate(year - 1, 12, day + 31) == JulianDate(year, 1, day)
  {
    RollMonth(year - 1, 12);
    MaxDayIsMonthLength(year - 1, 12);
    CarryOneMonth(year - 1, 12, day + 31);
  }

  /** One step back inside a year keeps the day number. */
  lemma BackInYear(year: int, month: int, day: int)
    requires 2 <= month <= 12 && year > -4800
    ensures JulianDate(year, month - 1, day + MaxDayInMonthFor(year, month - 1)) == JulianDate(year, month, day)
  {
    MaxDayIsMonthLength(year, month - 1);
    MonthBefore(year, month - 1, day);
  }

  /** The step back out of January misses three days. */
  lemma BackFromJanuary(year: int, day: int)
    requires year > -4799
    ensures JulianDate(year, 0, day + MaxDayInMonthFor(year, 0)) == JulianDate(year, 1, day) - 3
  {
    BackLength(year, 1);
    EarlyMonth(year, 0, day + 28);
    DecemberBefore(year, day);
    DayIsLinear(year - 1, 12, day + 28, 3);
  }

  /** Further steps back never make up for that. */
  lemma BackBeforeJanuary(year: int, month: int, day: int)
    requires -10 <= month <= 0 && year > -4798
    ensures var y, m := if month == -10 then year - 1 else year, if month == -10 then 1 else month - 1;
            JulianDate(y, m, day + MaxDayInMonthFor(year, month - 1)) <= JulianDate(year, month, day)
  {
    BackLength(year, month);
    EarlyMonth(year, month, day);
    if month == -10 {
      MonthBefore(year - 1, 1, day);
    } else {
      var len := MonthLength(year - 1, month + 11);
      EarlyMonth(year, month - 1, day + 28);
      MonthBefore(year - 1, month + 11, day);
      DayIsLinear(year - 1, month + 11, day + 28, len - 28);
    }
  }

  /** The walk back stays in the years that day numbers are made for: a month counts 28 days or more. */
  predicate StaysInRange(year: int, month: int, day: int) {
    28 * (12 * year + month) + day > -28 * 12 * 4796
  }

  lemma {:induction false} MonthsGrow(year: int, month: int, day: int)
    requires 1 <= month <= 12 && year > -4800 && day >= 1
    ensures JulianDate(year, month, day) >= JulianDate(year, 1, 1)
    decreases month
  {
    if month == 1 {
      DayIsLinear(year, 1, 1, day - 1);
    } else {
      MonthsGrow(year, month - 1, day + MonthLength(year, month - 1));
      MonthBefore(year, month - 1, day);
    }
  }

  /** The day is not before the year in which its month lies. */
  predicate InItsYear(year: int, month: int, day: int) {
    day >= 1 || JulianDate(year, month, day) >= JulianDate(year, 1, 1)
  }

  /** What the carry loop keeps.  Forwards the day number stays; backwards it stays inside the year, and is too small
      once January is passed. */
  ghost predicate Carries(year: int, month: int, day: int, y: int, m: int, d: int) {
    var target := JulianDate(year, month, day);
    if day >= 1 then ValidDate(Ymd(y, m, 1)) && d >= 1 && JulianDate(y, m, d) == target
    else
      && -10 <= m <= 12 && d <= MaxDayInMonthFor(y, m) && StaysInRange(y, m, d)
      && (|| (y == year && 1 <= m && JulianDate(y, m, d) == target)
          || (JulianDate(y, m, d) < target && target < JulianDate(year, 1, 1)))
  }

  lemma BackSameLength(y: int, m: int)
    requires -10 <= m <= 12
    ensures var y', m' := if m == -10 then y - 1 else y, if m == -10 then 1 else m - 1;
            MaxDayInMonthFor(y', m') == MaxDayInMonthFor(y, m - 1) >= 28
  {
    BackPlace(y, m);
  }

  lemma BackDay(year: int, target: int, y: int, m: int, d: int)
    requires -10 <= m <= 12 && y > -4797 && d < 1
    requires || (y == year && 1 <= m && JulianDate(y, m, d) == target)
             || (JulianDate(y, m, d) < target && target < JulianDate(year, 1, 1))
    ensures var y', m' := if m == -10 then y - 1 else y, if m == -10 then 1 else m - 1;
            var j := JulianDate(y', m', d + MaxDayInMonthFor(y, m - 1));
            (y' == year && 1 <= m' && j == target) || (j < target && target < JulianDate(year, 1, 1))
  {
    if m >= 2 {
      BackInYear(y, m, d);
    } else if m == 1 {
      BackFromJanuary(y, d);
      DayIsLinear(y, 1, d, 1 - d);
    } else {
      BackBeforeJanuary(y, m, d);
    }
  }

  lemma BackKeeps(year: int, month: int, day: int, y: int, m: int, d: int, y': int, m': int, len: int)
    requires Carries(year, month, day, y, m, d) && d < 1 && len >= 28 && len == MaxDayInMonthFor(y', m')
    requires y' == (if m == -10 then y - 1 else y) && m' == (if m == -10 then 1 else m - 1)
    requires var j, target := JulianDate(y', m', d + len), JulianDate(year, month, day);
             (y' == year && 1 <= m' && j == target) || (j < target && target < JulianDate(year, 1, 1))
    ensures Carries(year, month, day, y', m', d + len)
  {
  }

  lemma BackTo(year: int, month: int, day: int, y: int, m: int, d: int, y': int, m': int, len: int)
    requires Carries(year, month, day, y, m, d) && d < 1 && len == MaxDayInMonthFor(y, m - 1)
    requires y' == (if m == -10 then y - 1 else y) && m' == (if m == -10 then 1 else m - 1)
    ensures Carries(year, month, day, y', m', d + len) && len >= 28
  {
    BackSameLength(y, m);
    BackDay(year, JulianDate(year, month, day), y, m, d);
    BackKeeps(year, month, day, y, m, d, y', m', len);
  }

  lemma BackStep(year: int, month: int, day: int, y: int, m: int, d: int, t: int, y': int, m': int,
                 len: int)
    requires Carries(year, month, day, y, m, d) && d < 1 && len == MaxDayInMonthFor(y, m - 1)
    requires t == m - 1 && y' == y + Quot(t - 1, 12) && m' == Rem(t - 1, 12) + 1
    ensures Carries(year, month, day, y', m', d + len) && len >= 28
  {
    BackPlace(y, m);
    BackTo(year, month, day, y, m, d, y', m', len);
  }

  lemma ForwardStep(year: int, month: int, day: int, y: int, m: int, d: int, t: int, y': int, m': int,
                    len: int)
    requires Carries(year, month, day, y, m, d) && d > len && len == MaxDayInMonthFor(y, m)
    requires t == m + 1 && y' == y + Quot(t - 1, 12) && m' == Rem(t - 1, 12) + 1
    ensures Carries(year, month, day, y', m', d - len) && len >= 28
  {
    MaxDayIsMonthLength(y, m);
    CarryOneMonth(y, m, d);
  }

  lemma TurnKeeps(year: int, month: int, day: int, y: int, m: int, d: int, t: int, y': int, m': int, d': int)
    requires Carries(year, month, day, y, m, d) && y' == y + Quot(t - 1, 12) && m' == Rem(t - 1, 12) + 1
    requires if d < 1 then t == m - 1 && d' == d + MaxDayInMonthFor(y, m - 1)
             else d > MaxDayInMonthFor(y, m) && t == m + 1 && d' == d - MaxDayInMonthFor(y, m)
    ensures Carries(year, month, day, y', m', d') && if d < 1 then d < d' else 1 <= d' < d
  {
    if d < 1 {
      BackStep(year, month, day, y, m, d, t, y', m', d' - d);
    } else {
      ForwardStep(year, month, day, y, m, d, t, y', m', d - d');
    }
  }

  lemma CarryStart(year: int, month: int, day: int)
    requires ValidDate(Ymd(year, month, 1)) && (day >= 1 || StaysInRange(year, month, day))
    ensures Carries(year, month, day, year, month, day) && (day < 1 ==> year > -4797)
  {
    MaxDayIsMonthLength(year, month);
  }

  lemma CarryDone(year: int, month: int, day: int, y: int, m: int, d: int)
    requires ValidDate(Ymd(year, month, 1)) && Carries(year, month, day, y, m, d) && 1 <= d <= MaxDayInMonthFor(y, m)
    requires day >= 1 || year > -4797
    ensures if InItsYear(year, month, day)
            then ValidDate(Ymd(y, m, d)) && JulianDate(y, m, d) == JulianDate(year, month, day)
            else JulianDate(y, m, d) < JulianDate(year, month, day)
  {
    if 1 <= m <= 12 {
      MaxDayIsMonthLength(y, m);
    }
    if day < 1 && y == year && 1 <= m && JulianDate(y, m, d) == JulianDate(year, month, day) {
      MonthsGrow(y, m, d);
    }
  }

  // ---------------------------------------------------------------- durations

  function JulianOf(d: Ymd): int {
    JulianDate(d.year, d.month, d.day)
  }

  function Shifted(s: Ymd, dur: Duration): Ymd {
    ShiftMonths(s, 12 * dur.years + dur.months)
  }

  /** The month is that many months and years on, and the day is kept unless the month is too short for it. */
  lemma ShiftCounts(s: Ymd, dur: Duration)
    ensures var x := Shifted(s, dur);
            && 12 * x.year + x.month == 12 * (s.year + dur.years) + s.month + dur.months && 1 <= x.month <= 12
            && (s.day <= MonthLength(x.year, x.month) ==> x.day == s.day)
            && (s.day > MonthLength(x.year, x.month) ==> x.day == MonthLength(x.year, x.month))
  {
  }

  /** What the days and the time of a duration come to. */
  function Seconds(dur: Duration): int {
    SECONDS_PER_DAY * dur.days + 3600 * dur.hours + 60 * dur.minutes + dur.seconds
  }

  /** The days that are added to the shifted date. */
  function Days(time: int, dur: Duration): int {
    dur.days + DaysCarried(GetHms(time), dur)
  }

  /** The months do not go back past January, and the dates stay in the years that day numbers are made for. */
  predicate Addable(s: Ymd, time: int, dur: Duration) {
    var x := Shifted(s, dur);
    && s.month + dur.months >= 1 && ValidDate(x)
    && (x.day + Days(time, dur) >= 1 || StaysInRange(x.year, x.month, x.day + Days(time, dur)))
  }

  /** Nothing is asked of durations without negative fields. */
  lemma NonNegativeAddable(s: Ymd, time: int, dur: Duration)
    requires ValidDate(s)
    ensures 0 <= time && NonNegative(dur) ==> Addable(s, time, dur) && Days(time, dur) >= 0
  {
    if 0 <= time && NonNegative(dur) {
      ShiftKeepsValid(s, 12 * dur.years + dur.months);
    }
  }

  /** The instant aimed at: that of the start date shifted by the years and months, plus the days and the time of the
      duration; the milliseconds are lost. */
  function Aim(s: Ymd, time: int, dur: Duration): int {
    Instant(JulianOf(Shifted(s, dur)), time) + Seconds(dur)
  }

  /** It is reached if and only if the day aimed at is not before the year of the shifted date; otherwise the result is
      too early.  A duration without negative fields always reaches it, with a time of day in its range. */
  predicate Added(s: Ymd, time: int, dur: Duration, date': int, time': int) {
    var x := Shifted(s, dur);
    && Instant(date', time') <= Aim(s, time, dur)
    && (Instant(date', time') == Aim(s, time, dur) <==> InItsYear(x.year, x.month, x.day + Days(time, dur)))
    && time' % 1000 == 0 && -MILLIS_PER_DAY < time' < MILLIS_PER_DAY
    && (0 <= time && NonNegative(dur) ==>
          Instant(date', time') == Aim(s, time, dur) && date' >= -32044 && 0 <= time')
  }

  lemma AimWithoutShift(date: int, time: int, dur: Duration)
    requires date >= -32044
    ensures dur.years == 0 && dur.months == 0 ==> Aim(GetYmd(date), time, dur) == Instant(date, time) + Seconds(dur)
  {
    DayNumberRoundTrip(date);
    ShiftZero(GetYmd(date));
  }

  class DateTime {
    var mDate: int
    var mTime: int

    constructor (date: int, time: int)
      ensures mDate == date && mTime == time
    {
      mDate, mTime := date, time;
    }

    /** `operator+=`: the instant moves by exactly the seconds given, but the time of day is left at 24:00
        instead of wrapping exactly when the sum hits midnight. */
    method AddSeconds(seconds: int)
      requires 0 <= mTime <= MILLIS_PER_DAY
      modifies this
      ensures MILLIS_PER_DAY * mDate + mTime == old(MILLIS_PER_DAY * mDate + mTime) + 1000 * seconds
      ensures Instant(mDate, mTime) == old(Instant(mDate, mTime)) + seconds
      ensures 0 <= mTime <= MILLIS_PER_DAY
      ensures 0 <= mTime < MILLIS_PER_DAY <==> old(mTime) + 1000 * Rem(seconds, SECONDS_PER_DAY) != MILLIS_PER_DAY
    {
      var d := Quot(seconds, SECONDS_PER_DAY);
      var s := Rem(seconds, SECONDS_PER_DAY);
      mDate := mDate + d;
      mTime := mTime + s * 1000;
      if mTime > MILLIS_PER_DAY {
        mDate := mDate + 1;
        mTime := Rem(mTime, MILLIS_PER_DAY);
      } else if mTime < 0 {
        mDate := mDate - 1;
        mTime := mTime + MILLIS_PER_DAY;
      }
    }

    /** `operator-` between two values, in seconds. */
    function Minus(other: DateTime): (seconds: int)
      reads this, other
      ensures seconds == Instant(mDate, mTime) - Instant(other.mDate, other.mTime)
    {
      SECONDS_PER_DAY * (mDate - other.mDate) + Quot(mTime, 1000) - Quot(other.mTime, 1000)
    }

    /** The carry loop.  The day number is kept if and only if the day is not before the year in which its month lies;
        otherwise the loop comes out too early. */
    static method CarryDays(year: int, month: int, day: int) returns (y: int, m: int, d: int)
      requires ValidDate(Ymd(year, month, 1)) && (day >= 1 || StaysInRange(year, month, day))
      ensures if InItsYear(year, month, day)
              then ValidDate(Ymd(y, m, d)) && JulianDate(y, m, d) == JulianDate(year, month, day)
              else JulianDate(y, m, d) < JulianDate(year, month, day)
    {
      y, m, d := year, month, day;
      CarryStart(year, month, day);
      var more := true;
      while more
        invariant Carries(year, month, day, y, m, d) && (!more ==> 1 <= d <= MaxDayInMonthFor(y, m))
        decreases more, if d < 1 then 1 - d else 0, d
      {
        more, y, m, d := CarryOnce(y, m, d, year, month, day);
      }
      CarryDone(year, month, day, y, m, d);
    }

    /** The day goes into the month before or after, or stays. */
    static method CarryDay(y: int, m: int, d: int) returns (more: bool, d': int, carryDay: int)
      ensures if d < 1 then more && carryDay == -1 && d' == d + MaxDayInMonthFor(y, m - 1)
              else if d > MaxDayInMonthFor(y, m) then more && carryDay == 1 && d' == d - MaxDayInMonthFor(y, m)
              else !more && d' == d
    {
      if d < 1 {
        return true, d + MaxDayInMonthFor(y, m - 1), -1;
      } else if d > MaxDayInMonthFor(y, m) {
        return true, d - MaxDayInMonthFor(y, m), 1;
      } else {
        return false, d, 0;
      }
    }

    /** One turn of the loop, which ends with a day inside its month. */
    static method CarryOnce(y: int, m: int, d: int, ghost year: int, ghost month: int, ghost day: int)
      returns (more: bool, y': int, m': int, d': int)
      requires Carries(year, month, day, y, m, d)
      ensures Carries(year, month, day, y', m', d')
      ensures if !more then d' == d && 1 <= d' <= MaxDayInMonthFor(y', m')
              else if d < 1 then d < d' else 1 <= d' < d
    {
      var carryDay;
      more, d', carryDay := CarryDay(y, m, d);
      if !more {
        return false, y, m, d;
      }
      var tmpMonth := m + carryDay;
      m' := Rem(tmpMonth - 1, 12) + 1;
      y' := y + Quot(tmpMonth - 1, 12);
      TurnKeeps(year, month, day, y, m, d, tmpMonth, y', m', d');
    }

    /** Adds a duration.  Without years and months the aim is the instant before plus the duration. */
    method AddDuration(dur: Duration)
      requires mDate >= -32044 && Addable(GetYmd(mDate), mTime, dur)
      modifies this
      ensures Added(GetYmd(old(mDate)), old(mTime), dur, mDate, mTime)
      ensures dur.years == 0 && dur.months == 0 ==>
                Aim(GetYmd(old(mDate)), old(mTime), dur) == old(Instant(mDate, mTime)) + Seconds(dur)
    {
      AimWithoutShift(mDate, mTime, dur);
      DayNumberRoundTrip(mDate);
      mDate, mTime := Sum(GetYmd(mDate), mTime, dur);
    }

    static method Sum(s: Ymd, time: int, dur: Duration) returns (date': int, time': int)
      requires ValidDate(s) && Addable(s, time, dur)
      ensures Added(s, time, dur, date', time')
    {
      NonNegativeAddable(s, time, dur);
      var eYear, eMonth, tmpDay := StartOfCarry(s, dur.years, dur.months);
      var eHour, eMin, eSec, carryHr := AddTime(time, GetHms(time), dur);
      date' := CarryDate(eYear, eMonth, tmpDay, dur.days + carryHr);
      time' := MakeHms(eHour, eMin, eSec, 0);
      WholeSeconds(eHour, eMin, eSec);
    }

    static method CarryDate(year: int, month: int, day: int, days: int) returns (date': int)
      requires ValidDate(Ymd(year, month, day)) && (day + days >= 1 || StaysInRange(year, month, day + days))
      ensures if InItsYear(year, month, day + days) then date' == JulianDate(year, month, day) + days && date' >= -32044
              else date' < JulianDate(year, month, day) + days
    {
      var y, m, d := CarryDays(year, month, day + days);
      date' := JulianDate(y, m, d);
      DayIsLinear(year, month, day, days);
      if InItsYear(year, month, day + days) {
        DateIsNotEarly(Ymd(y, m, d));
      }
    }

    /** The month and year arithmetic, and the day cut down to the month. */
    static method StartOfCarry(s: Ymd, years: int, months: int) returns (eYear: int, eMonth: int, tmpDay: int)
      requires ValidDate(s) && s.month + months >= 1
      ensures Ymd(eYear, eMonth, tmpDay) == ShiftMonths(s, 12 * years + months)
    {
      var tmpMonth := s.month + months;
      eMonth := Rem(tmpMonth - 1, 12) + 1;
      var carryMonth := Quot(tmpMonth - 1, 12);
      eYear := s.year + years + carryMonth;
      Mod12(s.month - 1 + (12 * years + months), years + carryMonth, eMonth - 1);
      MaxDayIsMonthLength(eYear, eMonth);
      if s.day > MaxDayInMonthFor(eYear, eMonth) {
        tmpDay := MaxDayInMonthFor(eYear, eMonth);
      } else {
        tmpDay := if s.day < 1 then 1 else s.day;
      }
    }

    /** The time-of-day arithmetic, with its carries. */
    static method AddTime(time: int, t: Hms, dur: Duration)
      returns (eHour: int, eMin: int, eSec: int, carryHr: int)
      requires t == GetHms(time)
      ensures -24 < eHour < 24 && -60 < eMin < 60 && -60 < eSec < 60 && carryHr == DaysCarried(t, dur)
      ensures SECONDS_PER_DAY * carryHr + 3600 * eHour + 60 * eMin + eSec ==
              Quot(time, 1000) + 3600 * dur.hours + 60 * dur.minutes + dur.seconds
      ensures 0 <= time && NonNegative(dur) ==> 0 <= eHour && 0 <= eMin && 0 <= eSec && 0 <= carryHr
    {
      HmsRoundTrip(time);
      var tmpSec := t.second + dur.seconds;
      eSec := Rem(tmpSec, 60);
      var carrySec := Quot(tmpSec, 60);
      var tmpMin := t.minute + dur.minutes + carrySec;
      eMin := Rem(tmpMin, 60);
      var carryMin := Quot(tmpMin, 60);
      var tmpHour := t.hour + dur.hours + carryMin;
      eHour := Rem(tmpHour, 24);
      carryHr := Quot(tmpHour, 24);
    }
  }

  lemma NewYearsEve(year: int)
    requires year > -4796
    ensures !InItsYear(year, 1, 0) && JulianDate(year, 1, 1) - 1 == JulianDate(year - 1, 12, 31)
  {
    DayIsLinear(year, 1, 0, 1);
    DecemberBefore(year, 0);
  }

  /** One day back from the New Year of any year is missed: December is taken for a month of 28 days. */
  method NewYearsEveMissed(year: int) returns (date: int)
    requires year > -4796
    ensures date < JulianDate(year - 1, 12, 31)
  {
    NewYearsEve(year);
    date := DateTime.CarryDate(year, 1, 1, -1);
  }

  lemma DateIsNotEarly(d: Ymd)
    requires ValidDate(d)
    ensures JulianDate(d.year, d.month, d.day) >= -32044
  {
    var b, e, f := PlaceOfDate(d);
  }

  lemma WholeSeconds(hour: int, minute: int, second: int)
    requires -24 < hour < 24 && -60 < minute < 60 && -60 < second < 60
    ensures var time := MakeHms(hour, minute, second, 0);
            time % 1000 == 0 && Quot(time, 1000) == 3600 * hour + 60 * minute + second
  {
    Mod1000(MakeHms(hour, minute, second, 0), 3600 * hour + 60 * minute + second, 0);
  }
}

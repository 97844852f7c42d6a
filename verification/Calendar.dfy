/**
 The conformance report's timestamp: seconds since the epoch to a civil date and
 time, against a day count built from the leap-year rule alone (appendix C of RFC 3339).
 */
module Calendar {

  datatype DateTime = DateTime(year: int, month: int, day: int, hour: int, minute: int, second: int)

  // ---------- the Gregorian reference ----------

  predicate Leap(y: int)
  {
    y % 4 == 0 && (y % 100 != 0 || y % 400 == 0)
  }

  function YearDays(y: int): int
  {
    if Leap(y) then 366 else 365
  }

  function MonthDays(y: int, m: int): int
  {
    if m == 2 then (if Leap(y) then 29 else 28)
    else if m == 4 || m == 6 || m == 9 || m == 11 then 30 else 31
  }

  /** Days from 1 January 1970 to 1 January of `y`. */
  function DaysToYear(y: int): int
    requires y >= 1970
    decreases y
  {
    if y == 1970 then 0 else DaysToYear(y - 1) + YearDays(y - 1)
  }

  /** Days from 1 January to the first of month `m`. */
  function DaysToMonth(y: int, m: int): int
    requires 1 <= m <= 12
    decreases m
  {
    if m == 1 then 0 else DaysToMonth(y, m - 1) + MonthDays(y, m - 1)
  }

  predicate Valid(t: DateTime)
  {
    && 1970 <= t.year && 1 <= t.month <= 12 && 1 <= t.day <= MonthDays(t.year, t.month)
    && 0 <= t.hour < 24 && 0 <= t.minute < 60 && 0 <= t.second < 60
  }

  function Seconds(t: DateTime): int
    requires Valid(t)
  {
    (DaysToYear(t.year) + DaysToMonth(t.year, t.month) + t.day - 1) * 86400
    + t.hour * 3600 + t.minute * 60 + t.second
  }

  /** `date` is the Gregorian date `days` days after the epoch. */
  ghost predicate Dates(date: (int, int, int), days: int)
  {
    var (y, m, d) := date;
    && 1970 <= y && 1 <= m <= 12 && 1 <= d <= MonthDays(y, m)
    && DaysToYear(y) + DaysToMonth(y, m) + d - 1 == days
  }

  // ---------- the computation ----------

  function YearOfEra(doe: int): int
  {
    (doe - doe / 1460 + doe / 36524 - doe / 146096) / 365
  }

  /** Day `doy` of the year from March that starts in year `y`. */
  function MonthDay(y: int, doy: int): (int, int, int)
  {
    var mp := (5 * doy + 2) / 153;
    var day := doy - (153 * mp + 2) / 5 + 1;
    var month := if mp < 10 then mp + 3 else mp - 9;
    (if month <= 2 then y + 1 else y, month, day)
  }

  /** Day `doe` of a 400-year era. */
  function EraDate(era: int, doe: int): (int, int, int)
  {
    var yoe := YearOfEra(doe);
    MonthDay(yoe + era * 400, doe - (365 * yoe + yoe / 4 - yoe / 100))
  }

  /** Days since the epoch to (year, month, day); the year is counted from March while computing. */
  function CivilDate(days: nat): (int, int, int)
  {
    var z := days + 719468;
    EraDate(z / 146097, z % 146097)
  }

  function Stamp(date: (int, int, int), secs: nat): DateTime
  {
    DateTime(date.0, date.1, date.2, (secs / 3600) % 24, (secs / 60) % 60, secs % 60)
  }

  function Civil(secs: nat): DateTime
  {
    Stamp(CivilDate(secs / 86400), secs)
  }

  // ---------- years counted from March ----------

  /** Days from 1 March of year 0 to 1 March of year `y`. */
  function March(y: int): int
  {
    365 * y + y / 4 - y / 100 + y / 400
  }

  /** A year from March is as long as the calendar year it ends in. */
  lemma MarchStep(y: int)
    ensures March(y) - March(y - 1) == YearDays(y)
  {
    Every4(y);
    Every100(y);
    Every400(y);
    CyclesNest(y);
  }

  lemma Every4(y: int)
    ensures y / 4 - (y - 1) / 4 == if y % 4 == 0 then 1 else 0
  {
  }

  lemma Every100(y: int)
    ensures y / 100 - (y - 1) / 100 == if y % 100 == 0 then 1 else 0
  {
  }

  lemma Every400(y: int)
    ensures y / 400 - (y - 1) / 400 == if y % 400 == 0 then 1 else 0
  {
  }

  /** The leap-year rule's three cycles nest. */
  lemma CyclesNest(y: int)
    ensures y % 100 == 0 ==> y % 4 == 0
    ensures y % 400 == 0 ==> y % 100 == 0
  {
    if y % 100 == 0 {
      MultipleOf4(y, 25 * (y / 100));
    }
    if y % 400 == 0 {
      MultipleOf100(y, 4 * (y / 400));
    }
  }

  lemma MultipleOf4(y: int, q: int)
    requires y == 4 * q
    ensures y % 4 == 0
  {
  }

  lemma MultipleOf100(y: int, q: int)
    requires y == 100 * q
    ensures y % 100 == 0
  {
  }

  lemma {:induction false} YearFromMarch(y: int)
    requires y >= 1970
    ensures DaysToYear(y) == March(y - 1) + 306 - 719468
    decreases y
  {
    if y > 1970 {
      YearFromMarch(y - 1);
      MarchStep(y - 1);
    }
  }

  /** 400 years are 146097 days. */
  lemma MarchEra(era: int, yoe: int)
    ensures March(400 * era + yoe) == 146097 * era + March(yoe)
  {
    assert (400 * era + yoe) / 4 == 100 * era + yoe / 4;
    assert (400 * era + yoe) / 100 == 4 * era + yoe / 100;
    assert (400 * era + yoe) / 400 == era + yoe / 400;
  }

  /** Within the century `b`, whose first day is 36524 b, the correction terms find the right year. */
  lemma CenturyYear(b: int, r: int)
    requires 0 <= b <= 3 && 0 <= r < 36524
    ensures var j := (r - (24 * b + r) / 1460) / 365;
            0 <= j < 100 && 365 * j + j / 4 <= r < 365 * (j + 1) + (j + 1) / 4
  {
    var s, t := r / 1461, r % 1461;
    var extra := (24 * b + s + t) / 1460;
    assert 0 <= s <= 24;
    assert 0 <= extra <= 1;
    assert (24 * b + r) / 1460 == s + extra;
    assert extra == 1 ==> t >= 1364;
    var k := (t - extra) / 365;
    assert 0 <= k <= 3;
    assert (r - (24 * b + r) / 1460) / 365 == 4 * s + k;
    assert (4 * s + k) / 4 == s;
    assert (4 * s + k + 1) / 4 == if k == 3 then s + 1 else s;
  }

  /** The year of era: `doe` falls inside it, the last day of the era included. */
  lemma YearOfEraExact(doe: int)
    requires 0 <= doe < 146097
    ensures 0 <= YearOfEra(doe) < 400
    ensures March(YearOfEra(doe)) <= doe < March(YearOfEra(doe) + 1)
  {
    if doe == 146096 {
      assert YearOfEra(doe) == 399;
    } else {
      var b, r := doe / 36524, doe % 36524;
      assert doe / 146096 == 0 && 0 <= b <= 3;
      assert doe / 1460 == 25 * b + (24 * b + r) / 1460;
      var j := (r - (24 * b + r) / 1460) / 365;
      CenturyYear(b, r);
      assert YearOfEra(doe) == 100 * b + j;
      CenturyMarch(b, j);
      CenturyMarch(b, j + 1);
    }
  }

  lemma CenturyMarch(b: int, j: int)
    requires 0 <= b <= 3 && 0 <= j <= 100
    ensures j < 100 ==> March(100 * b + j) == 36524 * b + 365 * j + j / 4
    ensures j == 100 ==> March(100 * b + j) >= 36524 * (b + 1)
  {
    assert (100 * b + j) / 4 == 25 * b + j / 4;
    if j < 100 {
      assert (100 * b + j) / 100 == b;
      assert (100 * b + j) / 400 == 0;
    }
  }

  // ---------- months counted from March ----------

  /** Days from 1 March to the first of the `mp`-th month after it. */
  function MonthStart(mp: int): int
  {
    (153 * mp + 2) / 5
  }

  lemma MonthOf(doy: int)
    requires 0 <= doy < 366
    ensures var mp := (5 * doy + 2) / 153;
            0 <= mp <= 11 && MonthStart(mp) <= doy < MonthStart(mp + 1)
  {
  }

  /** The month table from March agrees with the month lengths. */
  lemma MonthTable(y: int, m: int)
    requires 3 <= m <= 12
    ensures DaysToMonth(y, m) == (if Leap(y) then 60 else 59) + MonthStart(m - 3)
    ensures MonthStart(m - 2) - MonthStart(m - 3) == MonthDays(y, m)
    decreases m
  {
    if m > 3 {
      MonthTable(y, m - 1);
    } else {
      assert DaysToMonth(y, 2) == 31;
    }
  }

  // ---------- the result ----------

  lemma CivilDateExact(days: nat)
    ensures Dates(CivilDate(days), days)
  {
    EraOf(days + 719468);
    EraDateExact((days + 719468) / 146097, (days + 719468) % 146097, days, CivilDate(days));
  }

  lemma EraOf(z: int)
    ensures 0 <= z % 146097 < 146097 && 146097 * (z / 146097) + z % 146097 == z
  {
  }

  lemma EraDateExact(era: int, doe: int, days: nat, date: (int, int, int))
    requires 0 <= doe < 146097 && 146097 * era + doe == days + 719468
    requires date == EraDate(era, doe)
    ensures Dates(date, days)
  {
    MarchYear(era, doe, days);
    DateOn(YearOfEra(doe), era, doe, days, date);
  }

  /** Day `doe` of the era is in year `yoe` of it, and is `days` days after the epoch. */
  ghost predicate FallsIn(yoe: int, era: int, doe: int, days: int)
  {
    var doy := doe - (365 * yoe + yoe / 4 - yoe / 100);
    March(yoe + era * 400) + doy == days + 719468 && 0 <= doy < YearDays(yoe + era * 400 + 1)
  }

  lemma DateOn(yoe: int, era: int, doe: int, days: nat, date: (int, int, int))
    requires FallsIn(yoe, era, doe, days)
    requires date == MonthDay(yoe + era * 400, doe - (365 * yoe + yoe / 4 - yoe / 100))
    ensures Dates(date, days)
  {
    MonthDayExact(yoe + era * 400, doe - (365 * yoe + yoe / 4 - yoe / 100), days);
  }

  /** The year from March and the day within it, for any day of any era. */
  lemma MarchYear(era: int, doe: int, days: int)
    requires 0 <= doe < 146097 && 146097 * era + doe == days + 719468
    ensures FallsIn(YearOfEra(doe), era, doe, days)
  {
    YearOfEraExact(doe);
    MarchFirst(YearOfEra(doe));
    DayOfYear(era, YearOfEra(doe), doe);
  }

  /** A day inside a year of its era is that many days into that year of the calendar. */
  lemma DayOfYear(era: int, yoe: int, doe: int)
    requires March(yoe) <= doe < March(yoe + 1)
    ensures var doy := doe - March(yoe);
            March(yoe + era * 400) + doy == 146097 * era + doe && 0 <= doy < YearDays(yoe + era * 400 + 1)
  {
    MarchEra(era, yoe);
    MarchEra(era, yoe + 1);
    MarchStep(400 * era + yoe + 1);
    assert March(yoe + 1) - March(yoe) == YearDays(yoe + era * 400 + 1);
  }

  lemma MarchFirst(yoe: int)
    requires 0 <= yoe < 400
    ensures March(yoe) == 365 * yoe + yoe / 4 - yoe / 100
  {
    assert yoe / 400 == 0;
  }

  lemma MonthDayExact(Y: int, doy: int, days: nat)
    requires March(Y) + doy == days + 719468 && 0 <= doy < YearDays(Y + 1)
    ensures Dates(MonthDay(Y, doy), days)
  {
    var mp := (5 * doy + 2) / 153;
    MonthOf(doy);
    MarchAtEpoch(Y, days + 719468, doy, mp);
    if mp < 10 {
      MonthTable(Y, mp + 3);
      YearFromMarch(Y);
      MarchStep(Y);
    } else {
      YearFromMarch(Y + 1);
      assert MonthStart(10) == 306 && MonthStart(11) == 337 && MonthStart(12) == 367;
      assert DaysToMonth(Y + 1, 1) == 0 && DaysToMonth(Y + 1, 2) == 31;
    }
  }

  /** From the epoch on the date is in 1970 or later: 1969 ends in the months after December of March-year 1969. */
  lemma MarchAtEpoch(Y: int, z: int, doy: int, mp: int)
    requires z >= 719468 && z == March(Y) + doy && 0 <= doy < YearDays(Y + 1)
    requires mp == (5 * doy + 2) / 153
    ensures Y >= 1969 && (mp < 10 ==> Y >= 1970)
  {
    assert March(1969) == 719162;
    if Y < 1969 {
      MarchMonotone(Y + 1, 1969);
      MarchStep(Y + 1);
    }
  }

  lemma {:induction false} MarchMonotone(a: int, b: int)
    requires a <= b
    ensures March(a) <= March(b)
    decreases b - a
  {
    if a < b {
      MarchMonotone(a, b - 1);
      MarchStep(b);
    }
  }

  /**
   For every second count from the epoch the result is a valid Gregorian date and
   time, and the reference day count maps it back to exactly that second.
   */
  lemma CivilExact(secs: nat)
    ensures Valid(Civil(secs)) && Seconds(Civil(secs)) == secs
  {
    CivilDateExact(secs / 86400);
    TimeOfDay(secs);
  }

  lemma TimeOfDay(secs: nat)
    ensures secs == (secs / 86400) * 86400 + ((secs / 3600) % 24) * 3600 + ((secs / 60) % 60) * 60 + secs % 60
  {
    var m, h := secs / 60, secs / 3600;
    assert h == m / 60;
    assert secs / 86400 == h / 24;
  }

  lemma {:induction false} DaysMonotone(a: int, b: int)
    requires 1970 <= a <= b
    ensures DaysToYear(a) <= DaysToYear(b)
    decreases b
  {
    if a < b {
      DaysMonotone(a, b - 1);
    }
  }

  lemma {:induction false} MonthWithinYear(y: int, m: int)
    requires 1 <= m <= 12
    ensures 0 <= DaysToMonth(y, m) && DaysToMonth(y, m) + MonthDays(y, m) <= YearDays(y)
    decreases m
  {
    if m >= 3 {
      MonthTable(y, m);
    } else {
      assert DaysToMonth(y, 1) == 0 && DaysToMonth(y, 2) == 31;
    }
  }

  /** The four-digit year the format asks for (section 5.6 of RFC 3339) is met exactly up to the end of 9999. */
  lemma FourDigitYears(secs: nat)
    ensures Civil(secs).year <= 9999 <==> secs < 253402300800
  {
    CivilDateExact(secs / 86400);
    var (y, m, d) := CivilDate(secs / 86400);
    MonthWithinYear(y, m);
    YearFromMarch(10000);
    assert DaysToYear(10000) == 2932897;
    if y <= 9999 {
      DaysMonotone(y + 1, 10000);
    } else {
      DaysMonotone(10000, y);
    }
  }

  /** A date lies inside its own year. */
  lemma InYear(date: (int, int, int), days: int)
    requires Dates(date, days)
    ensures DaysToYear(date.0) <= days < DaysToYear(date.0 + 1)
  {
    MonthWithinYear(date.0, date.1);
  }

  lemma {:induction false} MonthsMonotone(y: int, a: int, b: int)
    requires 1 <= a < b <= 12
    ensures DaysToMonth(y, a) + MonthDays(y, a) <= DaysToMonth(y, b)
    decreases b
  {
    if a < b - 1 {
      MonthsMonotone(y, a, b - 1);
    }
  }

  /** No two dates share a day count. */
  lemma DateUnique(a: (int, int, int), b: (int, int, int), days: int)
    requires Dates(a, days) && Dates(b, days)
    ensures a == b
  {
    InYear(a, days);
    InYear(b, days);
    if a.0 < b.0 {
      DaysMonotone(a.0 + 1, b.0);
    } else if b.0 < a.0 {
      DaysMonotone(b.0 + 1, a.0);
    } else if a.1 < b.1 {
      MonthsMonotone(a.0, a.1, b.1);
    } else if b.1 < a.1 {
      MonthsMonotone(a.0, b.1, a.1);
    }
  }

  /** The other direction: every valid date and time is the one computed for its second count. */
  lemma CivilInverse(t: DateTime)
    requires Valid(t)
    ensures Seconds(t) >= 0 && Civil(Seconds(t)) == t
  {
    var days := DaysToYear(t.year) + DaysToMonth(t.year, t.month) + t.day - 1;
    DateInverse((t.year, t.month, t.day), days);
    TimeInverse(t, days, Seconds(t));
  }

  lemma TimeInverse(t: DateTime, days: nat, secs: int)
    requires CivilDate(days) == (t.year, t.month, t.day)
    requires 0 <= t.hour < 24 && 0 <= t.minute < 60 && 0 <= t.second < 60
    requires secs == days * 86400 + t.hour * 3600 + t.minute * 60 + t.second
    ensures secs >= 0 && Civil(secs) == t
  {
    ClockOf(days, t.hour, t.minute, t.second);
  }

  lemma DateInverse(date: (int, int, int), days: int)
    requires Dates(date, days)
    ensures days >= 0 && CivilDate(days) == date
  {
    InYear(date, days);
    DaysMonotone(1970, date.0);
    CivilDateExact(days);
    DateUnique(CivilDate(days), date, days);
  }

  lemma ClockOf(days: nat, h: int, m: int, s: int)
    requires 0 <= h < 24 && 0 <= m < 60 && 0 <= s < 60
    ensures var secs := days * 86400 + h * 3600 + m * 60 + s;
            secs / 86400 == days && (secs / 3600) % 24 == h && (secs / 60) % 60 == m && secs % 60 == s
  {
    var secs := days * 86400 + h * 3600 + m * 60 + s;
    assert secs / 3600 == days * 24 + h;
    assert secs / 60 == (days * 24 + h) * 60 + m;
  }
}

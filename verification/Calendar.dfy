/** Seconds since the Epoch to broken-down UTC time, in the widths of the C code. */
module Calendar {
  import opened Arithmetic

  /** The first second whose year does not fit tm_year. */
  const YEAR_LIMIT: int := 2147485548
  const LIMIT: int := 67768036191676800

  datatype Tm = Tm(sec: int, min: int, hour: int, mday: int, mon: int, year: int, wday: int, yday: int, isdst: int)

  /** What the fields are computed from; doe to m are uint32_t in the source. */
  datatype Civil = Civil(era: int, doe: int, yoe: int, doy: int, d: int, m: int, year: int)

  function ToU32(x: int): (r: int)
    ensures 0 <= r < U32
    ensures 0 <= x < U32 ==> r == x
  {
    x % U32
  }

  /** The conversion to a 32-bit int. */
  function ToInt(x: int): (r: int)
    ensures -0x8000_0000 <= r < 0x8000_0000
    ensures -0x8000_0000 <= x < 0x8000_0000 ==> r == x
  {
    (x + 0x8000_0000) % U32 - 0x8000_0000
  }

  /** C's division truncates towards zero. */
  function Quotient(a: int, b: int): int
    requires b > 0
  {
    if a >= 0 then a / b else -(-a / b)
  }

  function CivilFromDays(days: int): Civil {
    var z := days + 719468;
    var era := Quotient(if z >= 0 then z else z - 146096, 146097);
    var doe := ToU32(z - era * 146097);
    var yoe := YoeOf(doe);
    var y := yoe + era * 400;
    var doy := DoyOf(doe, yoe);
    var md := MonthAndDay(doy);
    Civil(era, doe, yoe, doy, md.d, md.m, y + if md.m <= 2 then 1 else 0)
  }

  function YoeOf(doe: int): int {
    ToU32(ToU32(ToU32(doe - doe / 1460) + doe / 36524) - doe / 146096) / 365
  }

  function DoyOf(doe: int, yoe: int): int {
    ToU32(doe - ToU32(ToU32(ToU32(365 * yoe) + yoe / 4) - yoe / 100))
  }

  datatype MonthDay = MonthDay(mp: int, d: int, m: int)

  function MonthAndDay(doy: int): MonthDay {
    var mp := ToU32(ToU32(5 * doy) + 2) / 153;
    var d := ToU32(ToU32(doy - ToU32(ToU32(153 * mp) + 2) / 5) + 1);
    var m := ToU32(mp + ToU32(if mp < 10 then 3 else -9));
    MonthDay(mp, d, m)
  }

  const DAYS_BEFORE_MONTH: seq<int> := [0, 31, 59, 90, 120, 151, 181, 212, 243, 273, 304, 334]

  predicate IsLeap(year: int) {
    (year % 4 == 0 && year % 100 != 0) || year % 400 == 0
  }

  function YearDay(c: Civil): int
    requires 1 <= c.m <= 12
  {
    DAYS_BEFORE_MONTH[c.m - 1] + c.d - 1 + if c.m > 2 && IsLeap(c.year) then 1 else 0
  }

  function TmOf(c: Civil, days: int, secs: int): Tm
    requires 1 <= c.m <= 12
  {
    Tm(secs % 60, secs / 60 % 60, secs / 3600, ToInt(c.d), ToInt(c.m - 1), ToInt(c.year - 1900),
       ((days + 4) % 7 + 7) % 7, ToInt(YearDay(c)), 0)
  }

  function TimestampToTm(ts: int): Tm
    requires 0 <= ts < U64
  {
    MonthInTable(ts / 86400);
    TmOf(CivilFromDays(ts / 86400), ts / 86400, ts % 86400)
  }

  // ---------------------------------------------------------------- the Gregorian calendar

  function YearLen(year: int): int {
    if IsLeap(year) then 366 else 365
  }

  /** Months count from 0. */
  function MonthLen(year: int, mon: int): int {
    if mon == 1 then (if IsLeap(year) then 29 else 28)
    else if mon == 3 || mon == 5 || mon == 8 || mon == 10 then 30
    else 31
  }

  /** The days from the Epoch to the start of a year, year by year. */
  function DaysBeforeYear(year: int): (days: int)
    requires year >= 1970
    ensures days >= 0
    decreases year
  {
    if year == 1970 then 0 else DaysBeforeYear(year - 1) + YearLen(year - 1)
  }

  function DaysBeforeMonth(year: int, mon: int): int
    requires 0 <= mon
  {
    if mon == 0 then 0 else DaysBeforeMonth(year, mon - 1) + MonthLen(year, mon - 1)
  }

  /** The Epoch was a Thursday. */
  function Weekday(days: nat): int {
    if days == 0 then 4 else (Weekday(days - 1) + 1) % 7
  }

  /** Section 4.16 of POSIX.1-2017, Seconds Since the Epoch. */
  function PosixSeconds(t: Tm): int {
    t.sec + t.min * 60 + t.hour * 3600 + t.yday * 86400 +
    (t.year - 70) * 31536000 + Quotient(t.year - 69, 4) * 86400 -
    Quotient(t.year - 1, 100) * 86400 + Quotient(t.year + 299, 400) * 86400
  }

  // ---------------------------------------------------------------- closed forms

  /** The leap years up to and including a year. */
  function Leaps(year: int): int {
    year / 4 - year / 100 + year / 400
  }

  lemma LeapsStep(year: int)
    ensures Leaps(year) == Leaps(year - 1) + if IsLeap(year) then 1 else 0
  {
    DivStep(year, 4);
    DivStep(year, 100);
    DivStep(year, 400);
    ModOfMultiple(year, 400, 100, 4);
    ModOfMultiple(year, 100, 4, 25);
  }

  lemma ModOfMultiple(a: int, n: int, m: int, k: int)
    requires n == m * k && m > 0 && k > 0
    ensures a % n == 0 ==> a % m == 0
  {
    var q := a / n;
    if a % n == 0 {
      assert a == n * q == m * (k * q);
      DivModUnique(a, m, k * q, 0);
    }
  }

  lemma DivStep(a: int, b: int)
    requires b == 4 || b == 100 || b == 400
    ensures a / b == (a - 1) / b + if a % b == 0 then 1 else 0
  {}

  lemma {:induction false} DaysBeforeYearClosed(year: int)
    requires year >= 1970
    ensures DaysBeforeYear(year) == 365 * (year - 1970) + Leaps(year - 1) - 477
    decreases year
  {
    if year > 1970 {
      DaysBeforeYearClosed(year - 1);
      LeapsStep(year - 1);
    }
  }

  lemma LeapsMonotone(a: int, b: int)
    requires a <= b
    ensures Leaps(a) <= Leaps(b)
    decreases b - a
  {
    if a < b {
      LeapsStep(b);
      LeapsMonotone(a, b - 1);
    }
  }

  // ---------------------------------------------------------------- the era

  /** Day doe of an era as century c, four-year cycle k, year r of it and day doy of that year,
      years starting in March. */
  lemma EraParts(doe: int) returns (c: int, k: int, r: int, doy: int)
    requires 0 <= doe < 146097
    ensures 0 <= c < 4 && 0 <= k < 25 && 0 <= r < 4 && 0 <= doy <= 365
    ensures doe == 36524 * c + 1461 * k + 365 * r + doy
    ensures doy == 365 ==> r == 3 && (k < 24 || c == 3)
  {
    c := if doe == 146096 then 3 else doe / 36524;
    var inCentury := doe - 36524 * c;
    k := inCentury / 1461;
    var inCycle := inCentury - 1461 * k;
    r := if inCycle == 1460 then 3 else inCycle / 365;
    doy := inCycle - 365 * r;
  }

  function RawYoe(doe: int): int {
    doe - doe / 1460 + doe / 36524 - doe / 146096
  }

  /** The year of the era, and no intermediate result leaves the range of uint32_t. */
  lemma YearOfEra(doe: int, c: int, k: int, r: int, doy: int)
    requires 0 <= c < 4 && 0 <= k < 25 && 0 <= r < 4 && 0 <= doy <= 365
    requires doe == 36524 * c + 1461 * k + 365 * r + doy
    requires doy == 365 ==> r == 3 && (k < 24 || c == 3)
    ensures RawYoe(doe) / 365 == 100 * c + 4 * k + r
    ensures 0 <= doe - doe / 1460 && 0 <= RawYoe(doe) < 146097
  {
    var rest := 24 * c + k + 365 * r + doy;
    var e := if rest >= 1460 then 1 else 0;
    DivModUnique(doe, 1460, 25 * c + k + e, rest - 1460 * e);
    var last := if doe == 146096 then 1 else 0;
    DivModUnique(doe, 36524, c + last, doe - 36524 * (c + last));
    DivModUnique(doe, 146096, last, doe - 146096 * last);
    assert RawYoe(doe) == 365 * (100 * c + 4 * k + r) + (doy - e);
    DivModUnique(RawYoe(doe), 365, 100 * c + 4 * k + r, doy - e);
  }

  /** The year of the era and the day of that year, exactly. */
  ghost predicate InEra(c: Civil) {
    && 0 <= c.yoe < 400 && 0 <= c.doy <= 365
    && c.doe == 365 * c.yoe + c.yoe / 4 - c.yoe / 100 + c.doy
    && (c.doy == 365 ==> c.yoe % 4 == 3 && (c.yoe % 100 != 99 || c.yoe == 399))
  }

  /** An intermediate result that uint32_t holds. */
  predicate InU32(x: int) {
    0 <= x < U32
  }

  lemma YoeExact(doe: int)
    requires 0 <= doe < 146097 && 0 <= doe - doe / 1460 && 0 <= RawYoe(doe) < 146097
    ensures YoeOf(doe) == RawYoe(doe) / 365
  {}

  lemma DoyExact(doe: int, yoe: int, doy: int)
    requires 0 <= doy <= 365 && 0 <= yoe < 400 && doe == 365 * yoe + yoe / 4 - yoe / 100 + doy
    ensures DoyOf(doe, yoe) == doy
  {}

  lemma YearParts(yoe: int, c: int, k: int, r: int)
    requires 0 <= c < 4 && 0 <= k < 25 && 0 <= r < 4 && yoe == 100 * c + 4 * k + r
    ensures yoe / 4 == 25 * c + k && yoe % 4 == r && yoe / 100 == c && yoe % 100 == 4 * k + r
  {
    DivModUnique(yoe, 4, 25 * c + k, r);
    DivModUnique(yoe, 100, c, 4 * k + r);
  }

  lemma YearAndDayExact(doe: int)
    requires 0 <= doe < 146097
    ensures var yoe := YoeOf(doe);
      var doy := DoyOf(doe, yoe);
      && yoe == RawYoe(doe) / 365 && 0 <= yoe < 400
      && doy == doe - (365 * yoe + yoe / 4 - yoe / 100) && 0 <= doy <= 365
      && (doy == 365 ==> yoe % 4 == 3 && (yoe % 100 != 99 || yoe == 399))
      && 0 <= doe - doe / 1460 && 0 <= RawYoe(doe) < 146097
  {
    var cc, k, r, doy := EraParts(doe);
    YearOfEra(doe, cc, k, r, doy);
    var yoe := 100 * cc + 4 * k + r;
    YearParts(yoe, cc, k, r);
    YoeExact(doe);
    DoyExact(doe, yoe, doy);
  }

  lemma YearStepsInRange(doe: int, yoe: int)
    requires 0 <= doe < 146097 && 0 <= yoe < 400
    requires 0 <= doe - (365 * yoe + yoe / 4 - yoe / 100) && 0 <= doe - doe / 1460
    ensures InU32(doe - doe / 1460) && InU32(doe - doe / 1460 + doe / 36524)
    ensures InU32(365 * yoe) && InU32(365 * yoe + yoe / 4) && InU32(365 * yoe + yoe / 4 - yoe / 100)
    ensures InU32(doe - (365 * yoe + yoe / 4 - yoe / 100))
  {}

  /** The year of the era and the day of that year, with every intermediate result in range. */
  lemma YearAndDay(doe: int)
    requires 0 <= doe < 146097
    ensures var yoe := YoeOf(doe);
      var doy := DoyOf(doe, yoe);
      && yoe == RawYoe(doe) / 365 && 0 <= yoe < 400
      && doy == doe - (365 * yoe + yoe / 4 - yoe / 100) && 0 <= doy <= 365
      && (doy == 365 ==> yoe % 4 == 3 && (yoe % 100 != 99 || yoe == 399))
    ensures InU32(doe - doe / 1460) && InU32(doe - doe / 1460 + doe / 36524) && InU32(RawYoe(doe))
    ensures var yoe := YoeOf(doe);
      && InU32(365 * yoe) && InU32(365 * yoe + yoe / 4) && InU32(365 * yoe + yoe / 4 - yoe / 100)
      && InU32(doe - (365 * yoe + yoe / 4 - yoe / 100))
  {
    YearAndDayExact(doe);
    YearStepsInRange(doe, YoeOf(doe));
  }

  lemma EraOfDays(days: int)
    requires days >= 0
    ensures var c := CivilFromDays(days);
      && c.doe == days + 719468 - 146097 * c.era && 0 <= c.doe < 146097 && InEra(c)
  {
    var z := days + 719468;
    DivModIdentity(z, 146097);
    YearAndDay(z % 146097);
  }

  // ---------------------------------------------------------------- months

  /** The days before each month of a year that starts in March. */
  function MarchDays(mp: int): int {
    (153 * mp + 2) / 5
  }

  /** Month and day of a day of the March year, with every intermediate result in range but the
      sum that wraps for January and February. */
  lemma MonthOfDay(doy: int)
    requires 0 <= doy <= 365
    ensures var md := MonthAndDay(doy);
      && md.mp == (5 * doy + 2) / 153 && 0 <= md.mp <= 11
      && MarchDays(md.mp) <= doy && (md.mp < 11 ==> doy < MarchDays(md.mp + 1))
      && md.d == doy - MarchDays(md.mp) + 1 && 1 <= md.d <= 31
      && md.m == (if md.mp < 10 then md.mp + 3 else md.mp - 9)
      && InU32(5 * doy + 2) && InU32(153 * md.mp + 2) && InU32(doy - MarchDays(md.mp)) && InU32(md.d)
      && (InU32(md.mp + ToU32(if md.mp < 10 then 3 else -9)) <==> md.mp < 10)
  {
    var mp := (5 * doy + 2) / 153;
    assert 0 <= mp <= 11 && MarchDays(mp) <= doy && (mp < 11 ==> doy < MarchDays(mp + 1));
    assert MonthAndDay(doy).mp == mp;
    if mp >= 10 {
      assert ToU32(-9) == U32 - 9;
    }
  }

  lemma MonthInTable(days: int)
    requires days >= 0
    ensures 1 <= CivilFromDays(days).m <= 12
  {
    EraOfDays(days);
    MonthOfDay(CivilFromDays(days).doy);
  }

  lemma {:induction false} MonthTable(year: int, mon: int)
    requires 0 <= mon < 12
    ensures DaysBeforeMonth(year, mon) == DAYS_BEFORE_MONTH[mon] + if mon >= 2 && IsLeap(year) then 1 else 0
  {
    if mon > 0 {
      MonthTable(year, mon - 1);
    }
  }

  /** The March year of a day count: before it lie 365 days a year and the leap days. */
  lemma MarchYear(c: Civil, y: int)
    requires InEra(c) && y == c.yoe + 400 * c.era
    ensures c.doe + 146097 * c.era == 365 * y + Leaps(y) + c.doy
    ensures c.doy == 365 ==> IsLeap(y + 1)
  {
    LeapsInEra(c.era, c.yoe);
    if c.doy == 365 {
      LeapAfter(c.era, c.yoe);
    }
  }

  lemma LeapsInEra(era: int, yoe: int)
    requires 0 <= yoe < 400
    ensures Leaps(yoe + 400 * era) == 97 * era + yoe / 4 - yoe / 100
  {
    var y := yoe + 400 * era;
    DivModUnique(y, 4, 100 * era + yoe / 4, yoe % 4);
    DivModUnique(y, 100, 4 * era + yoe / 100, yoe % 100);
    DivModUnique(y, 400, era, yoe);
  }

  lemma LeapAfter(era: int, yoe: int)
    requires 0 <= yoe < 400 && yoe % 4 == 3 && (yoe % 100 != 99 || yoe == 399)
    ensures IsLeap(yoe + 400 * era + 1)
  {
    var y := yoe + 400 * era + 1;
    if yoe == 399 {
      DivModUnique(y, 400, era + 1, 0);
    } else {
      DivModUnique(y, 4, 100 * era + yoe / 4 + 1, 0);
      DivModUnique(y, 100, 4 * era + yoe / 100, yoe % 100 + 1);
    }
  }

  // ---------------------------------------------------------------- dates

  /** Day `days` after the Epoch is day mday of month mon of the year, the day yday of the year. */
  ghost predicate IsDate(days: int, year: int, mon: int, mday: int, yday: int) {
    && year >= 1970 && 0 <= mon < 12 && 1 <= mday <= MonthLen(year, mon)
    && yday == DaysBeforeMonth(year, mon) + mday - 1
    && days == DaysBeforeYear(year) + yday
  }

  lemma NotBeforeEpoch(y: int, doy: int)
    requires 365 * y + Leaps(y) + doy >= 719468 && 0 <= doy <= 365
    ensures y >= 1969 && (doy < 306 ==> y >= 1970)
  {
    if y <= 1968 {
      LeapsMonotone(y, 1968);
    }
  }

  /** How a Civil holds together. */
  ghost predicate IsCivil(c: Civil, days: int) {
    && c.doe == days + 719468 - 146097 * c.era && InEra(c)
    && c.d == MonthAndDay(c.doy).d && c.m == MonthAndDay(c.doy).m
    && c.year == c.yoe + 400 * c.era + if c.m <= 2 then 1 else 0
  }

  lemma CivilHolds(days: int)
    requires days >= 0
    ensures IsCivil(CivilFromDays(days), days)
  {
    EraOfDays(days);
  }

  lemma MonthDayFits(doy: int, year: int)
    requires 0 <= doy <= 365 && (doy == 365 ==> IsLeap(year))
    ensures var md := MonthAndDay(doy);
      && 1 <= md.m <= 12 && 1 <= md.d <= MonthLen(year, md.m - 1) && (md.m <= 2 <==> doy >= 306)
      && DAYS_BEFORE_MONTH[md.m - 1] + md.d - 1 == doy + if md.m > 2 then 59 else -306
  {
    MonthOfDay(doy);
    var md := MonthAndDay(doy);
    assert MarchDays(md.mp) == DAYS_BEFORE_MONTH[md.m - 1] + if md.m > 2 then -59 else 306;
  }

  /** The month and the day of it, and the day count up to the first of January before. */
  lemma CivilMonth(c: Civil, days: int)
    requires days >= 0 && IsCivil(c, days)
    ensures 1 <= c.m <= 12 && 1 <= c.d <= MonthLen(c.year, c.m - 1) && c.year >= 1970
    ensures days == 365 * (c.year - 1970) + Leaps(c.year - if c.m > 2 then 0 else 1) - 477
                    + DAYS_BEFORE_MONTH[c.m - 1] + c.d - 1
  {
    var y := c.yoe + 400 * c.era;
    MarchYear(c, y);
    MonthDayFits(c.doy, y + 1);
    NotBeforeEpoch(y, c.doy);
    assert c.m > 2 ==> MonthLen(c.year, c.m - 1) == MonthLen(y + 1, c.m - 1);
  }

  lemma CivilIsDate(c: Civil, days: int)
    requires days >= 0 && IsCivil(c, days)
    ensures 1 <= c.m <= 12 && IsDate(days, c.year, c.m - 1, c.d, YearDay(c))
  {
    CivilMonth(c, days);
    DaysBeforeYearClosed(c.year);
    LeapsStep(c.year);
    MonthTable(c.year, c.m - 1);
  }

  lemma {:induction false} YearsApart(a: int, b: int)
    requires 1970 <= a < b
    ensures DaysBeforeYear(a) + YearLen(a) <= DaysBeforeYear(b)
    decreases b
  {
    if b > a + 1 {
      YearsApart(a, b - 1);
    }
  }

  lemma {:induction false} MonthsApart(year: int, a: int, b: int)
    requires 0 <= a < b <= 12
    ensures DaysBeforeMonth(year, a) + MonthLen(year, a) <= DaysBeforeMonth(year, b)
    decreases b
  {
    if b > a + 1 {
      MonthsApart(year, a, b - 1);
    }
  }

  lemma YearDayBounds(year: int, mon: int, mday: int)
    requires 0 <= mon < 12 && 1 <= mday <= MonthLen(year, mon)
    ensures 0 <= DaysBeforeMonth(year, mon) + mday - 1 < YearLen(year)
  {
    MonthTable(year, mon);
    MonthTable(year, 11);
  }

  /** A day has one date. */
  lemma DateUnique(days: int, year: int, mon: int, mday: int, yday: int, year': int, mon': int, mday': int, yday': int)
    requires IsDate(days, year, mon, mday, yday) && IsDate(days, year', mon', mday', yday')
    ensures year == year' && mon == mon' && mday == mday' && yday == yday'
  {
    YearDayBounds(year, mon, mday);
    YearDayBounds(year', mon', mday');
    if year < year' {
      YearsApart(year, year');
    } else if year' < year {
      YearsApart(year', year);
    }
    if mon < mon' {
      MonthsApart(year, mon, mon');
    } else if mon' < mon {
      MonthsApart(year, mon', mon);
    }
  }

  // ---------------------------------------------------------------- the results

  lemma {:induction false} WeekdayMod(days: nat)
    ensures Weekday(days) == (days + 4) % 7
  {
    if days > 0 {
      WeekdayMod(days - 1);
      NextWeekday(days + 3);
    }
  }

  lemma NextWeekday(n: int)
    ensures (n % 7 + 1) % 7 == (n + 1) % 7
  {}

  lemma YearBefore(days: int, year: int, mon: int, mday: int, yday: int, limit: int)
    requires IsDate(days, year, mon, mday, yday) && limit >= 1970
    ensures year < limit <==> days < DaysBeforeYear(limit)
  {
    YearDayBounds(year, mon, mday);
    if year < limit {
      YearsApart(year, limit);
    } else if year > limit {
      YearsApart(limit, year);
    }
  }

  lemma LimitDays()
    ensures DaysBeforeYear(YEAR_LIMIT) * 86400 == LIMIT
  {
    DaysBeforeYearClosed(YEAR_LIMIT);
  }

  lemma DaysOfLimit(ts: int, limit: int)
    ensures ts / 86400 < limit <==> ts < limit * 86400
  {}

  lemma FieldsOf(c: Civil, days: int, secs: int)
    requires days >= 0 && 0 <= secs < 86400 && 1 <= c.m <= 12 && IsDate(days, c.year, c.m - 1, c.d, YearDay(c))
    ensures var t := TmOf(c, days, secs);
      && t.mon == c.m - 1 && t.mday == c.d && t.yday == YearDay(c)
      && t.wday == Weekday(days)
      && 0 <= t.sec < 60 && 0 <= t.min < 60 && 0 <= t.hour < 24
      && t.hour * 3600 + t.min * 60 + t.sec == secs
      && t.year == ToInt(c.year - 1900)
  {
    YearDayBounds(c.year, c.m - 1, c.d);
    WeekdayMod(days);
    TimeOfDay(secs);
  }

  /** The fields are a Gregorian date and a time of day that make up ts; only the year is
      narrowed, and keeps its value exactly below LIMIT. */
  lemma FieldsAreDate(ts: int)
    requires 0 <= ts < U64
    ensures var t, year := TimestampToTm(ts), CivilFromDays(ts / 86400).year;
      && IsDate(ts / 86400, year, t.mon, t.mday, t.yday)
      && t.wday == Weekday(ts / 86400)
      && 0 <= t.sec < 60 && 0 <= t.min < 60 && 0 <= t.hour < 24
      && t.hour * 3600 + t.min * 60 + t.sec == ts % 86400
      && t.year == ToInt(year - 1900)
      && (t.year == year - 1900 <==> ts < LIMIT) && t.isdst == 0
  {
    var days := ts / 86400;
    var c := CivilFromDays(days);
    CivilHolds(days);
    FieldsAreDateOf(c, ts);
  }

  lemma FieldsAreDateOf(c: Civil, ts: int)
    requires 0 <= ts < U64 && IsCivil(c, ts / 86400)
    ensures 1 <= c.m <= 12
    ensures var t := TmOf(c, ts / 86400, ts % 86400);
      && IsDate(ts / 86400, c.year, t.mon, t.mday, t.yday)
      && t.wday == Weekday(ts / 86400)
      && 0 <= t.sec < 60 && 0 <= t.min < 60 && 0 <= t.hour < 24
      && t.hour * 3600 + t.min * 60 + t.sec == ts % 86400
      && t.year == ToInt(c.year - 1900)
      && (t.year == c.year - 1900 <==> ts < LIMIT)
  {
    var days := ts / 86400;
    CivilIsDate(c, days);
    FieldsOf(c, days, ts % 86400);
    YearBefore(days, c.year, c.m - 1, c.d, YearDay(c), YEAR_LIMIT);
    LimitDays();
    DaysOfLimit(ts, DaysBeforeYear(YEAR_LIMIT));
  }

  lemma TimeOfDay(s: int)
    requires 0 <= s < 86400
    ensures s / 3600 * 3600 + s / 60 % 60 * 60 + s % 60 == s && 0 <= s / 3600 < 24
  {
    DivDiv(s, 60, 60);
  }

  lemma DateInRange(days: int, year: int, mon: int, mday: int, yday: int, secs: int)
    requires IsDate(days, year, mon, mday, yday) && year < YEAR_LIMIT && 0 <= secs < 86400
    ensures days >= 0 && 0 <= days * 86400 + secs < LIMIT
    ensures (days * 86400 + secs) / 86400 == days && (days * 86400 + secs) % 86400 == secs
  {
    YearBefore(days, year, mon, mday, yday, YEAR_LIMIT);
    YearDayBounds(year, mon, mday);
    LimitDays();
    DivModUnique(days * 86400 + secs, 86400, days, secs);
  }

  /** Every date and time of day up to the last year tm_year can hold is the result for some
      timestamp, the one its day and second make up. */
  lemma EveryDateIsReached(days: int, year: int, mon: int, mday: int, yday: int, secs: int)
    requires IsDate(days, year, mon, mday, yday) && year < YEAR_LIMIT && 0 <= secs < 86400
    ensures 0 <= days * 86400 + secs < LIMIT
    ensures var t := TimestampToTm(days * 86400 + secs);
      && t.year == year - 1900 && t.mon == mon && t.mday == mday && t.yday == yday
      && t.hour * 3600 + t.min * 60 + t.sec == secs
  {
    DateInRange(days, year, mon, mday, yday, secs);
    DateReached(days * 86400 + secs, days, secs, year, mon, mday, yday);
  }

  lemma DateReached(ts: int, days: int, secs: int, year: int, mon: int, mday: int, yday: int)
    requires 0 <= ts < LIMIT && ts / 86400 == days && ts % 86400 == secs && IsDate(days, year, mon, mday, yday)
    ensures var t := TimestampToTm(ts);
      && t.year == year - 1900 && t.mon == mon && t.mday == mday && t.yday == yday
      && t.hour * 3600 + t.min * 60 + t.sec == secs
  {
    FieldsAreDate(ts);
    SameDate(TimestampToTm(ts), CivilFromDays(days).year, days, year, mon, mday, yday);
  }

  lemma SameDate(t: Tm, y: int, days: int, year: int, mon: int, mday: int, yday: int)
    requires IsDate(days, y, t.mon, t.mday, t.yday) && IsDate(days, year, mon, mday, yday)
    ensures y == year && t.mon == mon && t.mday == mday && t.yday == yday
  {
    DateUnique(days, year, mon, mday, yday, y, t.mon, t.mday, t.yday);
  }

  /** The formula's leap-day terms count the leap years from 1970. */
  lemma PosixLeaps(tmYear: int)
    requires tmYear >= 70
    ensures Quotient(tmYear - 69, 4) - Quotient(tmYear - 1, 100) + Quotient(tmYear + 299, 400) ==
            Leaps(tmYear + 1899) - 477
  {
    DivModUnique(tmYear + 1899, 4, (tmYear - 69) / 4 + 492, (tmYear - 69) % 4);
    DivModUnique(tmYear + 1899, 100, (tmYear - 1) / 100 + 19, (tmYear - 1) % 100);
    DivModUnique(tmYear + 1899, 400, (tmYear + 299) / 400 + 4, (tmYear + 299) % 400);
  }

  /** The formula is increasing, so that a year 2^32 and more too small gives too little. */
  lemma PosixLess(t: Tm, year: int)
    requires t.year <= year - U32
    ensures PosixSeconds(t) < PosixSeconds(t.(year := year))
  {
    QuotientGrows(t.year - 69, year - 69, 4);
    QuotientGrows(t.year - 1, year - 1, 100);
    QuotientGrows(t.year + 299, year + 299, 400);
  }

  lemma QuotientGrows(a: int, b: int, n: int)
    requires a <= b && (n == 4 || n == 100 || n == 400)
    ensures Quotient(a, n) <= Quotient(b, n) <= Quotient(a, n) + (b - a) / n + 1
  {}

  lemma PosixOfDate(t: Tm, year: int, ts: int)
    requires IsDate(ts / 86400, year, t.mon, t.mday, t.yday)
    requires t.hour * 3600 + t.min * 60 + t.sec == ts % 86400
    requires t.year == year - 1900 || t.year <= year - 1900 - U32
    ensures PosixSeconds(t) == ts <==> t.year == year - 1900
  {
    DaysBeforeYearClosed(year);
    PosixLeaps(year - 1900);
    assert PosixSeconds(t.(year := year - 1900)) == ts;
    if t.year == year - 1900 {
      assert t.(year := year - 1900) == t;
    } else {
      PosixLess(t, year - 1900);
    }
  }

  /** The Seconds Since the Epoch of the result are ts exactly when the year fits tm_year. */
  lemma PosixInverseIff(ts: int)
    requires 0 <= ts < U64
    ensures PosixSeconds(TimestampToTm(ts)) == ts <==> ts < LIMIT
  {
    FieldsAreDate(ts);
    var t, year := TimestampToTm(ts), CivilFromDays(ts / 86400).year;
    NarrowedYear(year - 1900);
    PosixOfDate(t, year, ts);
  }

  lemma NarrowedYear(y: int)
    requires y >= 70
    ensures ToInt(y) == y || ToInt(y) <= y - U32
  {}
}

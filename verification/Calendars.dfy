/** Civil dates from day numbers, checked against the Gregorian calendar itself: the leap rule and the
    successor of a date as in Appendix C of RFC 3339. */
module Calendars {
  import opened Arithmetic

  datatype Date = Date(year: int, month: int, day: int)

  // ---------------------------------------------------------------------------
  // The Gregorian calendar
  // ---------------------------------------------------------------------------

  predicate Leap(year: int) {
    year % 4 == 0 && (year % 100 != 0 || year % 400 == 0)
  }

  function DaysInMonth(year: int, month: int): int {
    if month == 2 then if Leap(year) then 29 else 28
    else if month == 4 || month == 6 || month == 9 || month == 11 then 30
    else 31
  }

  predicate IsDate(d: Date) {
    1 <= d.month <= 12 && 1 <= d.day <= DaysInMonth(d.year, d.month)
  }

  function Tomorrow(d: Date): Date {
    if d.day < DaysInMonth(d.year, d.month) then d.(day := d.day + 1)
    else if d.month < 12 then Date(d.year, d.month + 1, 1)
    else Date(d.year + 1, 1, 1)
  }

  // ---------------------------------------------------------------------------
  // The code's arithmetic
  // ---------------------------------------------------------------------------

  /** Division that truncates toward zero. */
  function TruncDiv(a: int, b: int): int
    requires b > 0
  {
    if a >= 0 then a / b else -((-a) / b)
  }

  const ERA_DAYS: int := 146_097

  function YearOfEra(doe: int): int {
    TruncDiv(doe - TruncDiv(doe, 1460) + TruncDiv(doe, 36524) - TruncDiv(doe, 146_096), 365)
  }

  /** The date `doy` days into the March-based year `y`. */
  function DateInYear(y: int, doy: int): Date {
    var mp := TruncDiv(5 * doy + 2, 153);
    var d := doy - TruncDiv(153 * mp + 2, 5) + 1;
    var m := if mp < 10 then mp + 3 else mp - 9;
    Date(if m <= 2 then y + 1 else y, m, d)
  }

  function CivilFromDays(days: int): Date {
    var z := days + 719_468;
    var era := TruncDiv(if z >= 0 then z else z - 146_096, ERA_DAYS);
    var doe := z - era * ERA_DAYS;
    var yoe := YearOfEra(doe);
    var doy := doe - (365 * yoe + TruncDiv(yoe, 4) - TruncDiv(yoe, 100));
    DateInYear(yoe + era * 400, doy)
  }

  // ---------------------------------------------------------------------------
  // Day numbers split into era, March-based year and day of year
  // ---------------------------------------------------------------------------

  function YearStart(yoe: int): int {
    365 * yoe + yoe / 4 - yoe / 100
  }

  /** A March-based year is long when the February it ends with is. */
  function YearDays(yoe: int): int {
    if Leap(yoe + 1) then 366 else 365
  }

  ghost predicate Splits(z: int, era: int, yoe: int, doy: int) {
    && 0 <= yoe < 400
    && 0 <= doy < YearDays(yoe)
    && z == era * ERA_DAYS + YearStart(yoe) + doy
  }

  /** Where a year starts and ends within its era, in terms of century, four-year cycle and year. */
  lemma {:induction false} YearInCycle(c: int, q: int, r: int)
    requires 0 <= c < 4 && 0 <= q < 25 && 0 <= r < 4
    ensures YearStart(100 * c + 4 * q + r) == 36524 * c + 1461 * q + 365 * r
    ensures YearDays(100 * c + 4 * q + r) == if r == 3 && (q < 24 || c == 3) then 366 else 365
  {
    var y := 100 * c + 4 * q + r;
    assert y / 4 == 25 * c + q;
    assert y / 100 == c;
    assert (y + 1) % 4 == (r + 1) % 4;
    if r == 3 {
      if q < 24 {
        assert (y + 1) % 100 == 4 * q + 4;
      } else {
        assert y + 1 == 100 * (c + 1);
      }
    }
  }

  lemma {:induction false} Cycles(yoe: int) returns (c: int, q: int, r: int)
    requires 0 <= yoe < 400
    ensures 0 <= c < 4 && 0 <= q < 25 && 0 <= r < 4 && yoe == 100 * c + 4 * q + r
  {
    c, q, r := yoe / 100, yoe % 100 / 4, yoe % 4;
    assert yoe % 100 % 4 == yoe % 4;
  }

  lemma Quotient(n: int, d: int, q: int)
    requires d > 0 && q * d <= n < q * d + d
    ensures n / d == q
  {
    EuclidUnique(n, d, q, n - q * d);
  }

  /** The year formula gives back the year of any day of it. */
  lemma {:induction false} YearFormula(c: int, q: int, r: int, doy: int)
    requires 0 <= c < 4 && 0 <= q < 25 && 0 <= r < 4
    requires 0 <= doy < if r == 3 && (q < 24 || c == 3) then 366 else 365
    ensures YearOfEra(36524 * c + 1461 * q + 365 * r + doy) == 100 * c + 4 * q + r
  {
    var doe := 36524 * c + 1461 * q + 365 * r + doy;
    var late := 24 * c + q + 365 * r + doy >= 1460;
    assert doe == 1460 * (25 * c + q) + (24 * c + q + 365 * r + doy);
    Quotient(doe, 1460, 25 * c + q + if late then 1 else 0);
    var last := doe == 146_096;
    Quotient(doe, 36524, if last then 4 else c);
    Quotient(doe, 146_096, if last then 1 else 0);
    var y := 100 * c + 4 * q + r;
    assert 36500 * c + 1460 * q + 365 * r == 365 * y;
    Quotient(365 * y + doy - (if late then 1 else 0), 365, y);
  }

  lemma {:induction false} EraFormula(z: int, era: int, doe: int)
    requires z == era * ERA_DAYS + doe && 0 <= doe < ERA_DAYS
    ensures TruncDiv(if z >= 0 then z else z - 146_096, ERA_DAYS) == era
  {
    if z >= 0 {
      Quotient(z, ERA_DAYS, era);
    } else {
      Quotient(146_096 - z, ERA_DAYS, -era);
    }
  }

  lemma {:induction false} YearBounds(yoe: int, doy: int)
    requires 0 <= yoe < 400 && 0 <= doy < YearDays(yoe)
    ensures 0 <= YearStart(yoe) + doy < ERA_DAYS
    ensures YearOfEra(YearStart(yoe) + doy) == yoe
  {
    var c, q, r := Cycles(yoe);
    YearInCycle(c, q, r);
    YearFormula(c, q, r, doy);
  }

  /** The code computes the date from any split of its day number. */
  lemma {:induction false} CivilOfSplit(days: int, era: int, yoe: int, doy: int)
    requires Splits(days + 719_468, era, yoe, doy)
    ensures CivilFromDays(days) == DateInYear(yoe + era * 400, doy)
  {
    hide YearOfEra, DateInYear;
    var doe := YearStart(yoe) + doy;
    YearBounds(yoe, doy);
    EraFormula(days + 719_468, era, doe);
  }

  /** Every day number splits. */
  lemma {:induction false} SplitExists(z: int) returns (era: int, yoe: int, doy: int)
    ensures Splits(z, era, yoe, doy)
  {
    era := z / ERA_DAYS;
    var doe := z % ERA_DAYS;
    var c := if doe / 36524 < 3 then doe / 36524 else 3;
    var inCentury := doe - 36524 * c;
    var q := inCentury / 1461;
    var inCycle := inCentury - 1461 * q;
    var r := if inCycle / 365 < 3 then inCycle / 365 else 3;
    assert 0 <= inCentury <= 36524 && 0 <= q < 25 && 0 <= inCycle < 1461;
    YearInCycle(c, q, r);
    yoe := 100 * c + 4 * q + r;
    doy := inCycle - 365 * r;
  }

  // ---------------------------------------------------------------------------
  // The next day
  // ---------------------------------------------------------------------------

  lemma {:induction false} NextYear(yoe: int)
    requires 0 <= yoe < 400
    ensures YearStart(yoe) + YearDays(yoe) == if yoe < 399 then YearStart(yoe + 1) else ERA_DAYS
  {
    var c, q, r := Cycles(yoe);
    YearInCycle(c, q, r);
    if yoe < 399 {
      if r < 3 {
        YearInCycle(c, q, r + 1);
      } else if q < 24 {
        YearInCycle(c, q + 1, 0);
      } else {
        YearInCycle(c + 1, 0, 0);
      }
    }
  }

  lemma LeapIsPeriodic(year: int, era: int)
    ensures Leap(year + era * 400) <==> Leap(year)
  {
    ModPlus(year, 100 * era, 4);
    ModPlus(year, 4 * era, 100);
    ModPlus(year, era, 400);
  }

  /** Month starts within a March-based year. */
  function MonthStart(mp: int): int {
    (153 * mp + 2) / 5
  }

  lemma {:induction false} MonthOf(doy: int) returns (mp: int)
    requires 0 <= doy < 366
    ensures 0 <= mp < 12 && TruncDiv(5 * doy + 2, 153) == mp
    ensures MonthStart(mp) <= doy && (mp < 11 ==> doy < MonthStart(mp + 1))
  {
    mp := (5 * doy + 2) / 153;
  }

  lemma {:induction false} MonthIs(doy: int, mp: int)
    requires 0 <= doy < 366 && 0 <= mp < 12
    requires MonthStart(mp) <= doy && (mp < 11 ==> doy < MonthStart(mp + 1))
    ensures TruncDiv(5 * doy + 2, 153) == mp
  {
    Quotient(5 * doy + 2, 153, mp);
  }

  function MonthOfIndex(mp: int): int {
    if mp < 10 then mp + 3 else mp - 9
  }

  /** Months have the lengths the calendar gives them. */
  lemma {:induction false} MonthLengths(mp: int, y: int)
    requires 0 <= mp < 11
    ensures MonthStart(mp + 1) - MonthStart(mp) == DaysInMonth(if mp < 10 then y else y + 1, MonthOfIndex(mp))
  {
    if mp < 3 {
    } else if mp < 6 {
    } else if mp < 9 {
    } else {
    }
  }

  /** Within a year, the next day of year is the next date. */
  lemma {:induction false} NextInYear(y: int, doy: int)
    requires 0 <= doy && doy + 1 < if Leap(y + 1) then 366 else 365
    ensures DateInYear(y, doy + 1) == Tomorrow(DateInYear(y, doy))
    ensures IsDate(DateInYear(y, doy))
  {
    var mp := MonthOf(doy);
    if mp < 11 {
      MonthLengths(mp, y);
      if doy + 1 < MonthStart(mp + 1) {
        MonthIs(doy + 1, mp);
      } else {
        assert mp + 1 < 11 ==> MonthStart(mp + 2) - MonthStart(mp + 1) >= 28;
        MonthIs(doy + 1, mp + 1);
      }
    } else {
      assert MonthStart(11) == 337;
      MonthIs(doy + 1, 11);
    }
  }

  /** The last day of a March-based year is the last of February, and the next is the first of March. */
  lemma {:induction false} NextYearDate(y: int)
    ensures var last := DateInYear(y, if Leap(y + 1) then 365 else 364);
            && last == Date(y + 1, 2, DaysInMonth(y + 1, 2))
            && DateInYear(y + 1, 0) == Date(y + 1, 3, 1) == Tomorrow(last)
  {
  }

  /** For every day number, the next one is the next date of the Gregorian calendar. */
  lemma {:induction false} CivilIsGregorian(days: int)
    ensures CivilFromDays(days + 1) == Tomorrow(CivilFromDays(days))
    ensures IsDate(CivilFromDays(days))
  {
    hide DateInYear, Tomorrow, CivilFromDays, IsDate;
    var era, yoe, doy := SplitExists(days + 719_468);
    var y := yoe + era * 400;
    CivilOfSplit(days, era, yoe, doy);
    LeapIsPeriodic(yoe + 1, era);
    if doy + 1 < YearDays(yoe) {
      CivilOfSplit(days + 1, era, yoe, doy + 1);
      NextInYear(y, doy);
    } else {
      NextYear(yoe);
      NextYearDate(y);
      LastOfFebruary(y + 1);
      if yoe < 399 {
        ShortestYear(yoe + 1);
        CivilOfSplit(days + 1, era, yoe + 1, 0);
      } else {
        ShortestYear(0);
        CivilOfSplit(days + 1, era + 1, 0, 0);
      }
    }
  }

  lemma ShortestYear(yoe: int)
    ensures YearDays(yoe) > 0 && YearStart(0) == 0
  {
  }

  lemma LastOfFebruary(year: int)
    ensures IsDate(Date(year, 2, DaysInMonth(year, 2)))
  {
  }

  lemma {:induction false} EpochIsDayZero()
    ensures CivilFromDays(0) == Date(1970, 1, 1)
  {
  }

  // ---------------------------------------------------------------------------
  // Stamps
  // ---------------------------------------------------------------------------

  datatype Stamp = Stamp(date: Date, hour: nat, minute: nat, second: nat)

  function UtcStamp(secs: nat): Stamp {
    Stamp(CivilFromDays(secs / 86_400), secs % 86_400 / 3600, secs % 3600 / 60, secs % 60)
  }

  ghost predicate Earlier(a: Date, b: Date) {
    a.year < b.year || (a.year == b.year && (a.month < b.month || (a.month == b.month && a.day < b.day)))
  }

  ghost predicate EarlierStamp(a: Stamp, b: Stamp) {
    || Earlier(a.date, b.date)
    || (a.date == b.date && (a.hour < b.hour || (a.hour == b.hour
                             && (a.minute < b.minute || (a.minute == b.minute && a.second < b.second)))))
  }

  lemma {:induction false} DatesIncrease(a: int, b: int)
    requires a < b
    ensures Earlier(CivilFromDays(a), CivilFromDays(b))
    decreases b - a
  {
    hide CivilFromDays;
    CivilIsGregorian(b - 1);
    if a < b - 1 {
      DatesIncrease(a, b - 1);
    }
  }

  /** Later seconds give later stamps, over all times. */
  lemma {:induction false} StampsIncrease(a: nat, b: nat)
    requires a < b
    ensures EarlierStamp(UtcStamp(a), UtcStamp(b))
  {
    hide CivilFromDays;
    if a / 86_400 < b / 86_400 {
      DatesIncrease(a / 86_400, b / 86_400);
    } else {
      var s, t := a % 86_400, b % 86_400;
      assert s < t;
      TimeOfDay(a);
      TimeOfDay(b);
    }
  }

  lemma {:induction false} TimeOfDay(secs: nat)
    ensures var t := UtcStamp(secs);
            && secs % 86_400 == 3600 * t.hour + 60 * t.minute + t.second
            && t.minute < 60 && t.second < 60
  {
    var day, s := secs / 86_400, secs % 86_400;
    EuclidUnique(secs, 3600, 24 * day + s / 3600, s % 3600);
    EuclidUnique(secs, 60, 60 * (secs / 3600) + secs % 3600 / 60, secs % 3600 % 60);
  }
}

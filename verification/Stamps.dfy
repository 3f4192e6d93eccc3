/** The text of a stamp, `YYYY-MM-DD_HH-MM-SS`, and how far it sorts in time order. */
module Stamps {
  import opened Calendars

  function DigitChar(d: nat): char
    requires d < 10
  {
    '0' + d as char
  }

  /** Decimal digits, zero-padded on the left to at least `width`; a wider number keeps its digits. */
  function Padded(n: nat, width: nat): string
    decreases n + width
  {
    if n < 10 && width <= 1 then [DigitChar(n)]
    else Padded(n / 10, if width > 0 then width - 1 else 0) + [DigitChar(n % 10)]
  }

  function Field(n: nat, width: nat, separator: char, rest: string): string {
    Padded(n, width) + [separator] + rest
  }

  function Clock(t: Stamp): string {
    Field(t.hour, 2, '-', Field(t.minute, 2, '-', Padded(t.second, 2)))
  }

  /** `utc_stamp`: the text of a stamp of a year that is not negative. */
  function Text(t: Stamp): string
    requires t.date.year >= 0 && t.date.month >= 0 && t.date.day >= 0
  {
    Field(t.date.year, 4, '-', Field(t.date.month, 2, '-', Field(t.date.day, 2, '_', Clock(t))))
  }

  /** The order of strings: the first character that differs decides, and a prefix comes first. */
  predicate TextBefore(a: string, b: string) {
    b != [] && (a == [] || a[0] < b[0] || (a[0] == b[0] && TextBefore(a[1..], b[1..])))
  }

  lemma {:induction false} BeforeExtends(a: string, b: string, x: string, y: string)
    requires |a| == |b| && TextBefore(a, b)
    ensures TextBefore(a + x, b + y)
  {
    assert (a + x)[1..] == a[1..] + x && (b + y)[1..] == b[1..] + y;
    if a[0] == b[0] {
      BeforeExtends(a[1..], b[1..], x, y);
    }
  }

  lemma {:induction false} BeforeAfterPrefix(a: string, x: string, y: string)
    requires TextBefore(x, y)
    ensures TextBefore(a + x, a + y)
  {
    if a == [] {
      assert a + x == x && a + y == y;
    } else {
      assert (a + x)[1..] == a[1..] + x && (a + y)[1..] == a[1..] + y;
      BeforeAfterPrefix(a[1..], x, y);
    }
  }

  function Power10(k: nat): nat {
    if k == 0 then 1 else 10 * Power10(k - 1)
  }

  lemma {:induction false} PaddedLength(n: nat, width: nat)
    requires width > 0 && n < Power10(width)
    ensures |Padded(n, width)| == width
    decreases n + width
  {
    if width > 1 {
      PaddedLength(n / 10, width - 1);
    }
  }

  /** Numbers that fit the width sort as text in their own order. */
  lemma {:induction false} PaddedSorts(n: nat, m: nat, width: nat)
    requires width > 0 && n < m < Power10(width)
    ensures TextBefore(Padded(n, width), Padded(m, width))
    decreases n + width
  {
    if width > 1 {
      PaddedLength(n / 10, width - 1);
      PaddedLength(m / 10, width - 1);
      if n / 10 < m / 10 {
        PaddedSorts(n / 10, m / 10, width - 1);
        BeforeExtends(Padded(n / 10, width - 1), Padded(m / 10, width - 1), [DigitChar(n % 10)], [DigitChar(m % 10)]);
      } else {
        BeforeAfterPrefix(Padded(n / 10, width - 1), [DigitChar(n % 10)], [DigitChar(m % 10)]);
      }
    }
  }

  lemma {:induction false} FieldSorts(n: nat, m: nat, width: nat, separator: char, x: string, y: string)
    requires width > 0 && n < Power10(width) && m < Power10(width)
    requires n < m || (n == m && TextBefore(x, y))
    ensures TextBefore(Field(n, width, separator, x), Field(m, width, separator, y))
  {
    assert Field(n, width, separator, x) == Padded(n, width) + ([separator] + x);
    assert Field(m, width, separator, y) == Padded(m, width) + ([separator] + y);
    if n < m {
      PaddedLength(n, width);
      PaddedLength(m, width);
      PaddedSorts(n, m, width);
      BeforeExtends(Padded(n, width), Padded(m, width), [separator] + x, [separator] + y);
    } else {
      BeforeAfterPrefix(Padded(n, width) + [separator], x, y);
    }
  }

  lemma Powers()
    ensures Power10(2) == 100 && Power10(4) == 10_000
  {
    assert Power10(1) == 10 && Power10(3) == 1000;
  }

  ghost predicate FourDigits(t: Stamp) {
    0 <= t.date.year < 10_000 && IsDate(t.date) && t.hour < 24 && t.minute < 60 && t.second < 60
  }

  lemma {:induction false} ClockSorts(s: Stamp, t: Stamp)
    requires FourDigits(s) && FourDigits(t) && s.date == t.date && EarlierStamp(s, t)
    ensures TextBefore(Clock(s), Clock(t))
  {
    hide Field, Padded, TextBefore, Power10;
    Powers();
    if s.hour == t.hour {
      if s.minute == t.minute {
        PaddedSorts(s.second, t.second, 2);
      }
      FieldSorts(s.minute, t.minute, 2, '-', Padded(s.second, 2), Padded(t.second, 2));
    }
    FieldSorts(s.hour, t.hour, 2, '-', Field(s.minute, 2, '-', Padded(s.second, 2)), Field(t.minute, 2, '-', Padded(t.second, 2)));
  }

  /** Within four-digit years the text sorts as the stamps do. */
  lemma {:induction false} TextSorts(s: Stamp, t: Stamp)
    requires FourDigits(s) && FourDigits(t) && EarlierStamp(s, t)
    ensures TextBefore(Text(s), Text(t))
  {
    hide Field, Clock, TextBefore, Power10;
    Powers();
    var a, b := s.date, t.date;
    var dayA, dayB := Field(a.day, 2, '_', Clock(s)), Field(b.day, 2, '_', Clock(t));
    if a.year == b.year {
      if a.month == b.month {
        if a.day == b.day {
          ClockSorts(s, t);
        }
        FieldSorts(a.day, b.day, 2, '_', Clock(s), Clock(t));
      }
      FieldSorts(a.month, b.month, 2, '-', dayA, dayB);
    }
    FieldSorts(a.year, b.year, 4, '-', Field(a.month, 2, '-', dayA), Field(b.month, 2, '-', dayB));
  }

  /** The two digits of a number below a hundred. */
  ghost function Two(n: nat): string
    requires n < 100
  {
    ['0' + (n / 10) as char, '0' + (n % 10) as char]
  }

  lemma {:induction false} PaddedTwo(n: nat)
    requires n < 100
    ensures Padded(n, 2) == Two(n)
  {
    assert Padded(n / 10, 1) == [DigitChar(n / 10)];
  }

  lemma {:induction false} PaddedFour(n: nat)
    requires n < 10_000
    ensures Padded(n, 4) == Two(n / 100) + Two(n % 100)
  {
    PaddedTwo(n / 100);
    assert Padded(n, 4) == Padded(n / 10, 3) + [DigitChar(n % 10)];
    assert Padded(n / 10, 3) == Padded(n / 10 / 10, 2) + [DigitChar(n / 10 % 10)];
    assert n / 10 / 10 == n / 100 && n / 10 % 10 == n % 100 / 10 && n % 10 == n % 100 % 10;
  }

  /** The text of a stamp of a four-digit year, character by character. */
  lemma {:induction false} TextIsLaidOut(t: Stamp)
    requires FourDigits(t)
    ensures |Text(t)| == 19
    ensures Text(t) == Two(t.date.year / 100) + Two(t.date.year % 100) + "-" + Two(t.date.month) + "-" + Two(t.date.day)
                       + "_" + Two(t.hour) + "-" + Two(t.minute) + "-" + Two(t.second)
  {
    hide Padded;
    PaddedFour(t.date.year);
    PaddedTwo(t.date.month);
    PaddedTwo(t.date.day);
    PaddedTwo(t.hour);
    PaddedTwo(t.minute);
    PaddedTwo(t.second);
  }

  // ---------------------------------------------------------------------------
  // Seconds
  // ---------------------------------------------------------------------------

  /** The first second of the year 10000. */
  const YEAR_10000: nat := 253_402_300_800

  lemma {:induction false} YearsFrom1970(secs: nat)
    ensures UtcStamp(secs).date.year >= 1970 && IsDate(UtcStamp(secs).date)
  {
    hide CivilFromDays;
    EpochIsDayZero();
    CivilIsGregorian(secs / 86_400);
    if secs / 86_400 > 0 {
      DatesIncrease(0, secs / 86_400);
    }
  }

  function UtcText(secs: nat): string {
    YearsFrom1970(secs);
    Text(UtcStamp(secs))
  }

  lemma {:induction false} BeforeYear10000(secs: nat)
    requires secs < YEAR_10000
    ensures FourDigits(UtcStamp(secs))
  {
    TurnOfYear10000();
    hide CivilFromDays;
    YearsFrom1970(secs);
    TimeOfDay(secs);
    CivilIsGregorian(secs / 86_400);
    DatesIncrease(secs / 86_400, 2_932_897);
  }

  lemma TurnOfYear10000()
    ensures CivilFromDays(2_932_896) == Date(9999, 12, 31) && CivilFromDays(2_932_897) == Date(10_000, 1, 1)
  {
  }

  lemma {:induction false} PaddedHead(n: nat, width: nat)
    requires n >= 10 && width > 0
    ensures Padded(n, width) != [] && Padded(n / 10, width - 1) != []
    ensures Padded(n, width)[0] == Padded(n / 10, width - 1)[0]
  {
  }

  lemma {:induction false} YearHeads()
    ensures Padded(9999, 4) != [] && Padded(9999, 4)[0] == '9'
    ensures Padded(10_000, 4) != [] && Padded(10_000, 4)[0] == '1'
  {
    PaddedHead(9999, 4);
    PaddedHead(999, 3);
    PaddedHead(99, 2);
    PaddedHead(10_000, 4);
    PaddedHead(1000, 3);
    PaddedHead(100, 2);
    PaddedHead(10, 1);
  }

  lemma {:induction false} TextHead(t: Stamp, n: nat)
    requires t.date.year == n && t.date.month >= 0 && t.date.day >= 0 && Padded(n, 4) != []
    ensures Text(t) != [] && Text(t)[0] == Padded(n, 4)[0]
  {
    hide Padded, Clock;
  }

  lemma {:induction false} FirstDigits()
    ensures UtcText(YEAR_10000 - 1) != [] && UtcText(YEAR_10000 - 1)[0] == '9'
    ensures UtcText(YEAR_10000) != [] && UtcText(YEAR_10000)[0] == '1'
  {
    TurnOfYear10000();
    YearHeads();
    hide CivilFromDays, Padded, Text;
    TextHead(UtcStamp(YEAR_10000 - 1), 9999);
    TextHead(UtcStamp(YEAR_10000), 10_000);
  }

  /** File names made of stamps sort in time order exactly as long as years have four digits: the first
      pair out of order is the last second of 9999 and the first of 10000. */
  lemma {:induction false} TextSortsUntilYear10000(last: nat)
    ensures (forall a: nat, b: nat :: a < b <= last ==> TextBefore(UtcText(a), UtcText(b))) <==> last < YEAR_10000
  {
    if last < YEAR_10000 {
      forall a: nat, b: nat | a < b <= last
        ensures TextBefore(UtcText(a), UtcText(b))
      {
        BeforeYear10000(a);
        BeforeYear10000(b);
        StampsIncrease(a, b);
        TextSorts(UtcStamp(a), UtcStamp(b));
      }
    } else {
      FirstDigits();
      assert !TextBefore(UtcText(YEAR_10000 - 1), UtcText(YEAR_10000));
    }
  }
}

/** Timestamps as pandas produces them from a session's `createdAt`, the `strftime` labels
    the trend buckets use, and the whole-day difference of `datetime` subtraction. */
module Calendar {
  import Strings

  const SecondsPerDay := 86400

  /** A naive timestamp at whole-second resolution. */
  datatype Timestamp = Timestamp(year: int, month: int, day: int, secondOfDay: int)

  function IsLeapYear(y: int): bool
  {
    y % 4 == 0 && (y % 100 != 0 || y % 400 == 0)
  }

  function DaysInMonth(y: int, m: int): int
    requires 1 <= m <= 12
  {
    if m == 2 then (if IsLeapYear(y) then 29 else 28)
    else if m == 4 || m == 6 || m == 9 || m == 11 then 30
    else 31
  }

  /** A real calendar date with a four-digit year (every pandas timestamp has one). */
  predicate WellFormed(ts: Timestamp)
  {
    && 1000 <= ts.year <= 9999
    && 1 <= ts.month <= 12
    && 1 <= ts.day <= DaysInMonth(ts.year, ts.month)
    && 0 <= ts.secondOfDay < SecondsPerDay
  }

  type Instant = ts: Timestamp | WellFormed(ts) witness Timestamp(2000, 1, 1, 0)

  function DaysBeforeMonth(y: int, m: int): int
    requires 1 <= m <= 12
    decreases m
  {
    if m == 1 then 0 else DaysBeforeMonth(y, m - 1) + DaysInMonth(y, m - 1)
  }

  /** The proleptic Gregorian day number, as `date.toordinal()` (0001-01-01 is day 1). */
  function DayNumber(ts: Instant): int
  {
    var p := ts.year - 1;
    365 * p + p / 4 - p / 100 + p / 400 + DaysBeforeMonth(ts.year, ts.month) + ts.day
  }

  function Seconds(ts: Instant): int
  {
    DayNumber(ts) * SecondsPerDay + ts.secondOfDay
  }

  /** `(now - t).days`: the difference rounded down to whole days, negative for a future `t`. */
  function WholeDaysBetween(now: Instant, t: Instant): int
  {
    (Seconds(now) - Seconds(t)) / SecondsPerDay
  }

  /** The trailing-week test `(now - t).days <= 7`. */
  predicate InLastWeek(now: Instant, t: Instant)
  {
    WholeDaysBetween(now, t) <= 7
  }

  /** The week test admits exactly the timestamps less than eight full days before `now`,
      and every timestamp at or after `now`. */
  lemma InLastWeekIff(now: Instant, t: Instant)
    ensures InLastWeek(now, t) <==> Seconds(now) - Seconds(t) < 8 * SecondsPerDay
    ensures Seconds(t) >= Seconds(now) ==> InLastWeek(now, t)
  {
    var d := Seconds(now) - Seconds(t);
    var q := d / SecondsPerDay;
    assert q * SecondsPerDay <= d < q * SecondsPerDay + SecondsPerDay;
    if q <= 7 {
      assert q * SecondsPerDay <= 7 * SecondsPerDay;
    } else {
      assert q * SecondsPerDay >= 8 * SecondsPerDay;
    }
  }

  /** A timestamp seven days before `now`, at the same time of day, is in the week;
      one eight days before is not. */
  lemma WeekBoundary(now: Instant, t: Instant)
    requires t.secondOfDay == now.secondOfDay
    ensures DayNumber(t) == DayNumber(now) - 7 ==> InLastWeek(now, t)
    ensures DayNumber(t) == DayNumber(now) - 8 ==> !InLastWeek(now, t)
  {
    InLastWeekIff(now, t);
  }

  function Digit(n: int): char
    requires 0 <= n < 10
  {
    "0123456789"[n]
  }

  function Pow10(w: nat): nat
  {
    if w == 0 then 1 else 10 * Pow10(w - 1)
  }

  /** `n` in decimal, zero-padded to `w` digits, as `strftime`'s `%Y`, `%m` and `%d`. */
  function Digits(n: int, w: nat): (s: string)
    requires 0 <= n < Pow10(w)
    ensures |s| == w
  {
    if w == 0 then [] else Digits(n / 10, w - 1) + [Digit(n % 10)]
  }

  /** `strftime("%Y-%m")`. */
  function MonthLabel(t: Instant): (s: string)
    ensures |s| == 7
  {
    Digits(t.year, 4) + "-" + Digits(t.month, 2)
  }

  /** `strftime("%Y-%m-%d")`. */
  function DayLabel(t: Instant): (s: string)
    ensures |s| == 10
  {
    MonthLabel(t) + "-" + Digits(t.day, 2)
  }

  lemma DayLabelExtendsMonthLabel(t: Instant)
    ensures DayLabel(t)[..7] == MonthLabel(t)
  {
  }

  /** Comparing two strings made of equal-length heads compares the heads first. */
  lemma {:induction false} LessConcat(a: string, b: string, c: string, d: string)
    requires |a| == |c|
    ensures Strings.Less(a + b, c + d) <==> Strings.Less(a, c) || (a == c && Strings.Less(b, d))
  {
    if a != [] {
      assert (a + b)[0] == a[0] && (c + d)[0] == c[0];
      assert (a + b)[1..] == a[1..] + b && (c + d)[1..] == c[1..] + d;
      LessConcat(a[1..], b, c[1..], d);
      if a[0] == c[0] && a[1..] == c[1..] {
        assert a == [a[0]] + a[1..] && c == [c[0]] + c[1..];
      }
    } else {
      assert a + b == b && c + d == d;
    }
  }

  /** A number below `Pow10(w)` splits into its leading digits and its last digit, which
      order it lexicographically. */
  lemma DecimalSplit(n: int, m: int, w: nat)
    requires w > 0 && 0 <= n < Pow10(w) && 0 <= m < Pow10(w)
    ensures 0 <= n / 10 < Pow10(w - 1) && 0 <= m / 10 < Pow10(w - 1)
    ensures n < m <==> n / 10 < m / 10 || (n / 10 == m / 10 && n % 10 < m % 10)
    ensures n == m <==> n / 10 == m / 10 && n % 10 == m % 10
  {
  }

  /** One digit sorts as its value. */
  lemma DigitOrder(x: int, y: int)
    requires 0 <= x < 10 && 0 <= y < 10
    ensures Strings.Less([Digit(x)], [Digit(y)]) <==> x < y
    ensures Digit(x) == Digit(y) <==> x == y
  {
    assert [Digit(x)][1..] == [] && [Digit(y)][1..] == [];
  }

  /** Zero-padded decimals of one width sort as the numbers they spell. */
  lemma {:induction false} DigitsOrder(n: int, m: int, w: nat)
    requires 0 <= n < Pow10(w) && 0 <= m < Pow10(w)
    ensures Strings.Less(Digits(n, w), Digits(m, w)) <==> n < m
    ensures Digits(n, w) == Digits(m, w) <==> n == m
  {
    if w == 0 {
      Strings.LessIrreflexive([]);
    } else {
      DecimalSplit(n, m, w);
      var hn, hm := Digits(n / 10, w - 1), Digits(m / 10, w - 1);
      var ln, lm := [Digit(n % 10)], [Digit(m % 10)];
      DigitsOrder(n / 10, m / 10, w - 1);
      DigitOrder(n % 10, m % 10);
      LessConcat(hn, ln, hm, lm);
      assert Digits(n, w) == hn + ln && Digits(m, w) == hm + lm;
      if hn + ln == hm + lm {
        assert (hn + ln)[..w - 1] == hn && (hm + lm)[..w - 1] == hm;
        assert (hn + ln)[w - 1] == ln[0] && (hm + lm)[w - 1] == lm[0];
      }
    }
  }

  /** Ascending month labels are chronological months. */
  lemma MonthLabelOrder(s: Instant, t: Instant)
    ensures Strings.Less(MonthLabel(s), MonthLabel(t)) <==>
            s.year < t.year || (s.year == t.year && s.month < t.month)
    ensures MonthLabel(s) == MonthLabel(t) <==> s.year == t.year && s.month == t.month
  {
    DigitsOrder(s.year, t.year, 4);
    DigitsOrder(s.month, t.month, 2);
    LessConcat(Digits(s.year, 4), "-" + Digits(s.month, 2), Digits(t.year, 4), "-" + Digits(t.month, 2));
    assert MonthLabel(s) == Digits(s.year, 4) + ("-" + Digits(s.month, 2));
    assert MonthLabel(t) == Digits(t.year, 4) + ("-" + Digits(t.month, 2));
    LessConcat("-", Digits(s.month, 2), "-", Digits(t.month, 2));
    if MonthLabel(s) == MonthLabel(t) {
      assert MonthLabel(s)[..4] == Digits(s.year, 4) && MonthLabel(t)[..4] == Digits(t.year, 4);
      assert MonthLabel(s)[5..] == Digits(s.month, 2) && MonthLabel(t)[5..] == Digits(t.month, 2);
    }
  }

  /** Ascending day labels are chronological days. */
  lemma DayLabelOrder(s: Instant, t: Instant)
    ensures Strings.Less(DayLabel(s), DayLabel(t)) <==>
            s.year < t.year || (s.year == t.year && s.month < t.month) ||
            (s.year == t.year && s.month == t.month && s.day < t.day)
    ensures DayLabel(s) == DayLabel(t) <==> s.year == t.year && s.month == t.month && s.day == t.day
  {
    MonthLabelOrder(s, t);
    DigitsOrder(s.day, t.day, 2);
    LessConcat(MonthLabel(s), "-" + Digits(s.day, 2), MonthLabel(t), "-" + Digits(t.day, 2));
    assert DayLabel(s) == MonthLabel(s) + ("-" + Digits(s.day, 2));
    assert DayLabel(t) == MonthLabel(t) + ("-" + Digits(t.day, 2));
    LessConcat("-", Digits(s.day, 2), "-", Digits(t.day, 2));
    if DayLabel(s) == DayLabel(t) {
      assert DayLabel(s)[..7] == MonthLabel(s) && DayLabel(t)[..7] == MonthLabel(t);
      assert DayLabel(s)[8..] == Digits(s.day, 2) && DayLabel(t)[8..] == Digits(t.day, 2);
    }
  }
}

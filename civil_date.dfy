/**
 * Calendar dates as Python's `datetime` sees them: `strptime(s, '%Y%m%d')` and
 * the proleptic Gregorian day number of `date.toordinal()` (0001-01-01 is day 1).
 * The image filter compares and shifts dates by whole days only, so a parsed
 * date is represented by its day number.
 */
module CivilDate {
  import opened Wrappers
  import opened Text

  /** `datetime.MINYEAR`..`datetime.MAXYEAR` as day numbers. */
  const MinOrdinal: int := 1
  const MaxOrdinal: int := 3652059

  predicate IsLeap(y: int) {
    y % 4 == 0 && (y % 100 != 0 || y % 400 == 0)
  }

  function DaysInMonth(y: int, m: int): (n: int)
    requires 1 <= m <= 12
    ensures 28 <= n <= 31
  {
    if m == 2 then (if IsLeap(y) then 29 else 28)
    else if m == 4 || m == 6 || m == 9 || m == 11 then 30
    else 31
  }

  function DaysInYear(y: int): int {
    if IsLeap(y) then 366 else 365
  }

  /** Days in the years before `y` (Python's `_days_before_year`). */
  function DaysBeforeYear(y: int): int
    requires y >= 1
  {
    var p := y - 1;
    p * 365 + p / 4 - p / 100 + p / 400
  }

  /** Days in the year `y` before the first of month `m` (Python's `_days_before_month`). */
  function DaysBeforeMonth(y: int, m: int): int
    requires 1 <= m <= 12
  {
    var table := [0, 31, 59, 90, 120, 151, 181, 212, 243, 273, 304, 334];
    table[m - 1] + (if m > 2 && IsLeap(y) then 1 else 0)
  }

  predicate ValidDate(y: int, m: int, d: int) {
    1 <= y <= 9999 && 1 <= m <= 12 && 1 <= d <= DaysInMonth(y, m)
  }

  /** `date(y, m, d).toordinal()`. */
  function Ordinal(y: int, m: int, d: int): int
    requires ValidDate(y, m, d)
  {
    DaysBeforeYear(y) + DaysBeforeMonth(y, m) + d
  }

  /** Lexicographic order on (year, month, day): the order of `datetime`. */
  predicate Before(y1: int, m1: int, d1: int, y2: int, m2: int, d2: int) {
    y1 < y2 || (y1 == y2 && (m1 < m2 || (m1 == m2 && d1 < d2)))
  }

  lemma DaysBeforeYearStep(y: int)
    requires y >= 1
    ensures DaysBeforeYear(y + 1) == DaysBeforeYear(y) + DaysInYear(y)
  {
    QuarterStep(y);
    CenturyStep(y);
    FourCenturyStep(y);
  }

  // Counting multiples of 4, 100 and 400: one more up to `y` than up to
  // `y - 1` exactly when the number divides `y`.

  lemma QuarterStep(y: int)
    requires y >= 1
    ensures y / 4 == (y - 1) / 4 + (if y % 4 == 0 then 1 else 0)
  {
  }

  lemma CenturyStep(y: int)
    requires y >= 1
    ensures y / 100 == (y - 1) / 100 + (if y % 100 == 0 then 1 else 0)
    ensures y % 100 == 0 ==> y % 4 == 0
  {
    if y % 100 == 0 {
      var k := y / 100;
      assert y == 4 * (25 * k);
    }
  }

  lemma FourCenturyStep(y: int)
    requires y >= 1
    ensures y / 400 == (y - 1) / 400 + (if y % 400 == 0 then 1 else 0)
    ensures y % 400 == 0 ==> y % 100 == 0
  {
    if y % 400 == 0 {
      var k := y / 400;
      assert y == 100 * (4 * k);
    }
  }

  lemma {:induction false} DaysBeforeYearGrows(y1: int, y2: int)
    requires 1 <= y1 < y2
    ensures DaysBeforeYear(y1) + DaysInYear(y1) <= DaysBeforeYear(y2)
    decreases y2 - y1
  {
    DaysBeforeYearStep(y1);
    if y1 + 1 < y2 {
      DaysBeforeYearGrows(y1 + 1, y2);
    }
  }

  lemma DaysBeforeMonthStep(y: int, m: int)
    requires 1 <= m < 12
    ensures DaysBeforeMonth(y, m + 1) == DaysBeforeMonth(y, m) + DaysInMonth(y, m)
  {
  }

  lemma {:induction false} DaysBeforeMonthGrows(y: int, m1: int, m2: int)
    requires 1 <= m1 < m2 <= 12
    ensures DaysBeforeMonth(y, m1) + DaysInMonth(y, m1) <= DaysBeforeMonth(y, m2)
    decreases m2 - m1
  {
    DaysBeforeMonthStep(y, m1);
    if m1 + 1 < m2 {
      DaysBeforeMonthGrows(y, m1 + 1, m2);
    }
  }

  /** A date lies within its own year's block of day numbers. */
  lemma OrdinalWithinYear(y: int, m: int, d: int)
    requires ValidDate(y, m, d)
    ensures DaysBeforeYear(y) < Ordinal(y, m, d) <= DaysBeforeYear(y) + DaysInYear(y)
  {
    if m < 12 {
      DaysBeforeMonthGrows(y, m, 12);
    }
  }

  /** Day numbers are strictly increasing along the calendar. */
  lemma OrdinalIncreasing(y1: int, m1: int, d1: int, y2: int, m2: int, d2: int)
    requires ValidDate(y1, m1, d1) && ValidDate(y2, m2, d2)
    requires Before(y1, m1, d1, y2, m2, d2)
    ensures Ordinal(y1, m1, d1) < Ordinal(y2, m2, d2)
  {
    if y1 < y2 {
      OrdinalWithinYear(y1, m1, d1);
      OrdinalWithinYear(y2, m2, d2);
      DaysBeforeYearGrows(y1, y2);
    } else if m1 < m2 {
      DaysBeforeMonthGrows(y1, m1, m2);
    }
  }

  /**
   * Comparing day numbers is comparing dates: the filter's `>=` on `datetime`
   * values and its `==` on dates are the same relations on day numbers.
   */
  lemma OrdinalOrder(y1: int, m1: int, d1: int, y2: int, m2: int, d2: int)
    requires ValidDate(y1, m1, d1) && ValidDate(y2, m2, d2)
    ensures Ordinal(y1, m1, d1) < Ordinal(y2, m2, d2) <==> Before(y1, m1, d1, y2, m2, d2)
    ensures Ordinal(y1, m1, d1) == Ordinal(y2, m2, d2) <==> (y1 == y2 && m1 == m2 && d1 == d2)
  {
    if Before(y1, m1, d1, y2, m2, d2) {
      OrdinalIncreasing(y1, m1, d1, y2, m2, d2);
    } else if Before(y2, m2, d2, y1, m1, d1) {
      OrdinalIncreasing(y2, m2, d2, y1, m1, d1);
    }
  }

  lemma LastOrdinal()
    ensures ValidDate(9999, 12, 31) && Ordinal(9999, 12, 31) == MaxOrdinal
  {
    assert DaysBeforeYear(9999) == 3651694;
    assert DaysBeforeMonth(9999, 12) == 334;
  }

  /** Every valid date has a day number in `datetime`'s range. */
  lemma OrdinalInRange(y: int, m: int, d: int)
    requires ValidDate(y, m, d)
    ensures MinOrdinal <= Ordinal(y, m, d) <= MaxOrdinal
  {
    assert DaysBeforeYear(1) == 0;
    if y > 1 {
      DaysBeforeYearGrows(1, y);
    }
    LastOrdinal();
    if y != 9999 || m != 12 || d != 31 {
      assert Before(y, m, d, 9999, 12, 31);
      OrdinalIncreasing(y, m, d, 9999, 12, 31);
    }
  }

  predicate IsDigit(c: char) {
    '0' <= c <= '9'
  }

  function DigitValue(c: char): int
    requires IsDigit(c)
  {
    c as int - '0' as int
  }

  /**
   * The alternatives of strptime's `%m` pattern, `1[0-2]|0[1-9]|[1-9]`, that
   * match at the start of `s`, in the pattern's order, as (month, length).
   */
  function MonthAlternatives(s: string): (r: seq<(int, nat)>)
    ensures forall k :: 0 <= k < |r| ==> 1 <= r[k].0 <= 12 && 1 <= r[k].1 <= |s|
  {
    (if |s| >= 2 && s[0] == '1' && '0' <= s[1] <= '2' then [(10 + DigitValue(s[1]), 2)] else [])
    + (if |s| >= 2 && s[0] == '0' && '1' <= s[1] <= '9' then [(DigitValue(s[1]), 2)] else [])
    + (if |s| >= 1 && '1' <= s[0] <= '9' then [(DigitValue(s[0]), 1)] else [])
  }

  /** The same for `%d`, whose pattern is `3[01]|[12]\d|0[1-9]|[1-9]| [1-9]`. */
  function DayAlternatives(s: string): (r: seq<(int, nat)>)
    ensures forall k :: 0 <= k < |r| ==> 1 <= r[k].0 <= 31 && 1 <= r[k].1 <= |s|
  {
    (if |s| >= 2 && s[0] == '3' && '0' <= s[1] <= '1' then [(30 + DigitValue(s[1]), 2)] else [])
    + (if |s| >= 2 && '1' <= s[0] <= '2' && IsDigit(s[1]) then [(10 * DigitValue(s[0]) + DigitValue(s[1]), 2)] else [])
    + (if |s| >= 2 && s[0] == '0' && '1' <= s[1] <= '9' then [(DigitValue(s[1]), 2)] else [])
    + (if |s| >= 1 && '1' <= s[0] <= '9' then [(DigitValue(s[0]), 1)] else [])
    + (if |s| >= 2 && s[0] == ' ' && '1' <= s[1] <= '9' then [(DigitValue(s[1]), 2)] else [])
  }

  /**
   * The first match of `%m%d` at the start of `s` that a backtracking regex
   * engine finds: month, day and the number of characters consumed. The
   * pattern is not anchored at the end, so the first day alternative that
   * matches is taken even if characters remain.
   */
  function MatchMonthDay(s: string, months: seq<(int, nat)>): (r: Option<(int, int, nat)>)
    requires forall k :: 0 <= k < |months| ==> 1 <= months[k].0 <= 12 && months[k].1 <= |s|
    ensures r.Some? ==> 1 <= r.value.0 <= 12 && 1 <= r.value.1 <= 31 && r.value.2 <= |s|
  {
    if months == [] then None
    else
      var days := DayAlternatives(s[months[0].1..]);
      if days != [] then Some((months[0].0, days[0].0, months[0].1 + days[0].1))
      else MatchMonthDay(s, months[1..])
  }

  /**
   * `datetime.strptime(s, '%Y%m%d')` as a day number. `None` stands for the
   * ValueError it raises: no match, unconverted data left over, year 0, or a
   * day past the end of its month.
   */
  function ParseYmd(s: string): (r: Option<int>)
    ensures r.Some? ==> MinOrdinal <= r.value <= MaxOrdinal
  {
    if |s| < 4 || !(IsDigit(s[0]) && IsDigit(s[1]) && IsDigit(s[2]) && IsDigit(s[3])) then None
    else
      match MatchMonthDay(s[4..], MonthAlternatives(s[4..]))
      case None => None
      case Some((m, d, n)) =>
        if 4 + n != |s| then None else DateOrdinal(YearValue(s), m, d)
  }

  /** The year the four leading digits of `s` spell. */
  function YearValue(s: string): int
    requires |s| >= 4 && IsDigit(s[0]) && IsDigit(s[1]) && IsDigit(s[2]) && IsDigit(s[3])
  {
    1000 * DigitValue(s[0]) + 100 * DigitValue(s[1]) + 10 * DigitValue(s[2]) + DigitValue(s[3])
  }

  /** The day number of a valid date, `None` for the ValueError of an invalid one. */
  function DateOrdinal(y: int, m: int, d: int): (r: Option<int>)
    ensures r.Some? <==> ValidDate(y, m, d)
    ensures r.Some? ==> r.value == Ordinal(y, m, d) && MinOrdinal <= r.value <= MaxOrdinal
  {
    if !ValidDate(y, m, d) then None else OrdinalInRange(y, m, d); Some(Ordinal(y, m, d))
  }

  /** `n` as exactly `width` decimal digits, most significant first. */
  function Padded(n: nat, width: nat): (s: string)
    ensures |s| == width
    ensures forall i :: 0 <= i < |s| ==> IsDigit(s[i])
  {
    if width == 0 then [] else Padded(n / 10, width - 1) + [DigitChar(n % 10)]
  }

  lemma YearDigits(y: int)
    requires 0 <= y <= 9999
    ensures var ys := Padded(y, 4);
      1000 * DigitValue(ys[0]) + 100 * DigitValue(ys[1]) + 10 * DigitValue(ys[2]) + DigitValue(ys[3]) == y
  {
    var ys := Padded(y, 4);
    var q1, q2, q3 := y / 10, y / 100, y / 1000;
    assert q2 == q1 / 10 && q3 == q2 / 10;
    assert ys == Padded(q1, 3) + [DigitChar(y % 10)];
    assert Padded(q1, 3) == Padded(q2, 2) + [DigitChar(q1 % 10)];
    TwoDigits(q2);
    assert ys == [DigitChar(q3), DigitChar(q2 % 10), DigitChar(q1 % 10), DigitChar(y % 10)];
    DigitValueOfChar(q3);
    DigitValueOfChar(q2 % 10);
    DigitValueOfChar(q1 % 10);
    DigitValueOfChar(y % 10);
    assert y == 10 * q1 + y % 10 && q1 == 10 * q2 + q1 % 10 && q2 == 10 * q3 + q2 % 10;
  }

  lemma DigitValueOfChar(d: nat)
    requires d < 10
    ensures IsDigit(DigitChar(d)) && DigitValue(DigitChar(d)) == d
  {
  }

  /** Two-digit padding spells the tens digit, then the units digit. */
  lemma TwoDigits(n: nat)
    requires n < 100
    ensures Padded(n, 2) == [DigitChar(n / 10), DigitChar(n % 10)]
  {
    var tens := n / 10;
    assert tens < 10 && tens / 10 == 0 && tens % 10 == tens;
    assert Padded(tens, 1) == Padded(0, 0) + [DigitChar(tens)];
    assert Padded(n, 2) == Padded(tens, 1) + [DigitChar(n % 10)];
  }

  lemma MonthDigits(m: int, rest: string)
    requires 1 <= m <= 12
    ensures |MonthAlternatives(Padded(m, 2) + rest)| > 0 && MonthAlternatives(Padded(m, 2) + rest)[0] == (m, 2)
  {
    var s := Padded(m, 2) + rest;
    TwoDigits(m);
    DigitValueOfChar(m / 10);
    DigitValueOfChar(m % 10);
    assert s[0] == DigitChar(m / 10) && s[1] == DigitChar(m % 10);
    if m >= 10 {
      assert s[0] == '1' && '0' <= s[1] <= '2';
      assert MonthAlternatives(s)[0] == (10 + m % 10, 2);
    } else {
      assert s[0] == '0' && '1' <= s[1] <= '9';
      assert MonthAlternatives(s)[0] == (m % 10, 2);
    }
  }

  lemma DayDigits(d: int)
    requires 1 <= d <= 31
    ensures |DayAlternatives(Padded(d, 2))| > 0 && DayAlternatives(Padded(d, 2))[0] == (d, 2)
  {
    var s := Padded(d, 2);
    TwoDigits(d);
    DigitValueOfChar(d / 10);
    DigitValueOfChar(d % 10);
    var c0, c1 := s[0], s[1];
    if d >= 30 {
      assert c0 == '3' && '0' <= c1 <= '1';
      assert DayAlternatives(s)[0] == (30 + d % 10, 2);
    } else if d >= 10 {
      assert '1' <= c0 <= '2' && IsDigit(c1) && c0 != '3';
      assert DayAlternatives(s)[0] == (10 * (d / 10) + d % 10, 2);
    } else {
      assert c0 == '0' && '1' <= c1 <= '9';
      assert DayAlternatives(s)[0] == (d % 10, 2);
    }
  }

  /** The successful path of `ParseYmd`: four year digits, then a month and a day consuming the rest. */
  lemma ParseYmdOf(s: string, y: int, m: int, d: int, n: nat)
    requires |s| >= 4 && IsDigit(s[0]) && IsDigit(s[1]) && IsDigit(s[2]) && IsDigit(s[3])
    requires YearValue(s) == y
    requires MatchMonthDay(s[4..], MonthAlternatives(s[4..])) == Some((m, d, n))
    requires 4 + n == |s| && ValidDate(y, m, d)
    ensures ParseYmd(s) == Some(Ordinal(y, m, d))
  {
    assert ParseYmd(s) == DateOrdinal(y, m, d);
  }

  /** Two-digit month and day spellings are matched as they were written. */
  lemma CanonicalMonthDay(m: int, d: int)
    requires 1 <= m <= 12 && 1 <= d <= 31
    ensures var md := Padded(m, 2) + Padded(d, 2);
      MatchMonthDay(md, MonthAlternatives(md)) == Some((m, d, 4))
  {
    var ds := Padded(d, 2);
    var md := Padded(m, 2) + ds;
    MonthDigits(m, ds);
    DayDigits(d);
    assert md[2..] == ds;
  }

  /** The canonical `YYYYMMDD` spelling of every valid date parses to that date. */
  lemma ParseCanonical(y: int, m: int, d: int)
    requires ValidDate(y, m, d)
    ensures ParseYmd(Padded(y, 4) + Padded(m, 2) + Padded(d, 2)) == Some(Ordinal(y, m, d))
  {
    var ys, md := Padded(y, 4), Padded(m, 2) + Padded(d, 2);
    var s := ys + md;
    assert Padded(y, 4) + Padded(m, 2) + Padded(d, 2) == s;
    assert s[0] == ys[0] && s[1] == ys[1] && s[2] == ys[2] && s[3] == ys[3];
    YearDigits(y);
    assert s[4..] == md;
    CanonicalMonthDay(m, d);
    ParseYmdOf(s, y, m, d, 4);
  }

  /** strptime is lenient: `2021111` is read as 1 November 2021. */
  lemma ParseShortForm()
    ensures ValidDate(2021, 11, 1) && ParseYmd("2021111") == Some(Ordinal(2021, 11, 1))
  {
    assert MonthAlternatives("111")[0] == (11, 2);
    assert DayAlternatives("1")[0] == (1, 1);
  }
}

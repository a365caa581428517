/**
 * Dates as the scripts see them through Python's `datetime`: the proleptic
 * Gregorian calendar of years 1..9999, day numbers equal to `date.toordinal()`
 * (0001-01-01 is day 1), the `%Y-%m-%d` rendering of `strftime` and the
 * `%Y-%m-%d` grammar accepted by `strptime`.
 */
module Calendar {
  import opened Wrappers
  import opened Text

  // ---------------------------------------------------------------------------
  // Years and months.
  // ---------------------------------------------------------------------------

  predicate IsLeap(y: int) {
    y % 4 == 0 && (y % 100 != 0 || y % 400 == 0)
  }

  function YearLength(y: int): int {
    if IsLeap(y) then 366 else 365
  }

  function DaysInMonth(y: int, m: int): int
    requires 1 <= m <= 12
  {
    if m == 2 then (if IsLeap(y) then 29 else 28)
    else if m == 4 || m == 6 || m == 9 || m == 11 then 30
    else 31
  }

  /** Days of year `y` before the first of month `m`; month 13 stands for the next New Year. */
  function DaysBeforeMonth(y: int, m: int): int
    requires 1 <= m <= 13
  {
    [0, 31, 59, 90, 120, 151, 181, 212, 243, 273, 304, 334, 365][m - 1]
      + (if m > 2 && IsLeap(y) then 1 else 0)
  }

  lemma MonthStep(y: int, m: int)
    requires 1 <= m <= 12
    ensures DaysBeforeMonth(y, m + 1) == DaysBeforeMonth(y, m) + DaysInMonth(y, m)
    ensures DaysBeforeMonth(y, 13) == YearLength(y)
  {
  }

  lemma {:induction false} MonthsIncrease(y: int, m1: int, m2: int)
    requires 1 <= m1 < m2 <= 13
    ensures DaysBeforeMonth(y, m1) + DaysInMonth(y, m1) <= DaysBeforeMonth(y, m2)
    decreases m2 - m1
  {
    MonthStep(y, m1);
    if m1 + 1 < m2 {
      MonthsIncrease(y, m1 + 1, m2);
    }
  }

  /** Days in the years before year `y` (Python's `_days_before_year`). */
  function DaysBeforeYear(y: int): int
    requires y >= 1
  {
    var z := y - 1;
    365 * z + z / 4 - z / 100 + z / 400
  }

  lemma DivStep(y: int, k: int)
    requires y >= 1 && k >= 1
    ensures y / k - (y - 1) / k == (if y % k == 0 then 1 else 0)
  {
    var q, r := (y - 1) / k, (y - 1) % k;
    assert y - 1 == q * k + r && 0 <= r < k;
    if r == k - 1 {
      assert y == (q + 1) * k + 0;
      DivUnique(y, k, q + 1, 0);
    } else {
      DivUnique(y, k, q, r + 1);
    }
  }

  lemma LeapDivisors(y: int)
    requires y >= 0
    ensures y % 400 == 0 ==> y % 100 == 0
    ensures y % 100 == 0 ==> y % 4 == 0
  {
    if y % 400 == 0 {
      var q := y / 400;
      assert y == (4 * q) * 100 + 0;
      DivUnique(y, 100, 4 * q, 0);
    }
    if y % 100 == 0 {
      var q := y / 100;
      assert y == (25 * q) * 4 + 0;
      DivUnique(y, 4, 25 * q, 0);
    }
  }

  lemma YearStep(y: int)
    requires y >= 1
    ensures DaysBeforeYear(y + 1) == DaysBeforeYear(y) + YearLength(y)
  {
    DivStep(y, 4);
    DivStep(y, 100);
    DivStep(y, 400);
    LeapDivisors(y);
  }

  lemma {:induction false} YearsIncrease(y1: int, y2: int)
    requires 1 <= y1 < y2
    ensures DaysBeforeYear(y1) + YearLength(y1) <= DaysBeforeYear(y2)
    decreases y2 - y1
  {
    YearStep(y1);
    if y1 + 1 < y2 {
      YearsIncrease(y1 + 1, y2);
    }
  }

  // ---------------------------------------------------------------------------
  // Dates and day numbers.
  // ---------------------------------------------------------------------------

  datatype Date = Date(year: int, month: int, day: int)

  predicate ValidDate(d: Date) {
    1 <= d.year <= 9999 && 1 <= d.month <= 12 && 1 <= d.day <= DaysInMonth(d.year, d.month)
  }

  /** `date.toordinal()`. */
  function Ordinal(d: Date): int
    requires ValidDate(d)
  {
    DaysBeforeYear(d.year) + DaysBeforeMonth(d.year, d.month) + d.day
  }

  /** The ordinal of 9999-12-31, the last day `datetime` can represent. */
  const MaxOrdinal: int := 3652059

  /** A day number that `datetime` can represent. */
  type Day = n: int | 1 <= n <= MaxOrdinal witness 1

  /** Chronological order of dates: by year, then month, then day. */
  predicate DateBefore(a: Date, b: Date) {
    a.year < b.year || (a.year == b.year && (a.month < b.month || (a.month == b.month && a.day < b.day)))
  }

  /** Day numbers order dates chronologically. */
  lemma OrdinalOrder(a: Date, b: Date)
    requires ValidDate(a) && ValidDate(b)
    ensures DateBefore(a, b) <==> Ordinal(a) < Ordinal(b)
    ensures a == b <==> Ordinal(a) == Ordinal(b)
  {
    if DateBefore(a, b) {
      OrdinalBefore(a, b);
    } else if DateBefore(b, a) {
      OrdinalBefore(b, a);
    }
  }

  lemma OrdinalBefore(a: Date, b: Date)
    requires ValidDate(a) && ValidDate(b) && DateBefore(a, b)
    ensures Ordinal(a) < Ordinal(b)
  {
    if a.year < b.year {
      MonthsIncrease(a.year, a.month, 13);
      MonthStep(a.year, 12);
      YearsIncrease(a.year, b.year);
    } else if a.month < b.month {
      MonthsIncrease(a.year, a.month, b.month);
    }
  }

  /** The date `k - 1` days after January 1st of year `y`, found month by month. */
  function MonthFrom(y: int, m: int, k: int): (d: Date)
    requires 1 <= m <= 12 && DaysBeforeMonth(y, m) < k <= YearLength(y)
    ensures d.year == y && 1 <= d.month <= 12 && 1 <= d.day <= DaysInMonth(y, d.month)
    ensures DaysBeforeMonth(y, d.month) + d.day == k
    decreases 12 - m
  {
    MonthStep(y, m);
    if k <= DaysBeforeMonth(y, m) + DaysInMonth(y, m) then Date(y, m, k - DaysBeforeMonth(y, m))
    else MonthFrom(y, m + 1, k)
  }

  /** The date `k - 1` days after January 1st of year `y`, found year by year. */
  function DateFrom(y: int, k: int): (d: Date)
    requires 1 <= y && 1 <= k
    ensures d.year >= y && 1 <= d.month <= 12 && 1 <= d.day <= DaysInMonth(d.year, d.month)
    ensures DaysBeforeYear(d.year) + DaysBeforeMonth(d.year, d.month) + d.day == DaysBeforeYear(y) + k
    decreases k
  {
    YearStep(y);
    if k <= YearLength(y) then MonthFrom(y, 1, k)
    else DateFrom(y + 1, k - YearLength(y))
  }

  /** `date.fromordinal(n)`: the inverse of `Ordinal`. */
  function FromOrdinal(n: Day): (d: Date)
    ensures ValidDate(d) && Ordinal(d) == n
  {
    var d := DateFrom(1, n);
    if d.year > 9999 then
      YearsIncrease(9999, d.year);
      YearStep(9999);
      assert false;
      d
    else d
  }

  lemma OrdinalRange(d: Date)
    requires ValidDate(d)
    ensures 1 <= Ordinal(d) <= MaxOrdinal
  {
    if d.year < 9999 {
      YearsIncrease(d.year, 9999);
    }
    MonthsIncrease(d.year, d.month, 13);
  }

  lemma FromOrdinalOfOrdinal(d: Date)
    requires ValidDate(d)
    ensures 1 <= Ordinal(d) <= MaxOrdinal && FromOrdinal(Ordinal(d)) == d
  {
    OrdinalRange(d);
    OrdinalOrder(d, FromOrdinal(Ordinal(d)));
  }

  // ---------------------------------------------------------------------------
  // Points in time: a day number and the microseconds since local midnight.
  // ---------------------------------------------------------------------------

  const MicrosPerDay: int := 86_400_000_000

  type Micro = m: int | 0 <= m < MicrosPerDay

  /** A naive local `datetime`. */
  datatype Instant = Instant(day: Day, micro: Micro)

  /** `datetime.__lt__`. */
  predicate InstantBefore(a: Instant, b: Instant) {
    a.day < b.day || (a.day == b.day && a.micro < b.micro)
  }

  /** `t - timedelta(days=n)`; `None` where Python raises `OverflowError`. */
  function MinusDays(t: Instant, n: nat): (r: Option<Instant>)
    ensures r.Some? <==> t.day - n >= 1
    ensures r.Some? ==> r.value.day == t.day - n && r.value.micro == t.micro
  {
    if t.day - n >= 1 then Some(Instant(t.day - n, t.micro)) else None
  }

  /** The calendar date of an instant (`datetime.date()`). */
  function DateOf(t: Instant): Date {
    FromOrdinal(t.day)
  }

  // ---------------------------------------------------------------------------
  // strftime('%Y-%m-%d') and strptime(s, '%Y-%m-%d').
  // ---------------------------------------------------------------------------

  /** `d.strftime('%Y-%m-%d')`, with the year zero-padded to four digits as
      Python documents `%Y`; glibc leaves years below 1000 unpadded. */
  function Format(d: Date): string
    requires ValidDate(d)
  {
    Padded(d.year, 4) + "-" + Padded(d.month, 2) + "-" + Padded(d.day, 2)
  }

  /** What `%m` accepts: `1[0-2]|0[1-9]|[1-9]`. */
  predicate MonthToken(t: string) {
    || (|t| == 2 && t[0] == '1' && '0' <= t[1] <= '2')
    || (|t| == 2 && t[0] == '0' && '1' <= t[1] <= '9')
    || (|t| == 1 && '1' <= t[0] <= '9')
  }

  /** What `%d` accepts as the last directive: `3[01]|[12]\d|0[1-9]|[1-9]| [1-9]`. */
  predicate DayToken(t: string) {
    || (|t| == 2 && t[0] == '3' && '0' <= t[1] <= '1')
    || (|t| == 2 && '1' <= t[0] <= '2' && IsDigit(t[1]))
    || (|t| == 2 && t[0] == '0' && '1' <= t[1] <= '9')
    || (|t| == 1 && '1' <= t[0] <= '9')
    || (|t| == 2 && t[0] == ' ' && '1' <= t[1] <= '9')
  }

  function DayTokenValue(t: string): nat
    requires DayToken(t)
  {
    if t[0] == ' ' then DigitValue(t[1]) else DigitsValue(t)
  }

  /** `datetime.strptime(tok, '%Y-%m-%d')`, or `None` where it raises `ValueError`
      (a token outside the grammar, or a day that the month does not have). */
  function ParseDate(tok: string): (r: Option<Date>)
    ensures r.Some? ==> ValidDate(r.value)
  {
    var parts := SplitOn(tok, "-");
    if |parts| != 3 then None
    else
      var y, m, d := parts[0], parts[1], parts[2];
      if |y| == 4 && AllDigits(y) && MonthToken(m) && DayToken(d) then
        var date := Date(DigitsValue(y), DigitsValue(m), DayTokenValue(d));
        if ValidDate(date) then Some(date) else None
      else None
  }

  lemma PaddedNoDash(n: nat, w: nat)
    requires n < Pow10(w)
    ensures '-' !in Padded(n, w)
  {
  }

  lemma FormatSplits(d: Date)
    requires ValidDate(d)
    ensures SplitOn(Format(d), "-") == [Padded(d.year, 4), Padded(d.month, 2), Padded(d.day, 2)]
  {
    var y, m, dd := Padded(d.year, 4), Padded(d.month, 2), Padded(d.day, 2);
    PaddedNoDash(d.year, 4);
    PaddedNoDash(d.month, 2);
    PaddedNoDash(d.day, 2);
    assert Format(d) == y + ['-'] + (m + ['-'] + dd);
    SplitCons(y, '-', m + ['-'] + dd);
    SplitCons(m, '-', dd);
    SplitNoSep(dd, '-');
  }

  /** Two-digit rendering, spelled out. */
  lemma TwoDigits(n: nat)
    requires n < 100
    ensures Padded(n, 2) == [DigitChar(n / 10), DigitChar(n % 10)]
  {
    assert Pow10(1) == 10 && Pow10(0) == 1;
    assert Padded(n % 10, 1) == [DigitChar(n % 10)] + Padded(0, 0);
  }

  /** `strptime` reads back what `strftime` wrote. */
  lemma ParseFormat(d: Date)
    requires ValidDate(d)
    ensures ParseDate(Format(d)) == Some(d)
  {
    FormatSplits(d);
    PaddedValue(d.year, 4);
    MonthPadded(d.month);
    DayPadded(d.day);
  }

  lemma MonthPadded(m: nat)
    requires 1 <= m <= 12
    ensures MonthToken(Padded(m, 2)) && DigitsValue(Padded(m, 2)) == m
  {
    TwoDigits(m);
    PaddedValue(m, 2);
  }

  lemma DayPadded(d: nat)
    requires 1 <= d <= 31
    ensures DayToken(Padded(d, 2)) && DayTokenValue(Padded(d, 2)) == d
  {
    TwoDigits(d);
    PaddedValue(d, 2);
  }

  /** The ten-character digit shape `DDDD-DD-DD`, the only one `Format` writes. */
  predicate DateShape(s: string) {
    |s| == 10 && AllDigits(s[..4]) && s[4] == '-' && AllDigits(s[5..7]) && s[7] == '-' && AllDigits(s[8..10])
  }

  /** `Format` writes that shape. */
  lemma FormatShape(d: Date)
    requires ValidDate(d)
    ensures DateShape(Format(d))
  {
    var f := Format(d);
    assert f == Padded(d.year, 4) + "-" + Padded(d.month, 2) + "-" + Padded(d.day, 2);
    assert f[..4] == Padded(d.year, 4) && f[5..7] == Padded(d.month, 2) && f[8..10] == Padded(d.day, 2);
  }

  /** `strftime` writes back what `strptime` read from a token of that shape. */
  lemma FormatParse(s: string)
    requires DateShape(s) && ParseDate(s).Some?
    ensures Format(ParseDate(s).value) == s
  {
    var y, m, dd := s[..4], s[5..7], s[8..10];
    assert s == y + ['-'] + (m + ['-'] + dd);
    assert '-' !in y && '-' !in m && '-' !in dd by {
      assert forall i :: 0 <= i < 4 ==> IsDigit(y[i]);
      assert forall i :: 0 <= i < 2 ==> IsDigit(m[i]) && IsDigit(dd[i]);
    }
    SplitCons(y, '-', m + ['-'] + dd);
    SplitCons(m, '-', dd);
    SplitNoSep(dd, '-');
    PaddedDigits(y);
    PaddedDigits(m);
    PaddedDigits(dd);
  }

  /** Formatted dates compare as strings exactly as they compare in time. */
  lemma FormatOrder(a: Date, b: Date)
    requires ValidDate(a) && ValidDate(b)
    ensures Less(Format(a), Format(b)) <==> DateBefore(a, b)
  {
    FormatFields(a, b);
    PaddedOrder(a.year, b.year, 4);
    PaddedOrder(a.month, b.month, 2);
    PaddedOrder(a.day, b.day, 2);
  }

  /** Formatted dates compare field by field. */
  lemma FormatFields(a: Date, b: Date)
    requires ValidDate(a) && ValidDate(b)
    ensures var ya, ma, da := Padded(a.year, 4), Padded(a.month, 2), Padded(a.day, 2);
      var yb, mb, db := Padded(b.year, 4), Padded(b.month, 2), Padded(b.day, 2);
      Less(Format(a), Format(b)) <==> Less(ya, yb) || (ya == yb && (Less(ma, mb) || (ma == mb && Less(da, db))))
  {
    DashedFields(Padded(a.year, 4), Padded(a.month, 2), Padded(a.day, 2), Padded(b.year, 4), Padded(b.month, 2), Padded(b.day, 2));
  }

  /** Three dash-separated fields of matching widths compare field by field. */
  lemma DashedFields(y: string, m: string, d: string, y2: string, m2: string, d2: string)
    requires |y| == |y2| && |m| == |m2|
    ensures Less(y + "-" + m + "-" + d, y2 + "-" + m2 + "-" + d2) <==> Less(y, y2) || (y == y2 && (Less(m, m2) || (m == m2 && Less(d, d2))))
  {
    assert y + "-" + m + "-" + d == y + (['-'] + (m + (['-'] + d)));
    assert y2 + "-" + m2 + "-" + d2 == y2 + (['-'] + (m2 + (['-'] + d2)));
    DashField(y, m + (['-'] + d), y2, m2 + (['-'] + d2));
    DashField(m, d, m2, d2);
  }

  /** Comparing two dash-separated fields of equal width compares the first,
      then what follows the dash. */
  lemma DashField(x: string, r: string, x2: string, r2: string)
    requires |x| == |x2|
    ensures Less(x + (['-'] + r), x2 + (['-'] + r2)) <==> Less(x, x2) || (x == x2 && Less(r, r2))
  {
    LessConcat(x, ['-'] + r, x2, ['-'] + r2);
    LessConcat(['-'], r, ['-'], r2);
    LessIrreflexive(['-']);
  }

  /** Padded renderings of one width compare and coincide as the numbers do. */
  lemma PaddedOrder(a: nat, b: nat, w: nat)
    requires a < Pow10(w) && b < Pow10(w)
    ensures Less(Padded(a, w), Padded(b, w)) <==> a < b
    ensures Padded(a, w) == Padded(b, w) <==> a == b
  {
    PaddedLess(a, b, w);
    PaddedValue(a, w);
    PaddedValue(b, w);
  }
}

/** UTC instants and proleptic Gregorian dates, as Python's `datetime` represents them:
    an instant is a whole number of microseconds since 1970-01-01T00:00:00Z and lies in
    the years 1 through 9999. Days are numbered from 0001-01-01 (day 0). */
module Civil {
  import opened Text

  const MicrosPerSecond: int := 1_000_000
  const MicrosPerMinute: int := 60 * MicrosPerSecond
  const MicrosPerHour: int := 60 * MicrosPerMinute
  const MicrosPerDay: int := 24 * MicrosPerHour

  /** Day number of 1970-01-01. */
  const UnixEpochDay: int := 719162
  /** Number of days from 0001-01-01 through 9999-12-31. */
  const DayCount: int := 3652059

  const MinInstant: int := -UnixEpochDay * MicrosPerDay
  const MaxInstant: int := (DayCount - UnixEpochDay) * MicrosPerDay

  /** A value of `datetime`, in microseconds since the Unix epoch. */
  type Instant = t: int | MinInstant <= t < MaxInstant

  datatype Date = Date(year: int, month: int, day: int)

  predicate IsLeap(y: int) {
    y % 4 == 0 && (y % 100 != 0 || y % 400 == 0)
  }

  function YearLength(y: int): int {
    if IsLeap(y) then 366 else 365
  }

  function DaysInMonth(y: int, m: int): int
    requires 1 <= m <= 12
  {
    if m == 2 then (if IsLeap(y) then 29 else 28)
    else if m == 4 || m == 6 || m == 9 || m == 11 then 30
    else 31
  }

  /** Days of year `y` before the first of month `m`. */
  function DaysBeforeMonth(y: int, m: int): int
    requires 1 <= m <= 12
  {
    var common := [0, 31, 59, 90, 120, 151, 181, 212, 243, 273, 304, 334][m - 1];
    if m > 2 && IsLeap(y) then common + 1 else common
  }

  /** Days from 0001-01-01 to the first of January of year `y`. */
  function DaysBeforeYear(y: int): int
    requires y >= 1
  {
    var a := y - 1;
    365 * a + a / 4 - a / 100 + a / 400
  }

  predicate ValidDate(d: Date) {
    1 <= d.year <= 9999 && 1 <= d.month <= 12 && 1 <= d.day <= DaysInMonth(d.year, d.month)
  }

  /** Calendar order of dates. */
  predicate Before(a: Date, b: Date) {
    || a.year < b.year
    || (a.year == b.year && a.month < b.month)
    || (a.year == b.year && a.month == b.month && a.day < b.day)
  }

  // ---------------------------------------------------------------------------
  // Year and month arithmetic
  // ---------------------------------------------------------------------------

  /** A year has 365 days, or 366 when it is a leap year. */
  lemma YearStep(y: int)
    requires y >= 1
    ensures DaysBeforeYear(y + 1) == DaysBeforeYear(y) + YearLength(y)
  {
    FloorStep4(y);
    FloorStep100(y);
    FloorStep400(y);
    LeapDivisors(y);
  }

  /** Every fourth century is a century, and every century is a fourth year. */
  lemma LeapDivisors(y: int)
    ensures y % 400 == 0 ==> y % 100 == 0
    ensures y % 100 == 0 ==> y % 4 == 0
  {
    if y % 400 == 0 {
      DivMod(y, y / 400 * 4, 100, 0);
    }
    if y % 100 == 0 {
      DivMod(y, y / 100 * 25, 4, 0);
    }
  }

  lemma FloorStep4(y: int)
    ensures y / 4 - (y - 1) / 4 == if y % 4 == 0 then 1 else 0
  {
  }

  lemma FloorStep100(y: int)
    ensures y / 100 - (y - 1) / 100 == if y % 100 == 0 then 1 else 0
  {
  }

  lemma FloorStep400(y: int)
    ensures y / 400 - (y - 1) / 400 == if y % 400 == 0 then 1 else 0
  {
  }

  lemma {:induction false} DaysBeforeYearMonotone(a: int, b: int)
    requires 1 <= a <= b
    ensures DaysBeforeYear(a) + 365 * (b - a) <= DaysBeforeYear(b)
    decreases b - a
  {
    if a < b {
      YearStep(b - 1);
      DaysBeforeYearMonotone(a, b - 1);
    }
  }

  /** Each month starts where the previous one ends, and December ends the year. */
  lemma MonthStep(y: int, m: int)
    requires 1 <= m <= 12
    ensures m < 12 ==> DaysBeforeMonth(y, m + 1) == DaysBeforeMonth(y, m) + DaysInMonth(y, m)
    ensures m == 12 ==> DaysBeforeMonth(y, m) + DaysInMonth(y, m) == YearLength(y)
  {
  }

  lemma {:induction false} DaysBeforeMonthMonotone(y: int, m: int, n: int)
    requires 1 <= m < n <= 12
    ensures DaysBeforeMonth(y, m) + DaysInMonth(y, m) <= DaysBeforeMonth(y, n)
    decreases n - m
  {
    MonthStep(y, m);
    if m + 1 < n {
      DaysBeforeMonthMonotone(y, m + 1, n);
    }
  }

  /** The year containing day `n`, searching upwards from a year that starts no later. */
  function YearOf(n: int, y: int): (r: int)
    requires 1 <= y && DaysBeforeYear(y) <= n
    ensures y <= r && DaysBeforeYear(r) <= n < DaysBeforeYear(r + 1)
    decreases n - DaysBeforeYear(y)
  {
    YearStep(y);
    if n < DaysBeforeYear(y + 1) then y else YearOf(n, y + 1)
  }

  /** The month containing day-of-year `doy`, searching downwards from month `m`. */
  function MonthOf(y: int, doy: int, m: int): (r: int)
    requires 1 <= m <= 12
    requires 0 <= doy < DaysBeforeMonth(y, m) + DaysInMonth(y, m)
    ensures 1 <= r <= m
    ensures DaysBeforeMonth(y, r) <= doy < DaysBeforeMonth(y, r) + DaysInMonth(y, r)
  {
    if DaysBeforeMonth(y, m) <= doy || m == 1 then m
    else
      MonthStep(y, m - 1);
      MonthOf(y, doy, m - 1)
  }

  // ---------------------------------------------------------------------------
  // Dates and day numbers
  // ---------------------------------------------------------------------------

  /** The day number of a date (`date.toordinal() - 1`). */
  function DayNumber(d: Date): (n: int)
    requires ValidDate(d)
    ensures 0 <= n < DayCount
  {
    DayWithinYear(d);
    YearStep(d.year);
    DaysBeforeYearMonotone(d.year + 1, 10000);
    DaysBeforeYear(d.year) + DaysBeforeMonth(d.year, d.month) + d.day - 1
  }

  /** A valid date lies inside its year. */
  lemma DayWithinYear(d: Date)
    requires ValidDate(d)
    ensures DaysBeforeMonth(d.year, d.month) + d.day - 1 < YearLength(d.year)
  {
    MonthStep(d.year, 12);
    if d.month < 12 {
      DaysBeforeMonthMonotone(d.year, d.month, 12);
    }
  }

  /** Day numbers below `DayCount` fall in years up to 9999. */
  lemma YearOfBound(n: int, y: int)
    requires 1 <= y && DaysBeforeYear(y) <= n < DayCount
    ensures y <= 9999
  {
    if y > 9999 {
      DaysBeforeYearMonotone(10000, y);
    }
  }

  /** No year is longer than 366 days, so year `n / 366 + 1` starts no later than day `n`. */
  lemma YearGuess(n: int)
    requires 0 <= n
    ensures DaysBeforeYear(n / 366 + 1) <= n
  {
    var a := n / 366;
    assert a / 400 <= a / 100;
    assert a / 4 <= a;
  }

  /** The date of day number `n` (`date.fromordinal(n + 1)`). */
  function DateOfDay(n: int): (d: Date)
    requires 0 <= n < DayCount
    ensures ValidDate(d) && DayNumber(d) == n
  {
    var guess := n / 366 + 1;
    YearGuess(n);
    var y := YearOf(n, guess);
    YearOfBound(n, y);
    YearStep(y);
    var doy := n - DaysBeforeYear(y);
    MonthStep(y, 12);
    var m := MonthOf(y, doy, 12);
    Date(y, m, doy - DaysBeforeMonth(y, m) + 1)
  }

  /** Later dates have larger day numbers. */
  lemma DayNumberMonotone(a: Date, b: Date)
    requires ValidDate(a) && ValidDate(b) && Before(a, b)
    ensures DayNumber(a) < DayNumber(b)
  {
    if a.year < b.year {
      DayWithinYear(a);
      YearStep(a.year);
      DaysBeforeYearMonotone(a.year + 1, b.year);
    } else if a.month < b.month {
      DaysBeforeMonthMonotone(a.year, a.month, b.month);
    }
  }

  /** Distinct dates have distinct day numbers. */
  lemma DayNumberInjective(a: Date, b: Date)
    requires ValidDate(a) && ValidDate(b) && DayNumber(a) == DayNumber(b)
    ensures a == b
  {
    if Before(a, b) {
      DayNumberMonotone(a, b);
    } else if Before(b, a) {
      DayNumberMonotone(b, a);
    }
  }

  /** `DateOfDay` and `DayNumber` are inverse bijections. */
  lemma DateOfDayNumber(d: Date)
    requires ValidDate(d)
    ensures DateOfDay(DayNumber(d)) == d
  {
    DayNumberInjective(DateOfDay(DayNumber(d)), d);
  }

  /** The calendar day after `d`. */
  function NextDay(d: Date): Date
    requires 1 <= d.month <= 12
  {
    if d.day < DaysInMonth(d.year, d.month) then Date(d.year, d.month, d.day + 1)
    else if d.month < 12 then Date(d.year, d.month + 1, 1)
    else Date(d.year + 1, 1, 1)
  }

  /** The day after a valid date (other than the last representable one) is valid and
      numbered one higher. */
  lemma NextDayNumber(d: Date)
    requires ValidDate(d) && d != Date(9999, 12, 31)
    ensures ValidDate(NextDay(d)) && DayNumber(NextDay(d)) == DayNumber(d) + 1
  {
    MonthStep(d.year, d.month);
    if d.day == DaysInMonth(d.year, d.month) && d.month == 12 {
      YearStep(d.year);
    }
  }

  /** Consecutive day numbers are consecutive calendar days. */
  lemma DateOfNextDay(n: int)
    requires 0 <= n && n + 1 < DayCount
    ensures DateOfDay(n + 1) == NextDay(DateOfDay(n))
  {
    var d := DateOfDay(n);
    var last := Date(9999, 12, 31);
    assert ValidDate(last) && DayNumber(last) == DayCount - 1;
    NextDayNumber(d);
    DayNumberInjective(DateOfDay(n + 1), NextDay(d));
  }

  // ---------------------------------------------------------------------------
  // Instants
  // ---------------------------------------------------------------------------

  /** The day number of the date an instant falls on. */
  function DayOf(t: Instant): (n: int)
    ensures 0 <= n < DayCount
  {
    t / MicrosPerDay + UnixEpochDay
  }

  /** `t.replace(hour=0, minute=0, second=0, microsecond=0)`. */
  function StartOfDay(t: Instant): (r: Instant)
    ensures r <= t < r + MicrosPerDay && r % MicrosPerDay == 0
    ensures DayOf(r) == DayOf(t)
  {
    t - t % MicrosPerDay
  }

  /** `datetime(d.year, d.month, d.day, hour, minute, second)`. */
  function InstantOf(d: Date, hour: int, minute: int, second: int): (t: Instant)
    requires ValidDate(d) && 0 <= hour < 24 && 0 <= minute < 60 && 0 <= second < 60
    ensures DayOf(t) == DayNumber(d)
    ensures t % MicrosPerDay == hour * MicrosPerHour + minute * MicrosPerMinute + second * MicrosPerSecond
  {
    var k := DayNumber(d) - UnixEpochDay;
    var r := hour * MicrosPerHour + minute * MicrosPerMinute + second * MicrosPerSecond;
    DayDivMod(k, r);
    InstantRange(k, r);
    k * MicrosPerDay + r
  }

  /** On the same day, an earlier time of day is an earlier instant. */
  lemma InstantOfBefore(d: Date, h1: int, m1: int, h2: int, m2: int)
    requires ValidDate(d) && 0 <= h1 < 24 && 0 <= m1 < 60 && 0 <= h2 < 24 && 0 <= m2 < 60
    requires h1 < h2 || (h1 == h2 && m1 < m2)
    ensures InstantOf(d, h1, m1, 0) < InstantOf(d, h2, m2, 0)
  {
  }

  /** Whole days from 0001-01-01 through 9999-12-31 plus a time of day stay within the
      instants `datetime` represents. */
  lemma InstantRange(k: int, r: int)
    requires -UnixEpochDay <= k < DayCount - UnixEpochDay && 0 <= r < MicrosPerDay
    ensures MinInstant <= k * MicrosPerDay + r < MaxInstant
  {
    assert MicrosPerDay == 86_400_000_000;
  }

  /** Splitting an instant into whole days and the time of day. */
  lemma DayDivMod(k: int, r: int)
    requires 0 <= r < MicrosPerDay
    ensures (k * MicrosPerDay + r) / MicrosPerDay == k
    ensures (k * MicrosPerDay + r) % MicrosPerDay == r
  {
  }

  /** Whole seconds since the epoch, rounding down (`timegm(t.utctimetuple())`). */
  function EpochSeconds(t: Instant): (s: int)
    ensures s * MicrosPerSecond <= t < (s + 1) * MicrosPerSecond
  {
    t / MicrosPerSecond
  }

  // ---------------------------------------------------------------------------
  // Fixed-width decimal fields
  // ---------------------------------------------------------------------------

  /** `n` as exactly two decimal digits (`%m`, `%d`). */
  function Pad2(n: int): (s: string)
    requires 0 <= n < 100
    ensures |s| == 2 && forall i | 0 <= i < 2 :: IsDigit(s[i])
  {
    [DigitChar(n / 10), DigitChar(n % 10)]
  }

  /** `n` as exactly four decimal digits (`%Y`). */
  function Pad4(n: int): (s: string)
    requires 0 <= n < 10000
    ensures |s| == 4 && forall i | 0 <= i < 4 :: IsDigit(s[i])
  {
    [DigitChar(n / 1000), DigitChar(n / 100 % 10), DigitChar(n / 10 % 10), DigitChar(n % 10)]
  }

  lemma Pad2Value(n: int)
    requires 0 <= n < 100
    ensures DecimalValue(Pad2(n)) == n
  {
    var a, b := DigitChar(n / 10), DigitChar(n % 10);
    DecimalValueSnoc([], a);
    assert [] + [a] == [a];
    DecimalValueSnoc([a], b);
    assert [a] + [b] == Pad2(n);
  }

  lemma Pad4Value(n: int)
    requires 0 <= n < 10000
    ensures DecimalValue(Pad4(n)) == n
  {
    var x := Pad4(n);
    DecimalValue4(x);
    FourDigits(n);
  }

  /** The four decimal digits of `n` add back up to `n`. */
  lemma FourDigits(n: int)
    requires 0 <= n < 10000
    ensures n / 1000 * 1000 + n / 100 % 10 * 100 + n / 10 % 10 * 10 + n % 10 == n
  {
    assert n / 1000 * 10 + n / 100 % 10 == n / 100;
    assert n / 100 * 10 + n / 10 % 10 == n / 10;
    assert n / 10 * 10 + n % 10 == n;
  }

  /** Two digits read back by `Pad2`. */
  lemma Pad2OfDigits(x: string)
    requires |x| == 2 && AllDigits(x)
    ensures DecimalValue(x) < 100 && Pad2(DecimalValue(x)) == x
  {
    var a, b := x[0], x[1];
    DecimalValueSnoc([], a);
    assert [] + [a] == [a];
    DecimalValueSnoc([a], b);
    assert [a] + [b] == x;
  }

  /** Four digits read back by `Pad4`. */
  lemma Pad4OfDigits(x: string)
    requires |x| == 4 && AllDigits(x)
    ensures DecimalValue(x) < 10000 && Pad4(DecimalValue(x)) == x
  {
    var va, vb, vc, vd := DigitValue(x[0]), DigitValue(x[1]), DigitValue(x[2]), DigitValue(x[3]);
    DecimalValue4(x);
    DigitsOfValue(va, vb, vc, vd);
    var p := Pad4(DecimalValue(x));
    assert p[0] == x[0] && p[1] == x[1] && p[2] == x[2] && p[3] == x[3];
  }

  /** The value of four digits has those digits. */
  lemma DigitsOfValue(va: nat, vb: nat, vc: nat, vd: nat)
    requires va < 10 && vb < 10 && vc < 10 && vd < 10
    ensures var n := va * 1000 + vb * 100 + vc * 10 + vd;
      n < 10000 && n / 1000 == va && n / 100 % 10 == vb && n / 10 % 10 == vc && n % 10 == vd
  {
    var n := va * 1000 + vb * 100 + vc * 10 + vd;
    DivMod(n, va, 1000, vb * 100 + vc * 10 + vd);
    DivMod(n, va * 10 + vb, 100, vc * 10 + vd);
    DivMod(va * 10 + vb, va, 10, vb);
    DivMod(n, va * 100 + vb * 10 + vc, 10, vd);
    DivMod(va * 100 + vb * 10 + vc, va * 10 + vb, 10, vc);
  }

  lemma DecimalValue4(x: string)
    requires |x| == 4 && AllDigits(x)
    ensures DecimalValue(x) ==
      DigitValue(x[0]) * 1000 + DigitValue(x[1]) * 100 + DigitValue(x[2]) * 10 + DigitValue(x[3])
  {
    var a, b, c, d := x[0], x[1], x[2], x[3];
    DecimalValueSnoc([], a);
    assert [] + [a] == [a];
    DecimalValueSnoc([a], b);
    assert [a] + [b] == [a, b];
    DecimalValueSnoc([a, b], c);
    assert [a, b] + [c] == [a, b, c];
    DecimalValueSnoc([a, b, c], d);
    assert [a, b, c] + [d] == x;
  }

  /** Division with a known quotient and remainder. */
  lemma DivMod(n: int, q: int, k: int, r: int)
    requires 0 < k && 0 <= r < k && n == q * k + r
    ensures n / k == q && n % k == r
  {
    var q', r' := n / k, n % k;
    assert (q - q') * k == r' - r;
    if q' < q {
      MulAtLeast(q - q', k);
    } else if q < q' {
      MulAtLeast(q' - q, k);
    }
  }

  lemma MulAtLeast(a: int, k: int)
    requires 1 <= a && 0 < k
    ensures a * k >= k
  {
  }

  /** `d.strftime('%Y/%m/%d/')`. */
  function DayFragment(d: Date): (s: string)
    requires ValidDate(d)
    ensures |s| == 11 && s[4] == '/' && s[7] == '/' && s[10] == '/'
  {
    Pad4(d.year) + "/" + Pad2(d.month) + "/" + Pad2(d.day) + "/"
  }

  /** Distinct dates give distinct fragments: the fragment's digit fields read back as the date. */
  lemma DayFragmentInjective(a: Date, b: Date)
    requires ValidDate(a) && ValidDate(b) && DayFragment(a) == DayFragment(b)
    ensures a == b
  {
    var s, t := DayFragment(a), DayFragment(b);
    assert s[0..4] == Pad4(a.year) && t[0..4] == Pad4(b.year);
    assert s[5..7] == Pad2(a.month) && t[5..7] == Pad2(b.month);
    assert s[8..10] == Pad2(a.day) && t[8..10] == Pad2(b.day);
    Pad4Value(a.year);
    Pad4Value(b.year);
    Pad2Value(a.month);
    Pad2Value(b.month);
    Pad2Value(a.day);
    Pad2Value(b.day);
  }
}

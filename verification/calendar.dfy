// The Gregorian calendar as nt/ctime.c counts it, and what a broken-down time stands for.

module Calendar {
  import opened Arithmetic

  const SECSPERMIN := 60
  const MINSPERHOUR := 60
  const HOURSPERDAY := 24
  const SECSPERHOUR := 3600
  const SECSPERDAY := 86400
  const DAYSPERWEEK := 7
  const MONSPERYEAR: nat := 12
  const EPOCH_YEAR := 1970
  const EPOCH_WDAY := 4            // a Thursday
  const TM_YEAR_BASE := 1900
  const INT_MIN := -0x8000_0000
  const INT_MAX := 0x7FFF_FFFF

  /** C division and remainder truncate toward zero. */
  function CDiv(a: int, b: nat): int
    requires b > 0
  {
    if a >= 0 then a / b else -((-a) / b)
  }

  function CMod(a: int, b: nat): int
    requires b > 0
  {
    if a >= 0 then a % b else -((-a) % b)
  }

  lemma CDivMod(a: int, b: nat)
    requires b > 0
    ensures a == CDiv(a, b) * b + CMod(a, b) && CMod(a, b) < b && CMod(a, b) + b > 0
    ensures CMod(a, b) >= 0 ==> CMod(a, b) == a % b
    ensures CMod(a, b) < 0 ==> CMod(a, b) + b == a % b
  {
    if a < 0 {
      var q, r := (-a) / b, (-a) % b;
      assert -a == b * q + r;
      if r == 0 {
        Remainder(a, b, -q, 0);
      } else {
        Remainder(a, b, -q - 1, b - r);
      }
    }
  }

  // ---- years and months ----

  predicate IsLeap(y: int) { (y % 4 == 0 && y % 100 != 0) || y % 400 == 0 }

  function YearLen(y: int): (n: nat)
    ensures 365 <= n <= 366
  {
    if IsLeap(y) then 366 else 365
  }

  function MonLen(leap: bool, m: nat): (n: nat)
    requires m < MONSPERYEAR
    ensures 28 <= n <= 31
  {
    if m == 1 then (if leap then 29 else 28)
    else if m == 3 || m == 5 || m == 8 || m == 10 then 30
    else 31
  }

  /** Days from the Epoch to January 1 of a year. */
  function YearStart(y: int): int
    decreases if y >= EPOCH_YEAR then y - EPOCH_YEAR else EPOCH_YEAR - y
  {
    if y == EPOCH_YEAR then 0
    else if y > EPOCH_YEAR then YearStart(y - 1) + YearLen(y - 1)
    else YearStart(y + 1) - YearLen(y)
  }

  lemma NextYear(y: int)
    ensures YearStart(y + 1) == YearStart(y) + YearLen(y)
  {
  }

  lemma {:induction false} YearsInOrder(y: int, z: int)
    requires y < z
    ensures YearStart(y) + YearLen(y) <= YearStart(z)
    decreases z - y
  {
    NextYear(y);
    if y + 1 < z { YearsInOrder(y + 1, z); }
  }

  /** Days from January 1 to the first of a month. */
  function MonStart(leap: bool, m: nat): nat
    requires m <= MONSPERYEAR
  {
    if m == 0 then 0 else MonStart(leap, m - 1) + MonLen(leap, m - 1)
  }

  lemma {:induction false} MonthsInOrder(leap: bool, m: nat, n: nat)
    requires m < n <= MONSPERYEAR
    ensures MonStart(leap, m) + MonLen(leap, m) <= MonStart(leap, n)
    decreases n - m
  {
    if m + 1 < n {
      MonthsInOrder(leap, m + 1, n);
    }
  }

  lemma WholeYear(leap: bool)
    ensures MonStart(leap, 12) == if leap then 366 else 365
  {
    FirstOfMonth(leap, 12);
  }

  /** The months of a common year start on these days; from March on a leap year is one day later. */
  lemma FirstOfMonth(leap: bool, m: nat)
    requires m <= MONSPERYEAR
    ensures MonStart(leap, m)
      == [0, 31, 59, 90, 120, 151, 181, 212, 243, 273, 304, 334, 365][m] + (if leap && m >= 2 then 1 else 0)
  {
    if m > 0 { FirstOfMonth(leap, m - 1); }
  }

  // ---- broken-down times ----

  /** struct tm; tm_year counts from 1900. */
  datatype Tm = Tm(sec: int, min: int, hour: int, mday: int, mon: int, year: int, wday: int, yday: int, isdst: int)

  predicate ValidTm(a: Tm) {
    && 0 <= a.sec < 60 && 0 <= a.min < 60 && 0 <= a.hour < 24
    && 0 <= a.mon < 12 && 1 <= a.mday <= MonLen(IsLeap(a.year + TM_YEAR_BASE), a.mon)
  }

  /** The day a date names, counted from the Epoch; the day of the month may lie outside the month. */
  function DayOf(a: Tm): int
    requires 0 <= a.mon < 12
  {
    var y := a.year + TM_YEAR_BASE;
    YearStart(y) + MonStart(IsLeap(y), a.mon) + a.mday - 1
  }

  /** The number of seconds since the Epoch. */
  function SecondsOf(a: Tm): int
    requires 0 <= a.mon < 12
  {
    DayOf(a) * SECSPERDAY + a.hour * SECSPERHOUR + a.min * SECSPERMIN + a.sec
  }

  /** tmcomp: the sign tells which time is later. */
  function TmComp(a: Tm, b: Tm): int {
    if a.year != b.year then a.year - b.year
    else if a.mon != b.mon then a.mon - b.mon
    else if a.mday != b.mday then a.mday - b.mday
    else if a.hour != b.hour then a.hour - b.hour
    else if a.min != b.min then a.min - b.min
    else a.sec - b.sec
  }

  lemma DayInYear(a: Tm)
    requires ValidTm(a)
    ensures var y := a.year + TM_YEAR_BASE; YearStart(y) <= DayOf(a) < YearStart(y) + YearLen(y)
  {
    var leap := IsLeap(a.year + TM_YEAR_BASE);
    WholeYear(leap);
    if a.mon < 11 { MonthsInOrder(leap, a.mon, 12); }
  }

  /** Comparing dates is comparing day numbers. */
  lemma DatesInOrder(a: Tm, b: Tm)
    requires ValidTm(a) && ValidTm(b)
    ensures a.year < b.year ==> DayOf(a) < DayOf(b)
    ensures a.year == b.year && a.mon < b.mon ==> DayOf(a) < DayOf(b)
    ensures a.year == b.year && a.mon == b.mon ==> DayOf(a) - DayOf(b) == a.mday - b.mday
  {
    if a.year < b.year {
      DayInYear(a);
      DayInYear(b);
      YearsInOrder(a.year + TM_YEAR_BASE, b.year + TM_YEAR_BASE);
    } else if a.year == b.year && a.mon < b.mon {
      MonthsInOrder(IsLeap(a.year + TM_YEAR_BASE), a.mon, b.mon);
    }
  }

  /** tmcomp orders valid times as the seconds they stand for: breaking down is strictly monotone. */
  lemma CompareIsOrder(a: Tm, b: Tm)
    requires ValidTm(a) && ValidTm(b)
    ensures TmComp(a, b) < 0 <==> SecondsOf(a) < SecondsOf(b)
    ensures TmComp(a, b) == 0 <==> SecondsOf(a) == SecondsOf(b)
    ensures TmComp(a, b) > 0 <==> SecondsOf(a) > SecondsOf(b)
  {
    hide YearStart, MonStart, IsLeap, MonLen;
    DatesInOrder(a, b);
    DatesInOrder(b, a);
    ClockInOrder(DayOf(a), a.hour, a.min, a.sec, DayOf(b), b.hour, b.min, b.sec);
  }

  lemma ClockInOrder(d: int, h: int, m: int, s: int, d': int, h': int, m': int, s': int)
    requires 0 <= s < 60 && 0 <= m < 60 && 0 <= h < 24 && 0 <= s' < 60 && 0 <= m' < 60 && 0 <= h' < 24
    ensures var t, t' := d * SECSPERDAY + h * SECSPERHOUR + m * SECSPERMIN + s,
                         d' * SECSPERDAY + h' * SECSPERHOUR + m' * SECSPERMIN + s';
      && (d < d' ==> t < t') && (d > d' ==> t > t')
      && (d == d' && h < h' ==> t < t') && (d == d' && h > h' ==> t > t')
      && (d == d' && h == h' && m < m' ==> t < t') && (d == d' && h == h' && m > m' ==> t > t')
      && (d == d' && h == h' && m == m' ==> t - t' == s - s')
  {
  }
}

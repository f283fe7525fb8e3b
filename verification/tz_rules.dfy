// transtime and the rule loop of tzparse in nt/ctime.c: when a POSIX TZ rule takes effect in a year.

module TzRules {
  import opened Arithmetic
  import opened Calendar

  datatype Rule =
    | JulianDay(day: int, time: int)                          // Jn
    | DayOfYear(day: int, time: int)                          // n
    | MonthNthDay(mon: int, week: int, day: int, time: int)   // Mm.n.d

  /** The ranges getrule accepts. */
  predicate RuleOk(r: Rule) {
    match r
    case JulianDay(day, _) => 1 <= day <= 365
    case DayOfYear(day, _) => 0 <= day <= 365
    case MonthNthDay(mon, week, day, _) => 1 <= mon <= 12 && 1 <= week <= 5 && 0 <= day <= 6
  }

  // ---- the day a rule names ----

  predicate OnWeekday(year: int, d: int, wday: int) { (EPOCH_WDAY + YearStart(year) + d) % DAYSPERWEEK == wday }

  /** Day d of the year lies in month m (from 0), falls on weekday wday, and is the week-th such day of the
      month, or the last one if there are fewer. */
  predicate NthWeekday(year: int, m: nat, week: int, wday: int, d: int)
    requires m < 12
  {
    var k := d - MonStart(IsLeap(year), m);
    var n := MonLen(IsLeap(year), m);
    && 0 <= k < n && OnWeekday(year, d, wday)
    && (k / DAYSPERWEEK == week - 1 || (k / DAYSPERWEEK < week - 1 && k + DAYSPERWEEK >= n))
  }

  /** At most one day is meant. */
  lemma OnlyOneDay(year: int, m: nat, week: int, wday: int, d: int, e: int)
    requires m < 12 && NthWeekday(year, m, week, wday, d) && NthWeekday(year, m, week, wday, e)
    ensures d == e
  {
    if d < e { LaterIsAnother(year, m, week, wday, d, e); }
    if e < d { LaterIsAnother(year, m, week, wday, e, d); }
  }

  lemma LaterIsAnother(year: int, m: nat, week: int, wday: int, d: int, e: int)
    requires m < 12 && d < e && OnWeekday(year, d, wday) && NthWeekday(year, m, week, wday, e)
    ensures !NthWeekday(year, m, week, wday, d)
  {
    var a := EPOCH_WDAY + YearStart(year);
    assert (a + d) % 7 == (a + e) % 7;
    assert e - d == 7 * ((a + e) / 7 - (a + d) / 7);
    hide OnWeekday, YearStart, MonStart, IsLeap, MonLen;
  }

  /** Day number of the year of the n-th day that is not February 29. */
  function JulianDayOf(leap: bool, n: int): int { if leap && n >= 60 then n else n - 1 }

  /** Jn names the same month and day in every year. */
  lemma JulianMeans(leap: bool, n: int, m: nat, k: nat)
    requires m < 12 && k < MonLen(false, m) && MonStart(false, m) + k == n - 1
    ensures JulianDayOf(leap, n) == MonStart(leap, m) + k && k < MonLen(leap, m)
  {
    FirstOfMonth(false, m);
    FirstOfMonth(leap, m);
    if m < 11 { MonthsInOrder(false, m, m + 1); }
  }

  // ---- Zeller's congruence ----

  /** Day numbers in closed form. */
  lemma {:induction false} YearStartIs(y: int)
    requires y >= EPOCH_YEAR
    ensures YearStart(y) == 365 * (y - EPOCH_YEAR) + (y - 1) / 4 - (y - 1) / 100 + (y - 1) / 400 - 477
  {
    if y > EPOCH_YEAR {
      YearStartIs(y - 1);
      Quotient(y - 1, 4);
      Quotient(y - 1, 100);
      Quotient(y - 1, 400);
      Multiples(y - 1);
    }
  }

  /** Quotients grow by one at the multiples of the divisor. */
  lemma Quotient(x: int, d: nat)
    requires d > 1
    ensures x / d - (x - 1) / d == if x % d == 0 then 1 else 0
  {
    if x % d == 0 {
      Remainder(x - 1, d, x / d - 1, d - 1);
    } else {
      Remainder(x - 1, d, x / d, x % d - 1);
    }
  }

  lemma Multiples(x: int)
    ensures x % 400 == 0 ==> x % 100 == 0
    ensures x % 100 == 0 ==> x % 4 == 0
  {
  }

  /** The code's formula, before the remainder is taken. */
  function ZellerSum(mon: int, year: int): int
    requires 1 <= mon <= 12 && year >= 1
  {
    var m1 := (mon + 9) % 12 + 1;
    var yy0 := if mon <= 2 then year - 1 else year;
    var yy1, yy2 := yy0 / 100, yy0 % 100;
    (26 * m1 - 2) / 10 + 1 + yy2 + yy2 / 4 + yy1 / 4 - 2 * yy1
  }

  /** A year in terms of its century and the year in the century. */
  lemma Century(y: nat)
    ensures var c, z := y / 100, y % 100;
      y == 100 * c + z && y / 4 == 25 * c + z / 4 && y / 400 == c / 4
  {
    var c, z := y / 100, y % 100;
    Remainder(y, 4, 25 * c + z / 4, z % 4);
    Remainder(y, 400, c / 4, 100 * (c % 4) + z);
  }

  lemma SameRemainder(a: int, b: int, k: int)
    requires a - b == 7 * k
    ensures a % 7 == b % 7
  {
  }

  /** Day of a common year on which a month starts. */
  function FirstDay(mon: int): int
    requires 1 <= mon <= 12
  {
    [0, 31, 59, 90, 120, 151, 181, 212, 243, 273, 304, 334][mon - 1]
  }

  /** Zeller's congruence gives the weekday of the first of the month. */
  lemma ZellerIsWeekday(mon: int, year: int)
    requires 1 <= mon <= 12 && year >= EPOCH_YEAR
    ensures ZellerSum(mon, year) % 7 == (EPOCH_WDAY + YearStart(year) + MonStart(IsLeap(year), mon - 1)) % 7
  {
    var y := if mon <= 2 then year - 1 else year;
    var c, z := y / 100, y % 100;
    Century(y);
    YearStartIs(year);
    FirstOfMonth(IsLeap(year), mon - 1);
    var first := EPOCH_WDAY + YearStart(year) + MonStart(IsLeap(year), mon - 1);
    if mon <= 2 {
      assert first == 365 * (y - 1969) + y / 4 - c + y / 400 - 473 + FirstDay(mon);
    } else {
      Quotient(year, 4);
      Quotient(year, 100);
      Quotient(year, 400);
      Multiples(year);
      assert first == 365 * (y - 1970) + y / 4 - c + y / 400 - 473 + FirstDay(mon);
    }
    var zeller := (26 * ((mon + 9) % 12 + 1) - 2) / 10;
    Exact(mon);
    assert first - ZellerSum(mon, year)
      == 7 * (5218 * c + 52 * z) + (FirstDay(mon) - zeller - 1 - 473 - 365 * (if mon <= 2 then 1969 else 1970));
    SameRemainder(first, ZellerSum(mon, year), 5218 * c + 52 * z + WeeksOff(mon));
  }

  /** How many weeks the formula and the count of days are apart, for year 0 of century 0. */
  function WeeksOff(mon: int): int
    requires 1 <= mon <= 12
  {
    var zeller := (26 * ((mon + 9) % 12 + 1) - 2) / 10;
    (FirstDay(mon) - zeller - 1 - 473 - 365 * (if mon <= 2 then 1969 else 1970)) / 7
  }

  lemma Exact(mon: int)
    requires 1 <= mon <= 12
    ensures var zeller := (26 * ((mon + 9) % 12 + 1) - 2) / 10;
      (FirstDay(mon) - zeller - 1 - 473 - 365 * (if mon <= 2 then 1969 else 1970)) % 7 == 0
  {
  }

  // ---- transtime ----

  /** The day of the year a rule names. */
  ghost predicate RuleDay(r: Rule, year: int, d: int)
    requires RuleOk(r)
  {
    match r
    case JulianDay(day, _) => d == JulianDayOf(IsLeap(year), day)
    case DayOfYear(day, _) => d == day
    case MonthNthDay(mon, week, day, _) => year >= EPOCH_YEAR ==> NthWeekday(year, mon - 1, week, day, d)
  }

  /** Day of the week of the first of a month. */
  method FirstWeekday(mon: int, year: int) returns (dow: int)
    requires 1 <= mon <= 12
    ensures 0 <= dow < 7
    ensures year >= EPOCH_YEAR ==> dow == (EPOCH_WDAY + YearStart(year) + MonStart(IsLeap(year), mon - 1)) % 7
  {
    hide YearStart, MonStart, IsLeap;
    var m1 := (mon + 9) % 12 + 1;
    var yy0 := if mon <= 2 then year - 1 else year;
    var yy1, yy2 := CDiv(yy0, 100), CMod(yy0, 100);
    var sum := (26 * m1 - 2) / 10 + 1 + yy2 + CDiv(yy2, 4) + CDiv(yy1, 4) - 2 * yy1;
    dow := CMod(sum, DAYSPERWEEK);
    CDivMod(sum, DAYSPERWEEK);
    if dow < 0 { dow := dow + DAYSPERWEEK; }
    if year >= EPOCH_YEAR {
      assert sum == ZellerSum(mon, year);
      ZellerIsWeekday(mon, year);
    }
  }

  /** Zero-origin day of the month for Mm.n.d. */
  method DayInMonth(year: int, mon: int, week: int, day: int) returns (d: int)
    requires 1 <= mon <= 12 && 1 <= week <= 5 && 0 <= day <= 6
    ensures year >= EPOCH_YEAR ==> NthWeekday(year, mon - 1, week, day, MonStart(IsLeap(year), mon - 1) + d)
  {
    hide YearStart, MonStart, IsLeap, MonLen;
    var dow := FirstWeekday(mon, year);
    var n := MonLen(IsLeap(year), mon - 1);
    ghost var first := EPOCH_WDAY + YearStart(year) + MonStart(IsLeap(year), mon - 1);
    d := day - dow;
    if d < 0 {
      d := d + DAYSPERWEEK;
    }
    FirstSuchDay(first, dow, day, d);
    var i := 1;
    while i < week
      invariant 1 <= i <= week && 0 <= d < n && d / 7 == i - 1
        && d % 7 == (if day >= dow then day - dow else day - dow + 7)
      decreases week - i
    {
      if d + DAYSPERWEEK >= n { break; }
      d := d + DAYSPERWEEK;
      i := i + 1;
    }
    if year >= EPOCH_YEAR { SameWeekday(first, dow, day, d); }
  }

  lemma FirstSuchDay(first: int, dow: int, day: int, d: int)
    requires 0 <= dow <= 6 && 0 <= day <= 6 && d == if day >= dow then day - dow else day - dow + 7
    ensures 0 <= d < 7 && d / 7 == 0 && d % 7 == d
  {
  }

  lemma SameWeekday(first: int, dow: int, day: int, d: int)
    requires 0 <= dow <= 6 && 0 <= day <= 6 && dow == first % 7
    requires d % 7 == if day >= dow then day - dow else day - dow + 7
    ensures (first + d) % 7 == day
  {
    var r := d % 7;
    assert first + d == 7 * (first / 7 + d / 7) + (dow + r);
    if dow + r < 7 {
      Remainder(first + d, 7, first / 7 + d / 7, day);
    } else {
      Remainder(first + d, 7, first / 7 + d / 7 + 1, day);
    }
  }

  /** transtime: the moment is the rule's time of day, adjusted by the offset, on the day the rule names. */
  method TransTime(janfirst: int, year: int, rule: Rule, offset: int) returns (value: int, ghost d: int)
    requires RuleOk(rule)
    ensures RuleDay(rule, year, d)
    ensures value == janfirst + d * SECSPERDAY + rule.time + offset
  {
    hide YearStart, MonStart, IsLeap, MonLen, NthWeekday;
    var leapyear := IsLeap(year);
    match rule {
      case JulianDay(day, _) =>
        value := janfirst + (day - 1) * SECSPERDAY;
        if leapyear && day >= 60 {
          value := value + SECSPERDAY;
        }
        d := JulianDayOf(leapyear, day);
      case DayOfYear(day, _) =>
        value := janfirst + day * SECSPERDAY;
        d := day;
      case MonthNthDay(mon, week, day, _) =>
        value := janfirst;
        var i: nat := 0;
        NoMonths(leapyear);
        while i < mon - 1
          invariant i <= mon - 1 && value == janfirst + MonStart(leapyear, i) * SECSPERDAY
        {
          NextMonth(leapyear, i);
          value := value + MonLen(leapyear, i) * SECSPERDAY;
          i := i + 1;
        }
        var k := DayInMonth(year, mon, week, day);
        value := value + k * SECSPERDAY;
        d := MonStart(leapyear, mon - 1) + k;
    }
    value := value + rule.time + offset;
  }

  lemma NoMonths(leap: bool)
    ensures MonStart(leap, 0) == 0
  {
  }

  lemma NextMonth(leap: bool, m: nat)
    requires m < 12
    ensures MonStart(leap, m + 1) == MonStart(leap, m) + MonLen(leap, m)
  {
  }

  // ---- tzparse ----

  const LAST_YEAR := 2037

  /** Two transitions of a year, in order, each with its type: 0 where daylight saving begins, 1 where it ends. */
  ghost predicate YearOk(start: Rule, end: Rule, stdoffset: int, dstoffset: int, year: int, ats: seq<int>,
                         types: seq<int>)
    requires RuleOk(start) && RuleOk(end)
  {
    && |ats| == |types| == 2 && ats[0] <= ats[1]
    && exists d, e ::
         && RuleDay(start, year, d) && RuleDay(end, year, e)
         && var s := (YearStart(year) + d) * SECSPERDAY + start.time + stdoffset;
            var t := (YearStart(year) + e) * SECSPERDAY + end.time + dstoffset;
            (ats == [s, t] && types == [0, 1]) || (ats == [t, s] && types == [1, 0])
  }

  /** The loop of tzparse: `janfirst` is the start of each year from 1970 to 2037, so the table lists the
      transitions of every year. */
  method FillRules(start: Rule, end: Rule, stdoffset: int, dstoffset: int) returns (ats: seq<int>, types: seq<int>)
    requires RuleOk(start) && RuleOk(end)
    ensures |ats| == |types| == 2 * (LAST_YEAR - EPOCH_YEAR + 1)
    ensures forall k: nat :: k <= LAST_YEAR - EPOCH_YEAR ==>
      YearOk(start, end, stdoffset, dstoffset, EPOCH_YEAR + k, ats[2 * k..2 * k + 2], types[2 * k..2 * k + 2])
  {
    hide YearStart, IsLeap, RuleDay;
    ats, types := [], [];
    var janfirst := 0;
    AtEpoch();
    var year := EPOCH_YEAR;
    while year <= LAST_YEAR
      invariant EPOCH_YEAR <= year <= LAST_YEAR + 1
      invariant janfirst == YearStart(year) * SECSPERDAY
      invariant |ats| == |types| == 2 * (year - EPOCH_YEAR)
      invariant forall k: nat :: k < year - EPOCH_YEAR ==>
        YearOk(start, end, stdoffset, dstoffset, EPOCH_YEAR + k, ats[2 * k..2 * k + 2], types[2 * k..2 * k + 2])
      decreases LAST_YEAR - year
    {
      var starttime, d := TransTime(janfirst, year, start, stdoffset);
      var endtime, e := TransTime(janfirst, year, end, dstoffset);
      ghost var ats0, types0 := ats, types;
      ghost var at2, type2;
      if starttime > endtime {
        at2, type2 := [endtime, starttime], [1, 0];
        ats := ats + [endtime];
        types := types + [1];
        ats := ats + [starttime];
        types := types + [0];
      } else {
        at2, type2 := [starttime, endtime], [0, 1];
        ats := ats + [starttime];
        types := types + [0];
        ats := ats + [endtime];
        types := types + [1];
      }
      assert YearOk(start, end, stdoffset, dstoffset, year, at2, type2);
      AddYear(start, end, stdoffset, dstoffset, year - EPOCH_YEAR, ats0, types0, at2, type2, ats, types);
      NextYear(year);
      janfirst := janfirst + YearLen(year) * SECSPERDAY;
      year := year + 1;
    }
  }

  lemma AtEpoch()
    ensures YearStart(EPOCH_YEAR) == 0
  {
  }

  lemma AddYear(start: Rule, end: Rule, stdoffset: int, dstoffset: int, n: nat, ats0: seq<int>, types0: seq<int>,
                at2: seq<int>, type2: seq<int>, ats: seq<int>, types: seq<int>)
    requires RuleOk(start) && RuleOk(end) && |ats0| == |types0| == 2 * n
    requires forall k: nat :: k < n ==>
      YearOk(start, end, stdoffset, dstoffset, EPOCH_YEAR + k, ats0[2 * k..2 * k + 2], types0[2 * k..2 * k + 2])
    requires YearOk(start, end, stdoffset, dstoffset, EPOCH_YEAR + n, at2, type2) && |at2| == |type2| == 2
    requires ats == ats0 + at2 && types == types0 + type2
    ensures forall k: nat :: k <= n ==>
      YearOk(start, end, stdoffset, dstoffset, EPOCH_YEAR + k, ats[2 * k..2 * k + 2], types[2 * k..2 * k + 2])
  {
    hide YearOk;
    forall k: nat | k <= n
      ensures YearOk(start, end, stdoffset, dstoffset, EPOCH_YEAR + k, ats[2 * k..2 * k + 2], types[2 * k..2 * k + 2])
    {
      if k < n {
        assert ats[2 * k..2 * k + 2] == ats0[2 * k..2 * k + 2] && types[2 * k..2 * k + 2] == types0[2 * k..2 * k + 2];
      } else {
        assert ats[2 * k..2 * k + 2] == at2 && types[2 * k..2 * k + 2] == type2;
      }
    }
  }
}

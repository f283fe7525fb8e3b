// nt/ctime.c: timesub breaks seconds down into a date, time2 finds the seconds again by binary search.
// There are no leap-second tables here.

module CTime {
  import opened Arithmetic
  import opened Calendar

  // ---- timesub ----

  /** What timesub fills in for the moment `secs`. */
  ghost predicate BrokenDown(secs: int, tm: Tm) {
    && ValidTm(tm) && SecondsOf(tm) == secs && tm.isdst == 0
    && tm.wday == (EPOCH_WDAY + secs / SECSPERDAY) % DAYSPERWEEK
    && tm.yday == secs / SECSPERDAY - YearStart(tm.year + TM_YEAR_BASE)
  }

  method TimeSub(t: int, offset: int) returns (tm: Tm)
    ensures BrokenDown(t + offset, tm)
  {
    hide YearStart, MonStart, IsLeap, MonLen;
    var days, rem := CDiv(t, SECSPERDAY), CMod(t, SECSPERDAY);
    CDivMod(t, SECSPERDAY);
    rem := rem + offset;
    while rem < 0
      invariant days * SECSPERDAY + rem == t + offset
      decreases -rem
    {
      rem := rem + SECSPERDAY;
      days := days - 1;
    }
    while rem >= SECSPERDAY
      invariant days * SECSPERDAY + rem == t + offset && rem >= 0
      decreases rem
    {
      rem := rem - SECSPERDAY;
      days := days + 1;
    }
    Remainder(t + offset, SECSPERDAY, days, rem);
    var hour := rem / SECSPERHOUR;
    var rest := rem % SECSPERHOUR;
    var min, sec := rest / SECSPERMIN, rest % SECSPERMIN;
    var wday := CMod(EPOCH_WDAY + days, DAYSPERWEEK);
    CDivMod(EPOCH_WDAY + days, DAYSPERWEEK);
    if wday < 0 { wday := wday + DAYSPERWEEK; }
    var y, yday := YearOf(days);
    var mon, mday := MonthOf(IsLeap(y), yday);
    tm := Tm(sec, min, hour, mday, mon, y - TM_YEAR_BASE, wday, yday, 0);
  }

  method YearOf(days0: int) returns (y: int, days: nat)
    ensures days0 == YearStart(y) + days && days < YearLen(y)
  {
    hide YearStart, IsLeap;
    y := EPOCH_YEAR;
    var d := days0;
    AtEpoch();
    if d >= 0 {
      while d >= YearLen(y)
        invariant days0 == YearStart(y) + d && d >= 0
        decreases d
      {
        NextYear(y);
        d := d - YearLen(y);
        y := y + 1;
      }
    } else {
      while d < 0
        invariant days0 == YearStart(y) + d
        invariant d < YearLen(y)
        decreases -d
      {
        y := y - 1;
        NextYear(y);
        d := d + YearLen(y);
      }
    }
    days := d;
  }

  lemma AtEpoch()
    ensures YearStart(EPOCH_YEAR) == 0
  {
  }

  method MonthOf(leap: bool, yday: nat) returns (mon: nat, mday: int)
    requires yday < if leap then 366 else 365
    ensures mon < 12 && 1 <= mday <= MonLen(leap, mon) && yday == MonStart(leap, mon) + mday - 1
  {
    mon := 0;
    var d := yday;
    WholeYear(leap);
    while d >= MonLen(leap, mon)
      invariant mon < 12 && d >= 0 && yday == MonStart(leap, mon) + d
      decreases d
    {
      d := d - MonLen(leap, mon);
      mon := mon + 1;
    }
    mday := d + 1;
  }

  // ---- normalize ----

  /** normalize as the code has it. */
  function Normalize(tens: int, units: int, base: nat): (r: (int, int))
    requires base > 0
  {
    if units >= base then (tens + units / base, units % base)
    else if units < 0 then
      var units1 := units + base;
      if units1 < 0 then (tens - 1 - (1 + (-units1) / base), base - (-units1) % base)
      else (tens - 1, units1)
    else (tens, units)
  }

  /** Normalizing keeps the total, and brings the units into range exactly when they are not a multiple
      of the base that is -2 * base or less; in that case they come out as the base itself. */
  lemma NormalizeMeans(tens: int, units: int, base: nat)
    requires base > 0
    ensures var (t, u) := Normalize(tens, units, base);
      && t * base + u == tens * base + units
      && 0 <= u <= base
      && (u == base <==> units <= -2 * base && units % base == 0)
  {
    if units >= base {
      High(tens, base, units / base, units % base);
      assert units == base * (units / base) + units % base;
    } else if units + base < 0 {
      var v := -(units + base);
      assert v == base * (v / base) + v % base;
      Low(tens, base, v / base, v % base);
      Shifted(units, v, base);
    } else if units < 0 {
      Distribute(tens, -1, base);
    }
  }

  lemma High(tens: int, base: nat, q: int, r: int)
    ensures (tens + q) * base + r == tens * base + (base * q + r)
  {
  }

  lemma Low(tens: int, base: nat, q: int, r: int)
    ensures (tens - 1 - (1 + q)) * base + (base - r) == tens * base - (base * q + r) - base
  {
  }

  lemma Distribute(a: int, b: int, c: int)
    ensures (a + b) * c == a * c + b * c
  {
  }

  lemma Shifted(units: int, v: int, base: nat)
    requires base > 0 && v == -(units + base) && v > 0
    ensures units % base == 0 <==> v % base == 0
    ensures v % base == 0 ==> v >= base
  {
    var q, r := v / base, v % base;
    assert v == base * q + r;
    if r == 0 {
      Distribute(-q, -1, base);
      Remainder(units, base, -q - 1, 0);
    } else {
      Distribute(-q, -2, base);
      Remainder(units, base, -q - 2, base - r);
    }
  }

  /** Two hours before midnight, written as 0 hours and -120 minutes, normalizes to 60 minutes. */
  lemma NormalizeFails()
    ensures Normalize(0, -120, 60) == (-3, 60)
  {
  }

  // ---- time2 ----

  /** A 32-bit time_t: addition may wrap around. */
  function Wrap32(t: int): int { (t + 0x8000_0000) % 0x1_0000_0000 - 0x8000_0000 }

  predicate InTimeT(t: int) { INT_MIN <= t <= INT_MAX }

  /** Outcomes of time2: a time, WRONG, or a read past the end of a month table. */
  datatype Outcome = Found(t: int, tm: Tm) | Wrong | BadIndex

  /** The remaining search window: 2^bits values on each side of t. */
  ghost predicate InWindow(t: int, bits: int, target: int)
    requires -1 <= bits
  {
    if bits < 0 then target == t else t - Pow2(bits) <= target < t + Pow2(bits)
  }

  ghost predicate NoOverflow(t: int, bits: int)
    requires -1 <= bits <= 31
  {
    if bits < 0 then INT_MIN <= t <= INT_MAX else INT_MIN + Pow2(bits) <= t <= INT_MAX + 1 - Pow2(bits)
  }

  /** The halving search finds the moment whose breakdown matches, if it is a 32-bit one. */
  method Search(your: Tm, offset: int) returns (found: bool, t: int)
    requires 0 <= your.mon < 12
    ensures found <==> ValidTm(your) && InTimeT(SecondsOf(your) - offset)
    ensures found ==> t == SecondsOf(your) - offset
  {
    hide ValidTm, SecondsOf, YearStart, BrokenDown, TmComp;
    var bits := 31;
    t := 0;
    ghost var target := SecondsOf(your) - offset;
    Pow31();
    while true
      invariant -1 <= bits <= 31 && NoOverflow(t, bits)
      invariant ValidTm(your) && InTimeT(target) ==> InWindow(t, bits, target)
      decreases bits + 1
    {
      var mytm := TimeSub(t, offset);
      Means(t + offset, mytm);
      var dir := TmComp(mytm, your);
      if dir == 0 {
        SameTime(mytm, your);
        Bounds(t, bits);
        return true, t;
      }
      if ValidTm(your) { CompareIsOrder(mytm, your); }
      if bits < 0 { return false, t; }
      bits := bits - 1;
      if bits < 0 {
        t := t - 1;
      } else if dir > 0 {
        t := t - Pow2(bits);
      } else {
        t := t + Pow2(bits);
      }
    }
  }

  lemma Means(secs: int, tm: Tm)
    requires BrokenDown(secs, tm)
    ensures ValidTm(tm) && 0 <= tm.mon < 12 && SecondsOf(tm) == secs
  {
  }

  lemma Bounds(t: int, bits: int)
    requires -1 <= bits <= 31 && NoOverflow(t, bits)
    ensures InTimeT(t)
  {
  }

  lemma SameTime(a: Tm, b: Tm)
    requires ValidTm(a) && TmComp(a, b) == 0
    ensures ValidTm(b) && SecondsOf(b) == SecondsOf(a)
  {
  }

  // ---- bringing a struct tm into range ----

  function Backward(year: int, mday: int): (r: (int, int))
    ensures r.1 > 0
    decreases if mday > 0 then 0 else 1 - mday
  {
    if mday > 0 then (year, mday) else Backward(year - 1, mday + YearLen(year - 1 + TM_YEAR_BASE))
  }

  function Forward(year: int, mon: nat, mday: int): (r: (int, nat, int))
    requires mon < 12
    ensures r.1 < 12 && r.2 <= MonLen(IsLeap(r.0 + TM_YEAR_BASE), r.1)
    ensures mday >= 1 ==> r.2 >= 1
    decreases if mday > 0 then mday else 0
  {
    var n := MonLen(IsLeap(year + TM_YEAR_BASE), mon);
    if mday <= n then (year, mon, mday)
    else if mon + 1 >= 12 then Forward(year + 1, 0, mday - n)
    else Forward(year, mon + 1, mday - n)
  }

  /** The fields after the four calls of normalize. */
  function Carried(tmp: Tm): Tm {
    var (min, sec) := if tmp.sec >= SECSPERMIN + 2 || tmp.sec < 0 then Normalize(tmp.min, tmp.sec, SECSPERMIN)
      else (tmp.min, tmp.sec);
    var (hour, min') := Normalize(tmp.hour, min, MINSPERHOUR);
    var (mday, hour') := Normalize(tmp.mday, hour, HOURSPERDAY);
    var (year, mon) := Normalize(tmp.year, tmp.mon, MONSPERYEAR);
    tmp.(sec := sec, min := min', hour := hour', mday := mday, mon := mon, year := year)
  }

  /** The date after the two loops, with the seconds still to be added. */
  function Settled(a: Tm): Tm
    requires 0 <= a.mon < 12
  {
    var (y1, d1) := Backward(a.year, a.mday);
    var (y, m, d) := Forward(y1, a.mon, d1);
    a.(year := y, mon := m, mday := d)
  }

  /** Going forward a month at a time does not change the day. */
  lemma {:induction false} ForwardKeepsDay(a: Tm)
    requires 0 <= a.mon < 12
    ensures var (y, m, d) := Forward(a.year, a.mon, a.mday); DayOf(a.(year := y, mon := m, mday := d)) == DayOf(a)
    decreases if a.mday > 0 then a.mday else 0
  {
    hide IsLeap, MonLen, YearStart, Forward;
    var leap := IsLeap(a.year + TM_YEAR_BASE);
    var n := MonLen(leap, a.mon);
    ForwardStep(a.year, a.mon, a.mday);
    if a.mday <= n {
    } else if a.mon + 1 >= 12 {
      WholeYear(leap);
      NextYear(a.year + TM_YEAR_BASE);
      ForwardKeepsDay(a.(year := a.year + 1, mon := 0, mday := a.mday - n));
    } else {
      ForwardKeepsDay(a.(mon := a.mon + 1, mday := a.mday - n));
    }
  }

  /** Going back adds up the lengths of the years gone back over. */
  lemma {:induction false} BackwardIs(year: int, mday: int)
    ensures var (y, d) := Backward(year, mday);
      y <= year && d == mday + YearStart(year + TM_YEAR_BASE) - YearStart(y + TM_YEAR_BASE) && (mday > 0 ==> y == year)
    decreases if mday > 0 then 0 else 1 - mday
  {
    hide YearStart, YearLen;
    if mday <= 0 {
      NextYear(year - 1 + TM_YEAR_BASE);
      YearNotEmpty(year - 1 + TM_YEAR_BASE);
      BackwardIs(year - 1, mday + YearLen(year - 1 + TM_YEAR_BASE));
    }
  }

  lemma YearNotEmpty(y: int)
    ensures YearLen(y) > 0
  {
  }

  /** The days gained (or, where negative, lost) by settling a date. */
  function DaysOff(a: Tm): int {
    var y := Backward(a.year, a.mday).0 + TM_YEAR_BASE;
    if a.mon < 2 then 0
    else (if IsLeap(y) then 1 else 0) - (if IsLeap(a.year + TM_YEAR_BASE) then 1 else 0)
  }

  /** Settling a date adds exactly these days. */
  lemma SettledAddsDays(a: Tm)
    requires 0 <= a.mon < 12
    ensures DayOf(Settled(a)) == DayOf(a) + DaysOff(a)
  {
    hide YearStart, Forward, Backward, IsLeap, MonStart;
    var (y1, d1) := Backward(a.year, a.mday);
    BackwardIs(a.year, a.mday);
    ForwardKeepsDay(a.(year := y1, mday := d1));
    FirstOfMonth(IsLeap(y1 + TM_YEAR_BASE), a.mon);
    FirstOfMonth(IsLeap(a.year + TM_YEAR_BASE), a.mon);
  }

  /** Settling keeps the day if and only if the month is January or February, or the year gone back to and the
      year one starts from are both leap years or both common ones. */
  lemma SettledKeepsDay(a: Tm)
    requires 0 <= a.mon < 12
    ensures DayOf(Settled(a)) == DayOf(a) <==>
            a.mon < 2 || IsLeap(Backward(a.year, a.mday).0 + TM_YEAR_BASE) == IsLeap(a.year + TM_YEAR_BASE)
  {
    SettledAddsDays(a);
  }

  /** For a date less than a year back: if and only if the month is January or February, or neither the year nor
      the one before is a leap year. */
  lemma SettledKeepsRecentDay(a: Tm)
    requires 0 <= a.mon < 12 && -365 < a.mday <= 0
    ensures DayOf(Settled(a)) == DayOf(a) <==>
            a.mon < 2 || (!IsLeap(a.year + TM_YEAR_BASE) && !IsLeap(a.year - 1 + TM_YEAR_BASE))
  {
    SettledKeepsDay(a);
    hide YearStart, Forward, MonStart;
    assert Backward(a.year, a.mday).0 == a.year - 1;
    var y := a.year + TM_YEAR_BASE;
    assert !(IsLeap(y) && IsLeap(y - 1)) by { NotBoth(y); }
  }

  lemma NotBoth(y: int)
    ensures !(IsLeap(y) && IsLeap(y - 1))
  {
    FourthYear(y);
    FourthYear(y - 1);
    hide IsLeap;
  }

  lemma FourthYear(y: int)
    ensures IsLeap(y) ==> y % 4 == 0
  {
    if y % 400 == 0 {
      var q := y / 400;
      assert y == 4 * (100 * q);
    }
  }

  /** What time2 finds is the moment the fields stand for, off by the days that settling adds. */
  lemma FoundMoment(tmp: Tm, offset: int, r: Outcome)
    requires AsFound(tmp, offset, r) && r.Found?
    ensures var a := Carried(tmp);
      r.t == Wrap32(SecondsOf(a) + DaysOff(a) * SECSPERDAY - offset)
  {
    var a := Carried(tmp);
    hide Carried, BrokenDown, YearStart, MonStart, Forward, Backward, IsLeap, Wrap32;
    SettledAddsDays(a.(sec := 0));
  }

  /** Going back a year adds the length of the earlier year, whichever month one starts from: the day before
      March 1, 2000 comes out as February 28. */
  lemma BackwardLosesADay(a: Tm)
    requires a == Tm(0, 0, 0, 0, 2, 100, 0, 0, 0)
    ensures Settled(a) == a.(mon := 1, mday := 28)
    ensures DayOf(Settled(a)) == DayOf(a) - 1
  {
    hide Forward, YearStart, MonStart, MonLen;
    assert Backward(100, 0) == (99, 365);
    FromMarch1999();
    FirstOfMonth(true, 2);
    FirstOfMonth(true, 1);
  }

  /** Whole months of one year are skipped. */
  lemma {:induction false} SkipMonths(year: int, mon: nat, k: nat, mday: int)
    requires mon <= k < 12
    ensures var leap := IsLeap(year + TM_YEAR_BASE);
      MonStart(leap, mon) + mday > MonStart(leap, k) ==>
        Forward(year, mon, mday) == Forward(year, k, mday - (MonStart(leap, k) - MonStart(leap, mon)))
    decreases k - mon
  {
    hide IsLeap, MonLen;
    var leap := IsLeap(year + TM_YEAR_BASE);
    if mon < k {
      ForwardStep(year, mon, mday);
      SkipMonths(year, mon + 1, k, mday - MonLen(leap, mon));
      MonthsInOrder(leap, mon, k);
    }
  }

  lemma FromMarch1999()
    ensures Forward(99, 2, 365) == (100, 1, 28)
  {
    hide Forward, MonStart;
    FirstOfMonth(false, 2);
    FirstOfMonth(false, 11);
    SkipMonths(99, 2, 11, 365);
    ForwardStep(99, 11, 90);
    ForwardStep(100, 0, 59);
    ForwardStep(100, 1, 28);
  }

  lemma ForwardStep(year: int, mon: nat, mday: int)
    requires mon < 12
    ensures var n := MonLen(IsLeap(year + TM_YEAR_BASE), mon);
      Forward(year, mon, mday) == if mday <= n then (year, mon, mday)
                                  else if mon == 11 then Forward(year + 1, 0, mday - n)
                                  else Forward(year, mon + 1, mday - n)
  {
  }

  method Settle(a: Tm) returns (b: Tm)
    requires 0 <= a.mon < 12
    ensures b == Settled(a)
  {
    hide IsLeap;
    var year, mon, mday := a.year, a.mon, a.mday;
    while mday <= 0
      invariant Backward(year, mday) == Backward(a.year, a.mday)
      decreases -mday
    {
      year := year - 1;
      mday := mday + YearLen(year + TM_YEAR_BASE);
    }
    while true
      invariant 0 <= mon < 12 && mday > 0
      invariant Forward(year, mon, mday) == Forward(Backward(a.year, a.mday).0, a.mon, Backward(a.year, a.mday).1)
      decreases mday
    {
      var i := MonLen(IsLeap(year + TM_YEAR_BASE), mon);
      if mday <= i { break; }
      mday := mday - i;
      mon := mon + 1;
      if mon >= 12 {
        mon := 0;
        year := year + 1;
      }
    }
    b := a.(year := year, mon := mon, mday := mday);
  }

  /** A time is found exactly when the settled date is valid, stands for a 32-bit moment, and daylight
      saving is not asked for; the answer is that moment plus the seconds kept aside. */
  ghost predicate AsFound(tmp: Tm, offset: int, r: Outcome) {
    && 0 <= Carried(tmp).mon < 12
    && var your := Settled(Carried(tmp).(sec := 0));
       && 0 <= your.mon < 12
       && (r.Found? <==> ValidTm(your) && InTimeT(SecondsOf(your) - offset) && tmp.isdst <= 0)
       && (r.Found? ==> r.t == Wrap32(SecondsOf(your) - offset + Carried(tmp).sec))
       && (r.Found? ==> BrokenDown(r.t + offset, r.tm))
  }

  /** time2 for gmtsub: it finds the time exactly when the date can be brought into range, the result is a
      32-bit time, and daylight saving is not asked for. */
  method Time2(tmp: Tm, offset: int) returns (r: Outcome)
    ensures r.BadIndex? <==> Carried(tmp).mon == 12
    ensures !r.BadIndex? ==> AsFound(tmp, offset, r)
  {
    hide ValidTm, SecondsOf, YearStart, BrokenDown, Backward, Forward;
    var your := tmp;
    if your.sec >= SECSPERMIN + 2 || your.sec < 0 {
      var (min, sec) := Normalize(your.min, your.sec, SECSPERMIN);
      your := your.(min := min, sec := sec);
    }
    var (hour, min) := Normalize(your.hour, your.min, MINSPERHOUR);
    your := your.(hour := hour, min := min);
    var (mday, hour') := Normalize(your.mday, your.hour, HOURSPERDAY);
    your := your.(mday := mday, hour := hour');
    var (year, mon) := Normalize(your.year, your.mon, MONSPERYEAR);
    your := your.(year := year, mon := mon);
    NormalizeMeans(tmp.year, tmp.mon, MONSPERYEAR);
    assert your == Carried(tmp);
    if your.mon >= 12 { return BadIndex; }
    var savedSeconds := your.sec;
    your := Settle(your.(sec := 0));
    var found, t := Search(your, offset);
    if !found { return Wrong; }
    if your.isdst > 0 { return Wrong; }
    t := Wrap32(t + savedSeconds);
    var tm := TimeSub(t, offset);
    r := Found(t, tm);
  }

  /** A month of -24, -36, ... makes time2 read past the end of a month table. */
  lemma BadMonth(tmp: Tm)
    ensures Carried(tmp).mon == 12 <==> tmp.mon <= -24 && tmp.mon % 12 == 0
  {
    NormalizeMeans(tmp.year, tmp.mon, MONSPERYEAR);
  }

  lemma ValidIsSettled(tm: Tm)
    requires ValidTm(tm)
    ensures Carried(tm) == tm && Settled(tm.(sec := 0)) == tm.(sec := 0)
  {
  }

  /** time2 undoes timesub exactly for the moments whose minute starts in range. */
  method RoundTrip(t: int) returns (tm: Tm, r: Outcome)
    requires InTimeT(t)
    ensures BrokenDown(t, tm)
    ensures r == Found(t, tm) <==> t - t % 60 >= INT_MIN
    ensures t - t % 60 < INT_MIN ==> r == Wrong
  {
    tm := TimeSub(t, 0);
    r := Time2(tm, 0);
    RoundTripMeans(t, tm, r);
  }

  lemma RoundTripMeans(t: int, tm: Tm, r: Outcome)
    requires BrokenDown(t, tm) && (r.BadIndex? <==> Carried(tm).mon == 12) && (!r.BadIndex? ==> AsFound(tm, 0, r))
    requires InTimeT(t)
    ensures r == Found(t, tm) <==> t - t % 60 >= INT_MIN
    ensures t - t % 60 < INT_MIN ==> r == Wrong
  {
    ValidIsSettled(tm);
    MinuteStart(t, tm);
    hide ValidTm, SecondsOf, Carried, Settled;
    FieldsOf(t, tm);
    InRange(t);
    hide BrokenDown, Wrap32;
    if r.Found? { OnlyOne(t, tm, r.tm); }
  }

  lemma InRange(t: int)
    requires InTimeT(t)
    ensures Wrap32(t) == t && t % 60 >= 0
  {
  }

  lemma FieldsOf(t: int, tm: Tm)
    requires BrokenDown(t, tm)
    ensures 0 <= tm.mon < 12 && tm.isdst == 0 && ValidTm(tm) && ValidTm(tm.(sec := 0)) && 0 <= tm.sec < 60
  {
  }

  lemma MinuteStart(t: int, tm: Tm)
    requires BrokenDown(t, tm)
    ensures tm.sec == t % 60 && SecondsOf(tm.(sec := 0)) == t - tm.sec
  {
    var minutes := DayOf(tm) * 1440 + tm.hour * 60 + tm.min;
    assert t == 60 * minutes + tm.sec;
    Remainder(t, 60, minutes, tm.sec);
  }

  lemma OnlyOne(t: int, a: Tm, b: Tm)
    requires BrokenDown(t, a) && BrokenDown(t, b)
    ensures a == b
  {
    CompareIsOrder(a, b);
  }
}

// What time2 finds, in terms of the fields it is given, without the steps it takes.

module CTimeFields {
  import opened Arithmetic
  import opened Calendar
  import opened CTime

  /** The moment the fields stand for.  Months count on from January of the year; the other fields may lie outside
      their ranges. */
  ghost predicate Means(tmp: Tm, y: int, m: int, moment: int) {
    && 0 <= m < 12 && 12 * y + m == 12 * tmp.year + tmp.mon
    && moment == (YearStart(y + TM_YEAR_BASE) + MonStart(IsLeap(y + TM_YEAR_BASE), m) + tmp.mday - 1) * SECSPERDAY
                 + tmp.hour * SECSPERHOUR + tmp.min * SECSPERMIN + tmp.sec
  }

  /** The seconds that stay seconds: up to two leap seconds are not carried. */
  function Kept(sec: int): int {
    if 0 <= sec <= 61 then sec else if sec <= -120 && sec % 60 == 0 then 60 else sec % 60
  }

  /** All the minutes, and all the hours, there are then. */
  function Minutes(tmp: Tm): int { tmp.min + (tmp.sec - Kept(tmp.sec)) / 60 }

  function Hours(tmp: Tm): int { tmp.hour + Minutes(tmp) / 60 }

  function Days(tmp: Tm): int { tmp.mday + Hours(tmp) / 24 }

  /** What normalize cannot bring into range. */
  predicate Stuck(units: int, base: nat)
    requires base > 0
  {
    units <= -2 * base && units % base == 0
  }

  lemma NormalizeFloors(tens: int, units: int, base: nat)
    requires base > 0 && !Stuck(units, base)
    ensures Normalize(tens, units, base) == (tens + units / base, units % base)
  {
    NormalizeMeans(tens, units, base);
    var (t, u) := Normalize(tens, units, base);
    assert u < base && (t - tens) * base + u == units by { Distribute(tens, t - tens, base); }
    assert (t - tens) * base == base * (t - tens);
    Remainder(units, base, t - tens, u);
  }

  lemma SecondsCarried(tmp: Tm)
    ensures var (min, sec) := if tmp.sec >= SECSPERMIN + 2 || tmp.sec < 0 then Normalize(tmp.min, tmp.sec, SECSPERMIN)
      else (tmp.min, tmp.sec);
      sec == Kept(tmp.sec) && min == Minutes(tmp) && min * 60 + sec == tmp.min * 60 + tmp.sec
  {
    NormalizeMeans(tmp.min, tmp.sec, SECSPERMIN);
    if 0 <= tmp.sec <= 61 {
    } else if Stuck(tmp.sec, 60) {
    } else {
      NormalizeFloors(tmp.min, tmp.sec, SECSPERMIN);
    }
  }

  /** The fields after normalizing, where it succeeds. */
  lemma CarriedIs(tmp: Tm)
    ensures Carried(tmp).sec == Kept(tmp.sec)
    ensures Carried(tmp).min == 60 <==> Stuck(Minutes(tmp), 60)
    ensures !Stuck(Minutes(tmp), 60) ==>
      && Carried(tmp).min == Minutes(tmp) % 60 && (Carried(tmp).hour == 24 <==> Stuck(Hours(tmp), 24))
      && (!Stuck(Hours(tmp), 24) ==> Carried(tmp).hour == Hours(tmp) % 24 && Carried(tmp).mday == Days(tmp))
    ensures 0 <= Carried(tmp).min <= 60 && 0 <= Carried(tmp).hour <= 24
  {
    SecondsCarried(tmp);
    var min := Minutes(tmp);
    NormalizeMeans(tmp.hour, min, MINSPERHOUR);
    var (hour, _) := Normalize(tmp.hour, min, MINSPERHOUR);
    NormalizeMeans(tmp.mday, hour, HOURSPERDAY);
    if !Stuck(min, 60) {
      NormalizeFloors(tmp.hour, min, MINSPERHOUR);
      if !Stuck(Hours(tmp), 24) { NormalizeFloors(tmp.mday, Hours(tmp), HOURSPERDAY); }
    }
    hide Normalize, Kept;
  }

  /** Normalizing the fields does not change the moment. */
  lemma CarriedKeeps(tmp: Tm, y: int, m: int, moment: int)
    requires Means(tmp, y, m, moment) && Carried(tmp).mon < 12
    ensures var a := Carried(tmp);
      0 <= a.mon && a.year == y && a.mon == m && SecondsOf(a) == moment
  {
    NormalizeMeans(tmp.year, tmp.mon, MONSPERYEAR);
    SecondsCarried(tmp);
    var (min, sec) := (Minutes(tmp), Kept(tmp.sec));
    NormalizeMeans(tmp.hour, min, MINSPERHOUR);
    var (hour, min') := Normalize(tmp.hour, min, MINSPERHOUR);
    NormalizeMeans(tmp.mday, hour, HOURSPERDAY);
    hide Normalize, Kept, YearStart, MonStart, IsLeap;
  }

  /** Going back from a day of year y that is not positive, one comes to the year z with January 1 of y moved along: the
      first year in which the day is positive. */
  predicate Reached(y: int, day: int, z: int) {
    && z <= y && day + YearStart(y) - YearStart(z) > 0 && (z < y ==> day + YearStart(y) - YearStart(z + 1) <= 0)
  }

  lemma {:induction false} BackwardReaches(year: int, mday: int)
    ensures Reached(year + TM_YEAR_BASE, mday, Backward(year, mday).0 + TM_YEAR_BASE) && Backward(year, mday).1 > 0
    decreases if mday > 0 then 0 else 1 - mday
  {
    hide YearStart, YearLen;
    if mday <= 0 {
      var y := year - 1;
      NextYear(y + TM_YEAR_BASE);
      YearNotEmpty(y + TM_YEAR_BASE);
      BackwardReaches(y, mday + YearLen(y + TM_YEAR_BASE));
    }
  }

  lemma OneReached(y: int, day: int, z: int, z': int)
    requires Reached(y, day, z) && Reached(y, day, z')
    ensures z == z'
  {
    hide YearStart, YearLen;
    if z < z' {
      LaterStarts(z + 1, z');
    } else if z' < z {
      LaterStarts(z' + 1, z);
    }
  }

  lemma LaterStarts(y: int, z: int)
    requires y <= z
    ensures YearStart(y) <= YearStart(z)
  {
    if y < z {
      YearsInOrder(y, z);
      YearNotEmpty(y);
    }
  }

  /** The days by which time2 is off: it moves along January 1, though the month may lie behind a leap day. */
  function Gained(y: int, m: int, z: int): int {
    if m < 2 then 0 else (if IsLeap(z) then 1 else 0) - (if IsLeap(y) then 1 else 0)
  }

  lemma {:induction false} ForwardValid(year: int, mon: nat, mday: int)
    requires mon < 12 && mday > 0
    ensures var (y, m, d) := Forward(year, mon, mday); 0 <= m < 12 && 1 <= d <= MonLen(IsLeap(y + TM_YEAR_BASE), m)
    decreases mday
  {
    hide IsLeap, Forward;
    var n := MonLen(IsLeap(year + TM_YEAR_BASE), mon);
    ForwardStep(year, mon, mday);
    if mday > n { ForwardValid(if mon == 11 then year + 1 else year, if mon == 11 then 0 else mon + 1, mday - n); }
  }

  lemma SettledValid(a: Tm)
    requires 0 <= a.mon < 12 && 0 <= a.min <= 60 && 0 <= a.hour <= 24 && a.sec == 0
    ensures 0 <= Settled(a).mon < 12
    ensures ValidTm(Settled(a)) <==> a.min < 60 && a.hour < 24
  {
    BackwardReaches(a.year, a.mday);
    ForwardValid(Backward(a.year, a.mday).0, a.mon, Backward(a.year, a.mday).1);
    hide Forward, Backward, IsLeap, MonLen, YearStart;
  }

  lemma SameElse(tmp: Tm, a: Tm)
    requires 0 <= a.mon < 12
    ensures Carried(tmp).isdst == tmp.isdst && Settled(a).isdst == a.isdst
  {
    hide Forward, Backward, Normalize;
  }

  /** When time2 finds a time, and which.  Moment, minutes, hours and days are those of the fields given; y and m are
      year and month the months amount to, z the year the loop over years comes to. */
  lemma FoundWhen(tmp: Tm, offset: int, r: Outcome, y: int, m: int, z: int, moment: int)
    requires AsFound(tmp, offset, r) && Means(tmp, y, m, moment)
    requires !Stuck(Minutes(tmp), 60) && !Stuck(Hours(tmp), 24) ==> Reached(y + TM_YEAR_BASE, Days(tmp), z)
    ensures var there := moment + Gained(y + TM_YEAR_BASE, m, z) * SECSPERDAY - offset;
      && (r.Found? <==>
          && !Stuck(Minutes(tmp), 60) && !Stuck(Hours(tmp), 24) && tmp.isdst <= 0 && InTimeT(there - Kept(tmp.sec)))
      && (r.Found? ==> r.t == Wrap32(there) && BrokenDown(r.t + offset, r.tm))
  {
    var a := Carried(tmp);
    CarriedKeeps(tmp, y, m, moment);
    CarriedIs(tmp);
    SettledValid(a.(sec := 0));
    SameElse(tmp, a.(sec := 0));
    if !Stuck(Minutes(tmp), 60) && !Stuck(Hours(tmp), 24) {
      BackwardReaches(a.year, a.mday);
      OneReached(y + TM_YEAR_BASE, Days(tmp), z, Backward(a.year, a.mday).0 + TM_YEAR_BASE);
      SettledAddsDays(a.(sec := 0));
      assert DaysOff(a.(sec := 0)) == Gained(y + TM_YEAR_BASE, m, z);
    }
    hide Carried, Settled, YearStart, MonStart, IsLeap, ValidTm, BrokenDown, Wrap32, Kept, Minutes, Hours, Days,
         Reached, Gained,
         DaysOff, Stuck;
  }

  /** The only other failure: months that normalize leaves at 12. */
  lemma BadIndexWhen(tmp: Tm)
    ensures Carried(tmp).mon == 12 <==> Stuck(tmp.mon, 12)
  {
    BadMonth(tmp);
  }

  /** All fields have such a meaning. */
  lemma HasMeaning(tmp: Tm) returns (y: int, m: int, z: int, moment: int)
    ensures Means(tmp, y, m, moment) && Reached(y + TM_YEAR_BASE, Days(tmp), z)
  {
    var months := 12 * tmp.year + tmp.mon;
    y, m := months / 12, months % 12;
    z := Backward(y, Days(tmp)).0 + TM_YEAR_BASE;
    BackwardReaches(y, Days(tmp));
    hide YearStart, MonStart, IsLeap, Days, Backward;
    moment := (YearStart(y + TM_YEAR_BASE) + MonStart(IsLeap(y + TM_YEAR_BASE), m) + tmp.mday - 1) * SECSPERDAY
              + tmp.hour * SECSPERHOUR + tmp.min * SECSPERMIN + tmp.sec;
  }
}

/**
 Commercial dates: years of whole weeks that begin on Monday (section 2.2.10 of ISO 8601:2004).
 What is proved uses only where civil years begin, for any calendar whose years have 365 or 366
 days.
 */
module DateCommercial {
  import opened Common
  import opened DateCivil
  import opened DateCalendar

  datatype Commercial = Commercial(y: int, w: int, d: int)

  /** commercial_to_jd */
  function CommercialToJd(date: Commercial, ns: Reform): int {
    var jd := CivilToJd(Civil(date.y, 1, 4), ns);
    jd - (jd - 1 + 1) % 7 + 7 * (date.w - 1) + (date.d - 1)
  }

  /** jd_to_commercial */
  function JdToCommercial(jd: int, sg: Reform): Commercial {
    var ns := FixStyle(jd, sg);
    var a := JdToCivil(jd - 3, ns).y;
    var y := if jd >= CommercialToJd(Commercial(a + 1, 1, 1), ns) then a + 1 else a;
    var w := 1 + (jd - CommercialToJd(Commercial(y, 1, 1), ns)) / 7;
    var d := (jd + 1) % 7;
    Commercial(y, w, if d == 0 then 7 else d)
  }

  // ---- civil years of a calendar

  function NewYear(y: int, sg: Reform): int {
    CivilToJd(Civil(y, 1, 1), sg)
  }

  lemma JulianNewYear(y: int)
    ensures NewYear(y, JULIAN) == YearDays(y - 1 + 4716) - 1095
  {
    MonthTable();
  }

  lemma GregorianNewYear(y: int)
    ensures NewYear(y, GREGORIAN) == YearDays(y - 1 + 4716) + Correction(y - 1) - 1095
  {
    MonthTable();
  }

  lemma YearGap(y: int, sg: Reform)
    requires Fixed(sg)
    ensures NewYear(y + 1, sg) - NewYear(y, sg) == if Leap(y, sg) then 366 else 365
  {
    FebruaryYear(y);
    if sg == GREGORIAN {
      GregorianGap(y);
    } else {
      JulianNewYear(y);
      JulianNewYear(y + 1);
    }
  }

  function LeapLost(y: int): int {
    if y % 100 == 0 && y % 400 != 0 then -1 else 0
  }

  lemma LeapRule(y: int)
    ensures (if GregorianLeap(y) then 366 else 365) == (if JulianLeap(y) then 366 else 365) + LeapLost(y)
  {
    if y % 100 == 0 {
      Hundreds(y / 100);
      assert y == 100 * (y / 100);
    } else if y % 400 == 0 {
      Hundreds(4 * (y / 400));
      assert y == 100 * (4 * (y / 400));
    }
  }

  lemma GregorianStep(y: int)
    ensures NewYear(y + 1, GREGORIAN) - NewYear(y, GREGORIAN) ==
      YearDays(y + 4716) - YearDays(y - 1 + 4716) + (Correction(y) - Correction(y - 1))
  {
    GregorianNewYear(y);
    GregorianNewYear(y + 1);
  }

  lemma GregorianGap(y: int)
    ensures NewYear(y + 1, GREGORIAN) - NewYear(y, GREGORIAN) == if GregorianLeap(y) then 366 else 365
  {
    calc {
      NewYear(y + 1, GREGORIAN) - NewYear(y, GREGORIAN);
      { GregorianStep(y); }
      YearDays(y + 4716) - YearDays(y - 1 + 4716) + (Correction(y) - Correction(y - 1));
      { FebruaryYear(y); CorrectionNextYear(y - 1); }
      (if JulianLeap(y) then 366 else 365) + LeapLost(y);
      { LeapRule(y); }
      if GregorianLeap(y) then 366 else 365;
    }
  }

  lemma WithinYear(date: Civil, sg: Reform)
    requires Fixed(sg) && OnCalendar(date, sg)
    ensures NewYear(date.y, sg) <= CivilToJd(date, sg) < NewYear(date.y + 1, sg)
  {
    YearGap(date.y, sg);
    MonthTable();
    if date.m <= 2 {
      assert CivilToJd(date, sg) - NewYear(date.y, sg) == MonthDays(date.m + 13) - MonthDays(14) + date.d - 1;
    } else {
      assert NewYear(date.y + 1, sg) - CivilToJd(date, sg) == MonthDays(14) + 1 - MonthDays(date.m + 1) - date.d;
    }
  }

  /** Where the years of a calendar begin, and the year of each day. */
  datatype Years = Years(start: int -> int, of: int -> int) {
    ghost predicate Long(y: int) {
      365 <= start(y + 1) - start(y) <= 366
    }

    ghost predicate Holds(y: int, jd: int) {
      start(y) <= jd < start(y + 1)
    }

    ghost predicate Valid() {
      && (forall y {:trigger Long(y)} :: Long(y))
      && (forall jd :: Holds(of(jd), jd))
    }
  }

  function CivilYears(sg: Reform): Years {
    Years((y: int) => NewYear(y, sg), (jd: int) => JdToCivil(jd, sg).y)
  }

  lemma CivilYearsValid(sg: Reform)
    requires Fixed(sg)
    ensures CivilYears(sg).Valid()
  {
    var ys := CivilYears(sg);
    forall y
      ensures ys.Long(y)
    {
      YearGap(y, sg);
    }
    forall jd
      ensures ys.Holds(ys.of(jd), jd)
    {
      JdRoundTrip(jd, sg);
      WithinYear(JdToCivil(jd, sg), sg);
    }
  }

  // ---- years of whole weeks

  function Monday(jd: int): int { jd - jd % 7 }

  /** The Monday of week 1, the week of the 4th of January. */
  function FirstMonday(ys: Years, y: int): int {
    Monday(ys.start(y) + 3)
  }

  function Weeks(ys: Years, y: int): int {
    (FirstMonday(ys, y + 1) - FirstMonday(ys, y)) / 7
  }

  predicate OnCommercial(date: Commercial, ys: Years) {
    1 <= date.w <= Weeks(ys, date.y) && 1 <= date.d <= 7
  }

  function WeekToJd(date: Commercial, ys: Years): int {
    FirstMonday(ys, date.y) + 7 * (date.w - 1) + (date.d - 1)
  }

  function JdToWeek(jd: int, ys: Years): Commercial {
    var a := ys.of(jd - 3);
    var y := if jd >= FirstMonday(ys, a + 1) then a + 1 else a;
    var d := (jd + 1) % 7;
    Commercial(y, 1 + (jd - FirstMonday(ys, y)) / 7, if d == 0 then 7 else d)
  }

  /** A year has 52 or 53 whole weeks. */
  lemma WeeksOfYear(ys: Years, y: int)
    requires ys.Valid()
    ensures FirstMonday(ys, y + 1) == FirstMonday(ys, y) + 7 * Weeks(ys, y) && 52 <= Weeks(ys, y) <= 53
  {
    assert ys.Long(y);
  }

  lemma {:induction false} MondaysAscend(ys: Years, y: int, y': int)
    requires ys.Valid() && y < y'
    ensures FirstMonday(ys, y + 1) <= FirstMonday(ys, y')
    decreases y' - y
  {
    if y + 1 < y' {
      MondaysAscend(ys, y, y' - 1);
      WeeksOfYear(ys, y' - 1);
    }
  }

  lemma {:induction false} StartsAscend(ys: Years, y: int, y': int)
    requires ys.Valid() && y < y'
    ensures ys.start(y + 1) <= ys.start(y')
    decreases y' - y
  {
    if y + 1 < y' {
      StartsAscend(ys, y, y' - 1);
      assert ys.Long(y' - 1);
    }
  }

  lemma YearUnique(ys: Years, jd: int, y: int)
    requires ys.Valid() && ys.Holds(y, jd)
    ensures ys.of(jd) == y
  {
    var z := ys.of(jd);
    if z < y { StartsAscend(ys, z, y); }
    if y < z { StartsAscend(ys, y, z); }
  }

  lemma WeekYear(jd: int, ys: Years)
    requires ys.Valid()
    ensures var y := JdToWeek(jd, ys).y; FirstMonday(ys, y) <= jd < FirstMonday(ys, y + 1)
  {
    var a := ys.of(jd - 3);
    assert ys.Holds(a, jd - 3);
    assert ys.Long(a + 1);
  }

  lemma WeekAndDay(jd: int, monday: int)
    requires monday % 7 == 0
    ensures var d := if (jd + 1) % 7 == 0 then 7 else (jd + 1) % 7;
            jd == monday + 7 * ((jd - monday) / 7) + (d - 1) && 1 <= d <= 7
  {
  }

  lemma JdWeekRoundTrip(jd: int, ys: Years)
    requires ys.Valid()
    ensures var date := JdToWeek(jd, ys);
            OnCommercial(date, ys) && 1 <= date.w <= 53 && WeekToJd(date, ys) == jd
  {
    var y := JdToWeek(jd, ys).y;
    WeekYear(jd, ys);
    WeeksOfYear(ys, y);
    WeekAndDay(jd, FirstMonday(ys, y));
  }

  lemma WeekRoundTrip(date: Commercial, ys: Years)
    requires ys.Valid() && OnCommercial(date, ys)
    ensures JdToWeek(WeekToJd(date, ys), ys) == date
  {
    var jd := WeekToJd(date, ys);
    var found := JdToWeek(jd, ys);
    WeeksOfYear(ys, date.y);
    WeekYear(jd, ys);
    if found.y < date.y { MondaysAscend(ys, found.y, date.y); }
    if date.y < found.y { MondaysAscend(ys, date.y, found.y); }
    WeekAndDay(jd, FirstMonday(ys, date.y));
  }

  lemma ThursdayOfWeek(jd: int, ys: Years)
    requires ys.Valid()
    ensures var thursday := Monday(jd) + 3;
            var date := JdToWeek(jd, ys);
            ys.of(thursday) == date.y && date.w == 1 + (thursday - ys.start(date.y)) / 7
  {
    var y, thursday := JdToWeek(jd, ys).y, Monday(jd) + 3;
    WeekYear(jd, ys);
    WeeksOfYear(ys, y);
    WeekAndDay(jd, FirstMonday(ys, y));
    assert ys.Holds(y, thursday);
    YearUnique(ys, thursday, y);
  }

  // ---- the source's conversions

  lemma FirstMondayIs(y: int, sg: Reform)
    requires Fixed(sg)
    ensures CommercialToJd(Commercial(y, 1, 1), sg) == FirstMonday(CivilYears(sg), y)
  {
    ToJdIsWeek(Commercial(y, 1, 1), sg);
  }

  lemma ToJdIsWeek(date: Commercial, sg: Reform)
    requires Fixed(sg)
    ensures CommercialToJd(date, sg) == WeekToJd(date, CivilYears(sg))
  {
    assert CivilToJd(Civil(date.y, 1, 4), sg) == NewYear(date.y, sg) + 3;
  }

  lemma JdToIsWeek(jd: int, sg: Reform)
    requires Fixed(sg)
    ensures JdToCommercial(jd, sg) == JdToWeek(jd, CivilYears(sg))
  {
    assert FixStyle(jd, sg) == sg;
    var a := JdToCivil(jd - 3, sg).y;
    assert CivilYears(sg).of(jd - 3) == a;
    FirstMondayIs(a + 1, sg);
    FirstMondayIs(a, sg);
  }

  lemma CommercialInForce(jd: int, sg: Reform)
    ensures JdToCommercial(jd, sg) == JdToCommercial(jd, InForce(jd, sg))
  {
    var cal := InForce(jd, sg);
    assert FixStyle(jd, sg) == cal && FixStyle(jd, cal) == cal;
  }

  /** Every day number has a week date with a week 1 to 53 and a day 1 to 7, and is found again in the
      calendar in force. */
  lemma JdCommercialRoundTrip(jd: int, sg: Reform)
    ensures var date := JdToCommercial(jd, sg);
            1 <= date.w <= 53 && 1 <= date.d <= 7 && CommercialToJd(date, InForce(jd, sg)) == jd
  {
    var cal := InForce(jd, sg);
    CommercialInForce(jd, sg);
    CivilYearsValid(cal);
    JdToIsWeek(jd, cal);
    JdWeekRoundTrip(jd, CivilYears(cal));
    ToJdIsWeek(JdToWeek(jd, CivilYears(cal)), cal);
  }

  /** Every week date of a year is found again from its day number. */
  lemma CommercialRoundTrip(date: Commercial, sg: Reform)
    requires Fixed(sg) && OnCommercial(date, CivilYears(sg))
    ensures JdToCommercial(CommercialToJd(date, sg), sg) == date
  {
    CivilYearsValid(sg);
    ToJdIsWeek(date, sg);
    WeekRoundTrip(date, CivilYears(sg));
    JdToIsWeek(WeekToJd(date, CivilYears(sg)), sg);
  }

  /** A week belongs to the year of its Thursday in the calendar in force on the day asked for, and is
      numbered from that year's first Thursday. */
  lemma ThursdayDecides(jd: int, sg: Reform)
    ensures var thursday := Monday(jd) + 3;
            var date := JdToCommercial(jd, sg);
            var cal := InForce(jd, sg);
            JdToCivil(thursday, cal).y == date.y && date.w == 1 + (thursday - NewYear(date.y, cal)) / 7
  {
    var cal := InForce(jd, sg);
    CommercialInForce(jd, sg);
    CivilYearsValid(cal);
    JdToIsWeek(jd, cal);
    ThursdayOfWeek(jd, CivilYears(cal));
  }

  // ---- which week dates are valid

  /** The checks of valid_commercial?, over the two conversions: a negative week or day counts from the
      end of the year or the week. */
  function ValidateWeek(toJd: Commercial -> int, toWeek: int -> Commercial, y: int, w: int, d: int,
                        sg: Reform): Option<int> {
    var day := if d < 0 then d + 8 else d;
    var last := toWeek(toJd(Commercial(y + 1, 1, 1)) + w * 7);
    if w < 0 && last.y != y then None
    else
      var date := Commercial(y, if w < 0 then last.w else w, day);
      var jd := toJd(date);
      if IsJulian(jd, sg) || toWeek(jd) != date then None else Some(jd)
  }

  function WeekJd(): Commercial -> int { (date: Commercial) => CommercialToJd(date, GREGORIAN) }

  function JdWeek(): int -> Commercial { (jd: int) => JdToCommercial(jd, GREGORIAN) }

  /** valid_commercial? */
  function ValidCommercial(y: int, w: int, d: int, sg: Reform): Option<int> {
    ValidateWeek(WeekJd(), JdWeek(), y, w, d, sg)
  }

  lemma WeekValidated(toJd: Commercial -> int, toWeek: int -> Commercial, y: int, w: int, d: int, sg: Reform, jd: int,
                      named: int)
    requires toJd(toWeek(jd)) == jd && toWeek(jd).w >= 1 && (w >= 0 ==> named == w)
    requires w < 0 ==> var last := toWeek(toJd(Commercial(y + 1, 1, 1)) + w * 7);
                       if named >= 1 then last.y == y && last.w == named else last.y != y
    ensures ValidateWeek(toJd, toWeek, y, w, d, sg) == Some(jd)
       <==> !IsJulian(jd, sg) && toWeek(jd) == Commercial(y, named, if d < 0 then d + 8 else d)
  {
  }

  /** The week named by a number that may count from the end of the year. */
  function WeekNamed(y: int, w: int): int {
    if w < 0 then Weeks(CivilYears(GREGORIAN), y) + 1 + w else w
  }

  /** The Monday so many weeks before the first week of the next year. */
  lemma LastWeek(ys: Years, y: int, w: int)
    requires ys.Valid() && w < 0
    ensures var last := JdToWeek(FirstMonday(ys, y + 1) + w * 7, ys);
            if Weeks(ys, y) + 1 + w >= 1 then last == Commercial(y, Weeks(ys, y) + 1 + w, 1) else last.y != y
  {
    var jd := FirstMonday(ys, y + 1) + w * 7;
    WeeksOfYear(ys, y);
    var date := Commercial(y, Weeks(ys, y) + 1 + w, 1);
    assert WeekToJd(date, ys) == jd;
    if date.w >= 1 {
      WeekRoundTrip(date, ys);
    } else {
      WeekYear(jd, ys);
    }
  }

  lemma WeekReturns(jd: int)
    ensures WeekJd()(JdWeek()(jd)) == jd && JdWeek()(jd).w >= 1
  {
    JdCommercialRoundTrip(jd, GREGORIAN);
  }

  lemma WeekConversions(y: int, jd: int, ys: Years)
    requires ys == CivilYears(GREGORIAN)
    ensures WeekJd()(Commercial(y, 1, 1)) == FirstMonday(ys, y) && JdWeek()(jd) == JdToWeek(jd, ys)
  {
    FirstMondayIs(y, GREGORIAN);
    JdToIsWeek(jd, GREGORIAN);
  }

  lemma LastNamed(toJd: Commercial -> int, toWeek: int -> Commercial, ys: Years, y: int, w: int, jd: int)
    requires ys.Valid() && w < 0 && toJd(Commercial(y + 1, 1, 1)) == FirstMonday(ys, y + 1)
    requires jd == FirstMonday(ys, y + 1) + w * 7 && toWeek(jd) == JdToWeek(jd, ys)
    ensures var last := toWeek(toJd(Commercial(y + 1, 1, 1)) + w * 7);
            var named := Weeks(ys, y) + 1 + w;
            if named >= 1 then last.y == y && last.w == named else last.y != y
  {
    LastWeek(ys, y, w);
  }

  /** The same over any two conversions that are those of a calendar. */
  lemma WeekIsFound(toJd: Commercial -> int, toWeek: int -> Commercial, ys: Years, y: int, w: int, d: int, sg: Reform,
                    jd: int, last: int)
    requires ys.Valid() && toJd(Commercial(y + 1, 1, 1)) == FirstMonday(ys, y + 1)
    requires last == FirstMonday(ys, y + 1) + w * 7 && toWeek(last) == JdToWeek(last, ys)
    requires toJd(toWeek(jd)) == jd && toWeek(jd).w >= 1
    ensures ValidateWeek(toJd, toWeek, y, w, d, sg) == Some(jd)
       <==> InForce(jd, sg) == GREGORIAN
            && toWeek(jd) == Commercial(y, if w < 0 then Weeks(ys, y) + 1 + w else w, if d < 0 then d + 8 else d)
  {
    if w < 0 { LastNamed(toJd, toWeek, ys, y, w, last); }
    WeekValidated(toJd, toWeek, y, w, d, sg, jd, if w < 0 then Weeks(ys, y) + 1 + w else w);
    assert IsJulian(jd, sg) <==> InForce(jd, sg) != GREGORIAN;
  }

  /** For any year, week and day: valid_commercial? gives a day number exactly when the Gregorian calendar
      is in force on that day and its week date is the one that is named. */
  lemma ValidWeekIsFound(y: int, w: int, d: int, sg: Reform, jd: int, date: Commercial)
    requires date == JdToCommercial(jd, GREGORIAN)
    ensures ValidCommercial(y, w, d, sg) == Some(jd)
       <==> InForce(jd, sg) == GREGORIAN && date == Commercial(y, WeekNamed(y, w), if d < 0 then d + 8 else d)
  {
    var ys, toJd, toWeek := CivilYears(GREGORIAN), WeekJd(), JdWeek();
    var last := FirstMonday(ys, y + 1) + w * 7;
    assert toWeek(jd) == date;
    CivilYearsValid(GREGORIAN);
    WeekConversions(y + 1, last, ys);
    WeekReturns(jd);
    WeekIsFound(toJd, toWeek, ys, y, w, d, sg, jd, last);
  }
}

/**
 In each fixed calendar the conversions are mutually inverse between all day numbers and all
 dates of that calendar, and the next number is the next day.
 */
module DateCalendar {
  import opened DateCivil

  /** The date that is no date of the Gregorian calendar, though it is one of the Julian. */
  predicate LostLeapDay(date: Civil) {
    date.m == 2 && date.d == 29 && date.y % 4 == 0 && !GregorianLeap(date.y)
  }

  lemma Calendars(date: Civil)
    ensures OnCalendar(date, GREGORIAN) <==> OnCalendar(date, JULIAN) && !LostLeapDay(date)
  {
  }

  lemma Hundreds(a: int)
    ensures (100 * a) % 400 == 0 <==> a % 4 == 0
    ensures (100 * a) % 100 == 0 && (100 * a) % 4 == 0 && (100 * a) / 100 == a
  {
  }

  lemma LostLeapYear(y: int, a: int)
    requires y % 4 == 0 && !GregorianLeap(y) && (y - 1) / 100 == a
    ensures y == 100 * (a + 1) && a % 4 != 3
  {
    var c := y / 100;
    assert y % 100 == 0 && y == 100 * c;
    assert (100 * c - 1) / 100 == c - 1;
    Hundreds(c);
  }

  /** That date would be the first day of the next century. */
  lemma LostLeapDayShifted(date: Civil, a: int)
    requires LostLeapDay(date) && ShiftedY(date) / 100 == a
    ensures Shifted(date) + Correction(100 * a) - 1524 == CenturyStart(a + 1)
  {
    LostLeapYear(date.y, a);
    MonthTable();
    LastYearOfCentury(a);
    CorrectionStep(a);
    CenturyShifted(a + 1);
  }

  lemma LastYearOfCentury(a: int)
    ensures YearDays(100 * a + 4816) - YearDays(100 * a + 4815) == 366
  {
    assert 1461 * (100 * a + 4816) == 4 * (1461 * (25 * a + 1204));
    assert 1461 * (100 * a + 4815) == 4 * (1461 * (25 * a + 1203) + 1095) + 3;
  }

  /** Only that date of the last year of a century is counted beyond the century. */
  lemma CenturyHolds(date: Civil, a: int)
    requires OnCalendar(date, GREGORIAN) && ShiftedY(date) / 100 == a
    ensures CenturyStart(a) <= Shifted(date) + Correction(100 * a) - 1524 < CenturyStart(a + 1)
  {
    var c, jd := ShiftedY(date) + 4716, Shifted(date) + Correction(100 * a) - 1524;
    Calendars(date);
    ShiftedRange(date);
    YearDaysMonotone(100 * a + 4716, c);
    YearDaysMonotone(c + 1, 100 * a + 4816);
    CenturyShifted(a);
    CenturyShifted(a + 1);
    CorrectionStep(a);
    if jd >= CenturyStart(a + 1) {
      LastDayOfCentury(date, a);
      assert false;
    }
  }

  lemma LastYearIs(date: Civil, a: int)
    requires OnCalendar(date, JULIAN) && ShiftedY(date) / 100 == a
    requires Shifted(date) >= YearDays(100 * a + 4816) + 122
    ensures ShiftedY(date) == 100 * a + 99
  {
    var c := ShiftedY(date) + 4716;
    if c < 100 * a + 4815 {
      ShiftedRange(date);
      YearDaysMonotone(c + 1, 100 * a + 4815);
      YearLength(100 * a + 4815);
      assert false;
    }
  }

  /** Only a leap day is that late in its shifted year. */
  lemma LateInYear(date: Civil)
    requires OnCalendar(date, JULIAN) && MonthDays(ShiftedM(date)) + date.d >= 488
    ensures date.m == 2 && date.d == 29 && date.y % 4 == 0
  {
    MonthTable();
  }

  lemma LastDayOfCentury(date: Civil, a: int)
    requires OnCalendar(date, JULIAN) && a % 4 != 3 && ShiftedY(date) / 100 == a
    requires Shifted(date) >= YearDays(100 * a + 4816) + 122
    ensures LostLeapDay(date)
  {
    LastYearIs(date, a);
    LastYearOfCentury(a);
    LateInYear(date);
    assert date.y == 100 * (a + 1);
    Hundreds(a + 1);
  }

  lemma GregorianJd(date: Civil)
    ensures CivilToJd(date, GREGORIAN) == Shifted(date) + Correction(100 * (ShiftedY(date) / 100)) - 1524
  {
    CorrectionOfCentury(ShiftedY(date));
  }

  lemma JulianJd(date: Civil)
    ensures CivilToJd(date, JULIAN) == Shifted(date) - 1524
  {
  }

  /** Every date of a fixed calendar is found again from its day number. */
  lemma CivilRoundTrip(date: Civil, sg: Reform)
    requires Fixed(sg) && OnCalendar(date, sg)
    ensures JdToCivil(CivilToJd(date, sg), sg) == date
  {
    if sg == GREGORIAN {
      GregorianRoundTrip(date);
    } else {
      JulianJd(date);
      ShiftedIsFound(date);
    }
  }

  lemma GregorianRoundTrip(date: Civil)
    requires OnCalendar(date, GREGORIAN)
    ensures JdToCivil(CivilToJd(date, GREGORIAN), GREGORIAN) == date
  {
    var a := ShiftedY(date) / 100;
    GregorianJd(date);
    CenturyHolds(date, a);
    CorrectionRemoved(CivilToJd(date, GREGORIAN), a);
    Calendars(date);
    ShiftedIsFound(date);
  }

  /** Every day number is a date of the calendar, and is found again from it. */
  lemma JdRoundTrip(jd: int, sg: Reform)
    requires Fixed(sg)
    ensures OnCalendar(JdToCivil(jd, sg), sg) && CivilToJd(JdToCivil(jd, sg), sg) == jd
  {
    if sg == GREGORIAN {
      GregorianJdRoundTrip(jd);
    } else {
      FromShiftedIsDate(jd + 1524);
      JulianJd(JdToCivil(jd, sg));
    }
  }

  lemma GregorianJdRoundTrip(jd: int)
    ensures OnCalendar(JdToCivil(jd, GREGORIAN), GREGORIAN) && CivilToJd(JdToCivil(jd, GREGORIAN), GREGORIAN) == jd
  {
    var a := (4 * jd - 7468865) / 146097 + 4;
    CenturyOf(jd, a);
    CorrectionRemoved(jd, a);
    var b := jd - Correction(100 * a) + 1524;
    var date := FromShifted(b);
    FromShiftedIsDate(b);
    ShiftedYear(b, ShiftedY(date) + 4716);
    CenturyShifted(a);
    CenturyShifted(a + 1);
    CorrectionStep(a);
    CenturyContainsDate(b, date, a);
    GregorianJd(date);
    Calendars(date);
    if LostLeapDay(date) { LostLeapDayShifted(date, a); }
  }

  /** One day behind the last day of the century belongs to its last year as well. */
  lemma CenturyContainsDate(b: int, date: Civil, a: int)
    requires OnCalendar(date, JULIAN) && Shifted(date) == b
    requires YearDays(100 * a + 4716) + 123 <= b <= YearDays(100 * a + 4816) + 122
    ensures ShiftedY(date) / 100 == a
  {
    ShiftedRange(date);
    CenturyContains(b, ShiftedY(date) + 4716, a);
  }

  // ---- the next day

  lemma CorrectionNextYear(y: int)
    ensures Correction(y + 1) - Correction(y) == if (y + 1) % 100 == 0 && (y + 1) % 400 != 0 then -1 else 0
  {
    var a := y / 100;
    if y % 100 == 99 {
      Hundreds(a + 1);
      assert y + 1 == 100 * (a + 1);
      CorrectionStep(a);
      CorrectionOfCentury(y);
    } else {
      assert (y + 1) / 100 == a;
    }
  }

  /** The calendar's next day has the next number. */
  lemma NextDayNumber(date: Civil, sg: Reform)
    requires Fixed(sg) && OnCalendar(date, sg)
    ensures OnCalendar(NextDay(date, sg), sg) && CivilToJd(NextDay(date, sg), sg) == CivilToJd(date, sg) + 1
  {
    if date.m == 2 && date.d == DaysIn(date.y, 2, sg) {
      EndOfFebruary(date, sg);
    } else {
      MonthTable();
    }
  }

  lemma EndOfFebruary(date: Civil, sg: Reform)
    requires Fixed(sg) && date.m == 2 && date.d == DaysIn(date.y, 2, sg)
    ensures CivilToJd(Civil(date.y, 3, 1), sg) == CivilToJd(date, sg) + 1
  {
    var y, march := date.y, Civil(date.y, 3, 1);
    assert Shifted(march) - Shifted(date) == (if JulianLeap(y) then 30 else 29) - date.d by { FebruaryShifted(date); }
    if sg == GREGORIAN {
      JdOfShifted(date, sg);
      JdOfShifted(march, sg);
      CorrectionNextYear(y - 1);
      LeapYears(y);
    } else {
      JulianJd(date);
      JulianJd(march);
    }
  }

  lemma LeapYears(y: int)
    ensures GregorianLeap(y) <==> JulianLeap(y) && !(y % 100 == 0 && y % 400 != 0)
    ensures y % 100 == 0 ==> JulianLeap(y)
  {
  }

  lemma FebruaryShifted(date: Civil)
    requires date.m == 2
    ensures Shifted(Civil(date.y, 3, 1)) - Shifted(date) == (if JulianLeap(date.y) then 30 else 29) - date.d
  {
    MonthTable();
    FebruaryYear(date.y);
  }

  lemma JdOfShifted(date: Civil, sg: Reform)
    requires sg == GREGORIAN
    ensures CivilToJd(date, sg) == Shifted(date) + Correction(ShiftedY(date)) - 1524
  {
  }

  lemma FebruaryYear(y: int)
    ensures YearDays(y + 4716) - YearDays(y - 1 + 4716) == if JulianLeap(y) then 366 else 365
  {
    YearLength(y - 1 + 4716);
    assert y - 1 + 4716 + 1 == y + 4716;
  }

  /** The number after a day's number is that of the calendar's next day. */
  lemma NextNumberDay(jd: int, sg: Reform)
    requires Fixed(sg)
    ensures OnCalendar(JdToCivil(jd, sg), sg) && JdToCivil(jd + 1, sg) == NextDay(JdToCivil(jd, sg), sg)
  {
    JdRoundTrip(jd, sg);
    var next := NextDay(JdToCivil(jd, sg), sg);
    NextDayNumber(JdToCivil(jd, sg), sg);
    CivilRoundTrip(next, sg);
  }
}

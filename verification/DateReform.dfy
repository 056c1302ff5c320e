/**
 A day of calendar reform: the conversions between the two calendars, and which dates are valid.
 */
module DateReform {
  import opened Common
  import opened DateCivil
  import opened DateCalendar

  /** The checks of valid_civil?, over the two conversions: a negative month or day counts from the
      end of the year or the month. */
  function Validate(toJd: Civil -> int, toCivil: (int, Reform) -> Civil, y: int, m: int, d: int,
                    sg: Reform): Option<int> {
    var month := if m < 0 then m + 13 else m;
    if d < 0 then
      var ny, nm := (y * 12 + month) / 12, (y * 12 + month) % 12 + 1;
      var jd := toJd(Civil(ny, nm, d + 1));
      var found := toCivil(jd, sg);
      if found.y == y && found.m == month && toCivil(jd - d, FixStyle(jd, sg)) == Civil(ny, nm, 1) then Some(jd)
      else None
    else
      var jd := toJd(Civil(y, month, d));
      if toCivil(jd, sg) == Civil(y, month, d) then Some(jd) else None
  }

  function ToJd(sg: Reform): Civil -> int {
    (date: Civil) => CivilToJd(date, sg)
  }

  /** valid_civil? */
  function ValidCivil(y: int, m: int, d: int, sg: Reform): Option<int> {
    Validate(ToJd(sg), JdToCivil, y, m, d, sg)
  }

  // ---- which days of reform are late enough

  /** The day behind the first of March 200 of the Julian calendar: from that day on the Gregorian
      calendar is not behind the Julian one. */
  const FIRST_REFORM: int := 1794169

  lemma CorrectionSign(y: int)
    ensures Correction(y) <= 0 <==> y >= 200
  {
  }

  /** Dates of the years in which the Gregorian calendar is behind. */
  lemma EarlyDates(jd: int, date: Civil)
    requires date == JdToCivil(jd, JULIAN) && ShiftedY(date) < 200
    ensures jd + Correction(ShiftedY(date)) < FIRST_REFORM
  {
    FromShiftedIsDate(jd + 1524);
    ShiftedRange(date);
    var y := ShiftedY(date);
    var a := y / 100;
    if y == 199 {
      assert Correction(199) == 1;
    } else {
      assert Correction(y) <= 2 - a + a / 4 && 4 * (a / 4) <= a;
      assert 4 * YearDays(y + 4717) <= 1461 * (y + 4717);
      assert y < 100 * a + 100;
    }
  }

  /** The last Julian day before an early reform lies in those years. */
  lemma EarlyReform(jd: int, date: Civil)
    requires date == JdToCivil(jd, JULIAN) && jd + 1 < FIRST_REFORM
    ensures Correction(ShiftedY(date)) >= 1
  {
    FromShiftedIsDate(jd + 1524);
    ShiftedRange(date);
    CorrectionSign(ShiftedY(date));
    if ShiftedY(date) >= 200 { YearDaysMonotone(4916, ShiftedY(date) + 4716); }
  }

  /** A day number and its date under a reform. */
  predicate Returns(jd: int, sg: Reform) {
    CivilToJd(JdToCivil(jd, sg), sg) == jd
  }

  lemma StyleOf(jd: int, sg: Reform)
    ensures JdToCivil(jd, sg) == JdToCivil(jd, FixStyle(jd, sg))
  {
  }

  lemma ReformSide(date: Civil, s: int)
    ensures CivilToJd(date, At(s))
         == if CivilToJd(date, GREGORIAN) < s then CivilToJd(date, JULIAN) else CivilToJd(date, GREGORIAN)
  {
  }

  lemma GregorianShift(date: Civil)
    ensures CivilToJd(date, GREGORIAN) == CivilToJd(date, JULIAN) + Correction(ShiftedY(date))
  {
  }

  lemma JulianPart(jd: int, s: int)
    requires jd < s
    ensures Returns(jd, At(s)) <==>
      jd + Correction(ShiftedY(JdToCivil(jd, JULIAN))) < s || Correction(ShiftedY(JdToCivil(jd, JULIAN))) == 0
  {
    var date := JdToCivil(jd, JULIAN);
    assert JdToCivil(jd, At(s)) == date by { StyleOf(jd, At(s)); }
    assert CivilToJd(date, JULIAN) == jd by { JdRoundTrip(jd, JULIAN); }
    ReformSide(date, s);
    GregorianShift(date);
  }

  /** A day number that a calendar gives on its own side of the reform is the reformed one. */
  lemma SameSide(date: Civil, s: int)
    ensures CivilToJd(date, GREGORIAN) >= s ==> CivilToJd(date, At(s)) == CivilToJd(date, GREGORIAN)
  {
  }

  lemma GregorianPart(jd: int, s: int)
    requires jd >= s
    ensures Returns(jd, At(s))
  {
    var date := JdToCivil(jd, GREGORIAN);
    assert JdToCivil(jd, At(s)) == date;
    assert CivilToJd(date, GREGORIAN) == jd by { GregorianJdRoundTrip(jd); }
    SameSide(date, s);
  }

  lemma ReformReturns(jd: int, s: int)
    requires s >= FIRST_REFORM
    ensures Returns(jd, At(s))
  {
    if jd < s {
      var date := JdToCivil(jd, JULIAN);
      JulianPart(jd, s);
      CorrectionSign(ShiftedY(date));
      if ShiftedY(date) < 200 { EarlyDates(jd, date); }
    } else {
      GregorianPart(jd, s);
    }
  }

  /** Every day number is found again from its date exactly for the days of reform that are late
      enough; ITALY and ENGLAND are. */
  lemma ReformRoundTrip(s: int)
    ensures (forall jd :: Returns(jd, At(s))) <==> s >= FIRST_REFORM
  {
    if s >= FIRST_REFORM {
      forall jd
        ensures Returns(jd, At(s))
      {
        ReformReturns(jd, s);
      }
    } else {
      JulianPart(s - 1, s);
      EarlyReform(s - 1, JdToCivil(s - 1, JULIAN));
      assert !Returns(s - 1, At(s));
    }
  }

  // ---- which dates are valid

  predicate LateEnough(sg: Reform) {
    sg.At? ==> sg.jd >= FIRST_REFORM
  }

  lemma AnyReturns(jd: int, sg: Reform)
    requires LateEnough(sg)
    ensures Returns(jd, sg)
  {
    if sg.At? { ReformReturns(jd, sg.jd); } else { JdRoundTrip(jd, sg); }
  }

  /** A negative month counts from the end of the year. */
  function MonthNamed(m: int): int { if m < 0 then m + 13 else m }

  /** With a day that is not negative, a date is valid with a day number exactly when that number has it. */
  lemma DayIsFound(y: int, m: int, d: int, sg: Reform, jd: int)
    requires LateEnough(sg) && d >= 0
    ensures ValidCivil(y, m, d, sg) == Some(jd) <==> JdToCivil(jd, sg) == Civil(y, MonthNamed(m), d)
  {
    AnyReturns(jd, sg);
  }

  /** The dates of a calendar with a reform: Julian before it and Gregorian from it on. */
  predicate OnReformed(date: Civil, s: int) {
    || (OnCalendar(date, JULIAN) && CivilToJd(date, JULIAN) < s)
    || (OnCalendar(date, GREGORIAN) && CivilToJd(date, GREGORIAN) >= s)
  }

  lemma FoundIsOnReformed(jd: int, s: int)
    ensures OnReformed(JdToCivil(jd, At(s)), s)
  {
    StyleOf(jd, At(s));
    JdRoundTrip(jd, FixStyle(jd, At(s)));
  }

  lemma OnReformedIsFound(date: Civil, s: int) returns (jd: int)
    requires OnReformed(date, s)
    ensures JdToCivil(jd, At(s)) == date
  {
    var style := if OnCalendar(date, JULIAN) && CivilToJd(date, JULIAN) < s then JULIAN else GREGORIAN;
    jd := CivilToJd(date, style);
    CivilRoundTrip(date, style);
    StyleOf(jd, At(s));
  }

  /** With days that are not negative, valid_civil? accepts the dates of the reformed calendar and rejects the days
      it skips. */
  lemma DayIsOnReformed(date: Civil, s: int)
    requires s >= FIRST_REFORM && date.m >= 0 && date.d >= 0
    ensures ValidCivil(date.y, date.m, date.d, At(s)).Some? <==> OnReformed(date, s)
  {
    var v := ValidCivil(date.y, date.m, date.d, At(s));
    if v.Some? {
      DayIsFound(date.y, date.m, date.d, At(s), v.value);
      FoundIsOnReformed(v.value, s);
    }
    if OnReformed(date, s) {
      var jd := OnReformedIsFound(date, s);
      DayIsFound(date.y, date.m, date.d, At(s), jd);
    }
  }

  /** In Italy the days from the 5th to the 14th of October 1582 were skipped. */
  lemma ItalySkips(d: int)
    requires 1 <= d <= 31
    ensures ValidCivil(1582, 10, d, ITALY).None? <==> 5 <= d <= 14
  {
    DayIsOnReformed(Civil(1582, 10, d), 2299161);
    MonthTable();
  }

  /** In England the days from the 3rd to the 13th of September 1752 were skipped. */
  lemma EnglandSkips(d: int)
    requires 1 <= d <= 30
    ensures ValidCivil(1752, 9, d, ENGLAND).None? <==> 3 <= d <= 13
  {
    DayIsOnReformed(Civil(1752, 9, d), 2361222);
    MonthTable();
  }

  /** The conversions of a calendar. */
  datatype Conversion = Conversion(toJd: Civil -> int, toCivil: (int, Reform) -> Civil) {
    ghost predicate Found(date: Civil, sg: Reform)
      requires Fixed(sg)
    {
      OnCalendar(date, sg) ==> toCivil(toJd(date), sg) == date
    }

    ghost predicate Numbered(jd: int, sg: Reform)
      requires Fixed(sg)
    {
      OnCalendar(toCivil(jd, sg), sg) && toJd(toCivil(jd, sg)) == jd
    }

    ghost predicate Followed(date: Civil, sg: Reform)
      requires Fixed(sg)
    {
      OnCalendar(date, sg) ==> OnCalendar(NextDay(date, sg), sg) && toJd(NextDay(date, sg)) == toJd(date) + 1
    }

    ghost predicate Linear(y: int, m: int, d: int) {
      toJd(Civil(y, m, d)) == toJd(Civil(y, m, 1)) + d - 1
    }

    ghost predicate Valid(sg: Reform)
      requires Fixed(sg)
    {
      && (forall date {:trigger Found(date, sg)} :: Found(date, sg))
      && (forall jd {:trigger Numbered(jd, sg)} :: Numbered(jd, sg))
      && (forall date {:trigger Followed(date, sg)} :: Followed(date, sg))
      && (forall y, m, d {:trigger Linear(y, m, d)} :: Linear(y, m, d))
    }
  }

  lemma FoundHolds(date: Civil, sg: Reform)
    requires Fixed(sg)
    ensures Conversion(ToJd(sg), JdToCivil).Found(date, sg)
  {
    if OnCalendar(date, sg) { CivilRoundTrip(date, sg); }
  }

  lemma NumberedHolds(jd: int, sg: Reform)
    requires Fixed(sg)
    ensures Conversion(ToJd(sg), JdToCivil).Numbered(jd, sg)
  {
    JdRoundTrip(jd, sg);
  }

  lemma FollowedHolds(date: Civil, sg: Reform)
    requires Fixed(sg)
    ensures Conversion(ToJd(sg), JdToCivil).Followed(date, sg)
  {
    if OnCalendar(date, sg) { NextDayNumber(date, sg); }
  }

  lemma LinearHolds(y: int, m: int, d: int, sg: Reform)
    requires Fixed(sg)
    ensures Conversion(ToJd(sg), JdToCivil).Linear(y, m, d)
  {
  }

  lemma ConversionValid(sg: Reform)
    requires Fixed(sg)
    ensures Conversion(ToJd(sg), JdToCivil).Valid(sg)
  {
    var c := Conversion(ToJd(sg), JdToCivil);
    forall date ensures c.Found(date, sg) { FoundHolds(date, sg); }
    forall jd ensures c.Numbered(jd, sg) { NumberedHolds(jd, sg); }
    forall date ensures c.Followed(date, sg) { FollowedHolds(date, sg); }
    forall y, m, d ensures c.Linear(y, m, d) { LinearHolds(y, m, d, sg); }
  }

  /** A negative day is looked up in front of the next month. */
  lemma NegativeLookup(c: Conversion, y: int, m: int, k: int, sg: Reform)
    requires Fixed(sg) && c.Valid(sg) && 1 <= m <= 12 && k > 0
    ensures var n := DaysIn(y, m, sg);
            Validate(c.toJd, c.toCivil, y, m, -k, sg) == if k <= n then Some(c.toJd(Civil(y, m, n + 1 - k))) else None
  {
    var n := DaysIn(y, m, sg);
    var next := Civil(if m == 12 then y + 1 else y, m % 12 + 1, 1);
    var jd := c.toJd(Civil(next.y, next.m, 1 - k));
    NextMonth(y, m);
    assert c.Followed(Civil(y, m, n), sg) && c.Linear(y, m, n) && c.Linear(next.y, next.m, 1 - k);
    assert c.Linear(y, m, n + 1 - k) && c.Found(next, sg);
    var found := c.toCivil(jd, sg);
    if k <= n {
      assert c.Found(Civil(y, m, n + 1 - k), sg);
    } else {
      assert c.Numbered(jd, sg) && c.Linear(found.y, found.m, found.d);
    }
  }

  lemma NextMonth(y: int, m: int)
    requires 1 <= m <= 12
    ensures (y * 12 + m) / 12 == (if m == 12 then y + 1 else y) && (y * 12 + m) % 12 == m % 12
  {
  }

  /** In a fixed calendar a day -k is the k-th last of its month. */
  lemma NegativeDay(y: int, m: int, k: int, sg: Reform)
    requires Fixed(sg) && 1 <= m <= 12 && k > 0
    ensures ValidCivil(y, m, -k, sg)
         == if k <= DaysIn(y, m, sg) then Some(CivilToJd(Civil(y, m, DaysIn(y, m, sg) + 1 - k), sg)) else None
  {
    ConversionValid(sg);
    NegativeLookup(Conversion(ToJd(sg), JdToCivil), y, m, k, sg);
  }
}

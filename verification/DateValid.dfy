/**
 What valid_civil? accepts, negative months and days included, in every calendar.
 */
module DateValid {
  import opened Common
  import opened DateCivil
  import opened DateCalendar
  import opened DateReform

  /** The date is the one named by y, m and d in a fixed calendar: a negative month counts from the end
      of the year, and a negative day from the end of the month. */
  predicate Named(date: Civil, y: int, m: int, d: int, sg: Reform)
    requires Fixed(sg) && OnCalendar(date, sg)
  {
    && date.y == y && date.m == MonthNamed(m)
    && date.d == if d < 0 then DaysIn(date.y, date.m, sg) + 1 + d else d
  }

  /** The day d of the month behind month m. */
  function InNextMonth(y: int, m: int, d: int): Civil {
    Civil(if m == 12 then y + 1 else y, m % 12 + 1, d)
  }

  /** What valid_civil? looks up for a negative day. */
  function LookUp(toJd: Civil -> int, toCivil: (int, Reform) -> Civil, y: int, m: int, k: int,
                  sg: Reform): Option<int> {
    var jd := toJd(InNextMonth(y, m, 1 - k));
    var found := toCivil(jd, sg);
    if found.y == y && found.m == m && toCivil(jd + k, FixStyle(jd, sg)) == InNextMonth(y, m, 1) then Some(jd) else None
  }

  lemma NegativeIsLookUp(toJd: Civil -> int, toCivil: (int, Reform) -> Civil, y: int, m: int, k: int, sg: Reform)
    requires 1 <= MonthNamed(m) <= 12 && k > 0
    ensures Validate(toJd, toCivil, y, m, -k, sg) == LookUp(toJd, toCivil, y, MonthNamed(m), k, sg)
  {
    NextMonth(y, MonthNamed(m));
  }

  /** The conversions of a calendar with a reform in terms of those of the fixed calendars. */
  ghost predicate Reforms(toJd: Civil -> int, g: Civil -> int, j: Civil -> int, toCivil: (int, Reform) -> Civil,
                          s: int) {
    && Conversion(g, toCivil).Valid(GREGORIAN) && Conversion(j, toCivil).Valid(JULIAN)
    && (forall date {:trigger toJd(date)} :: toJd(date) == if g(date) < s then j(date) else g(date))
    && (forall jd {:trigger toCivil(jd, At(s))} :: toCivil(jd, At(s)) == toCivil(jd, FixStyle(jd, At(s))))
  }

  /** The conversion of the fixed calendar in force on a day. */
  function StyleJd(g: Civil -> int, j: Civil -> int, style: Reform): Civil -> int {
    if style == JULIAN then j else g
  }

  /** Under a reform the look-up is that of the calendar in force on the day it arrives at, if it
      arrives there in that calendar; otherwise it finds nothing. */
  lemma LookUpStyle(toJd: Civil -> int, g: Civil -> int, j: Civil -> int, toCivil: (int, Reform) -> Civil,
                    y: int, m: int, k: int, s: int, style: Reform)
    requires Reforms(toJd, g, j, toCivil, s) && 1 <= m <= 12 && k > 0
    requires style == FixStyle(toJd(InNextMonth(y, m, 1 - k)), At(s))
    ensures LookUp(toJd, toCivil, y, m, k, At(s))
         == if toJd(InNextMonth(y, m, 1 - k)) == StyleJd(g, j, style)(InNextMonth(y, m, 1 - k))
            then LookUp(StyleJd(g, j, style), toCivil, y, m, k, style) else None
  {
    var day, first := InNextMonth(y, m, 1 - k), InNextMonth(y, m, 1);
    var jd := toJd(day);
    if jd != StyleJd(g, j, style)(day) {
      assert style == GREGORIAN && jd == j(day);
      assert Conversion(g, toCivil).Linear(day.y, day.m, day.d) && Conversion(g, toCivil).Numbered(jd + k, GREGORIAN);
    }
  }

  /** The k-th last day of a month. */
  function FromEnd(y: int, m: int, k: int, sg: Reform): Civil
    requires Fixed(sg) && 1 <= m <= 12
  {
    Civil(y, m, DaysIn(y, m, sg) + 1 - k)
  }

  lemma LookUpFixed(toJd: Civil -> int, toCivil: (int, Reform) -> Civil, y: int, m: int, k: int, sg: Reform)
    requires Fixed(sg) && Conversion(toJd, toCivil).Valid(sg) && 1 <= m <= 12 && k > 0
    ensures LookUp(toJd, toCivil, y, m, k, sg)
         == if k <= DaysIn(y, m, sg) then Some(toJd(FromEnd(y, m, k, sg))) else None
  {
    NegativeIsLookUp(toJd, toCivil, y, m, k, sg);
    NegativeLookup(Conversion(toJd, toCivil), y, m, k, sg);
  }

  lemma LookUpFound(toJd: Civil -> int, g: Civil -> int, j: Civil -> int, toCivil: (int, Reform) -> Civil,
                    y: int, m: int, k: int, s: int, jd: int, ns: Reform)
    requires Reforms(toJd, g, j, toCivil, s) && 1 <= m <= 12 && k > 0 && ns == FixStyle(jd, At(s))
    requires LookUp(toJd, toCivil, y, m, k, At(s)) == Some(jd)
    ensures k <= DaysIn(y, m, ns) && toCivil(jd, ns) == FromEnd(y, m, k, ns)
  {
    LookUpStyle(toJd, g, j, toCivil, y, m, k, s, ns);
    var c := StyleJd(g, j, ns);
    LookUpFixed(c, toCivil, y, m, k, ns);
    assert Conversion(c, toCivil).Found(FromEnd(y, m, k, ns), ns);
  }

  lemma FoundLookUp(toJd: Civil -> int, g: Civil -> int, j: Civil -> int, toCivil: (int, Reform) -> Civil,
                    y: int, m: int, k: int, s: int, jd: int, ns: Reform)
    requires Reforms(toJd, g, j, toCivil, s) && 1 <= m <= 12 && k > 0 && ns == FixStyle(jd, At(s))
    requires k <= DaysIn(y, m, ns) && toCivil(jd, ns) == FromEnd(y, m, k, ns)
    requires ns == JULIAN ==> g(InNextMonth(y, m, 1 - k)) < s
    ensures LookUp(toJd, toCivil, y, m, k, At(s)) == Some(jd)
  {
    var c := StyleJd(g, j, ns);
    LookUpFixed(c, toCivil, y, m, k, ns);
    assert Conversion(c, toCivil).Numbered(jd, ns);
    assert c(InNextMonth(y, m, 1 - k)) == jd;
    assert toJd(InNextMonth(y, m, 1 - k)) == jd;
    LookUpStyle(toJd, g, j, toCivil, y, m, k, s, ns);
  }

  // ---- the conversions of the source

  lemma SourceReforms(s: int)
    ensures Reforms(ToJd(At(s)), ToJd(GREGORIAN), ToJd(JULIAN), JdToCivil, s)
  {
    ConversionValid(GREGORIAN);
    ConversionValid(JULIAN);
    var toJd, g, j := ToJd(At(s)), ToJd(GREGORIAN), ToJd(JULIAN);
    forall date ensures toJd(date) == if g(date) < s then j(date) else g(date) {
      ReformSide(date, s);
    }
    forall jd ensures JdToCivil(jd, At(s)) == JdToCivil(jd, FixStyle(jd, At(s))) {
      StyleOf(jd, At(s));
    }
  }

  /** In front of a late reform a Julian day is not on the other side of it in Gregorian numbers. */
  lemma JulianSide(y: int, m: int, k: int, s: int, jd: int)
    requires s >= FIRST_REFORM && 1 <= m <= 12 && k > 0 && jd < s && k <= DaysIn(y, m, JULIAN)
    requires JdToCivil(jd, JULIAN) == FromEnd(y, m, k, JULIAN)
    ensures CivilToJd(InNextMonth(y, m, 1 - k), GREGORIAN) < s
  {
    var date, day := FromEnd(y, m, k, JULIAN), InNextMonth(y, m, 1 - k);
    assert CivilToJd(day, JULIAN) == jd by {
      JdRoundTrip(jd, JULIAN);
      ConversionValid(JULIAN);
      LookUpFixed(ToJd(JULIAN), JdToCivil, y, m, k, JULIAN);
    }
    GregorianShift(day);
    CorrectionSign(ShiftedY(day));
    if ShiftedY(day) < 200 {
      assert ShiftedY(date) <= ShiftedY(day) <= ShiftedY(date) + 1;
      CorrectionNextYear(ShiftedY(date));
      EarlyDates(jd, date);
    }
  }

  // ---- what is valid

  lemma NegativeIsFound(y: int, m: int, k: int, s: int, jd: int)
    requires s >= FIRST_REFORM && k > 0 && 1 <= MonthNamed(m) <= 12
    ensures var ns := FixStyle(jd, At(s));
            ValidCivil(y, m, -k, At(s)) == Some(jd) <==>
              k <= DaysIn(y, MonthNamed(m), ns) && JdToCivil(jd, ns) == FromEnd(y, MonthNamed(m), k, ns)
  {
    var toJd, g, j, ns := ToJd(At(s)), ToJd(GREGORIAN), ToJd(JULIAN), FixStyle(jd, At(s));
    var month := MonthNamed(m);
    SourceReforms(s);
    NegativeIsLookUp(toJd, JdToCivil, y, m, k, At(s));
    if ValidCivil(y, m, -k, At(s)) == Some(jd) {
      LookUpFound(toJd, g, j, JdToCivil, y, month, k, s, jd, ns);
    }
    if k <= DaysIn(y, month, ns) && JdToCivil(jd, ns) == FromEnd(y, month, k, ns) {
      if ns == JULIAN { JulianSide(y, month, k, s, jd); }
      FoundLookUp(toJd, g, j, JdToCivil, y, month, k, s, jd, ns);
    }
  }

  lemma NegativeIsFoundFixed(y: int, m: int, k: int, sg: Reform, jd: int)
    requires Fixed(sg) && k > 0 && 1 <= MonthNamed(m) <= 12
    ensures ValidCivil(y, m, -k, sg) == Some(jd) <==>
              k <= DaysIn(y, MonthNamed(m), sg) && JdToCivil(jd, sg) == FromEnd(y, MonthNamed(m), k, sg)
  {
    ConversionValid(sg);
    NegativeIsLookUp(ToJd(sg), JdToCivil, y, m, k, sg);
    LookUpFixed(ToJd(sg), JdToCivil, y, MonthNamed(m), k, sg);
    JdRoundTrip(jd, sg);
    if k <= DaysIn(y, MonthNamed(m), sg) { CivilRoundTrip(FromEnd(y, MonthNamed(m), k, sg), sg); }
  }

  /** A month that is no month is never valid. */
  lemma NoMonth(y: int, m: int, d: int, sg: Reform)
    requires !(1 <= MonthNamed(m) <= 12) && d < 0
    ensures ValidCivil(y, m, d, sg).None?
  {
    var ny, nm := (y * 12 + MonthNamed(m)) / 12, (y * 12 + MonthNamed(m)) % 12 + 1;
    var jd := CivilToJd(Civil(ny, nm, d + 1), sg);
    StyleOf(jd, sg);
    JdRoundTrip(jd, FixStyle(jd, sg));
  }

  lemma NamedFromEnd(date: Civil, y: int, m: int, d: int, ns: Reform)
    requires Fixed(ns) && OnCalendar(date, ns) && d < 0 && 1 <= MonthNamed(m) <= 12
    ensures Named(date, y, m, d, ns) <==>
            -d <= DaysIn(y, MonthNamed(m), ns) && date == FromEnd(y, MonthNamed(m), -d, ns)
  {
  }

  lemma NegativeIsNamed(y: int, m: int, d: int, sg: Reform, jd: int, date: Civil, ns: Reform)
    requires LateEnough(sg) && d < 0 && ns == FixStyle(jd, sg) && date == JdToCivil(jd, ns) && OnCalendar(date, ns)
    ensures ValidCivil(y, m, d, sg) == Some(jd) <==> Named(date, y, m, d, ns)
  {
    if !(1 <= MonthNamed(m) <= 12) {
      NoMonth(y, m, d, sg);
    } else {
      NamedFromEnd(date, y, m, d, ns);
      var k := -d;
      assert d == -k;
      if sg.At? {
        NegativeIsFound(y, m, k, sg.jd, jd);
      } else {
        NegativeIsFoundFixed(y, m, k, sg, jd);
      }
    }
  }

  /** For any year, month and day: valid_civil? gives a day number exactly when that number has the date
      that is named, in the calendar in force on that day. */
  lemma ValidIsFound(y: int, m: int, d: int, sg: Reform, jd: int)
    requires LateEnough(sg)
    ensures OnCalendar(JdToCivil(jd, InForce(jd, sg)), InForce(jd, sg))
    ensures ValidCivil(y, m, d, sg) == Some(jd) <==> Named(JdToCivil(jd, InForce(jd, sg)), y, m, d, InForce(jd, sg))
  {
    var ns := InForce(jd, sg);
    assert FixStyle(jd, sg) == ns;
    StyleOf(jd, sg);
    JdRoundTrip(jd, ns);
    if d >= 0 {
      DayIsFound(y, m, d, sg, jd);
    } else {
      NegativeIsNamed(y, m, d, sg, jd, JdToCivil(jd, ns), ns);
    }
  }

  /** The calendar in force on a date of a reformed calendar. */
  function StyleOn(date: Civil, s: int): Reform {
    if OnCalendar(date, JULIAN) && CivilToJd(date, JULIAN) < s then JULIAN else GREGORIAN
  }

  ghost predicate Names(date: Civil, y: int, m: int, d: int, s: int) {
    OnReformed(date, s) && Named(date, y, m, d, StyleOn(date, s))
  }

  lemma StyleIs(jd: int, s: int)
    ensures StyleOn(JdToCivil(jd, At(s)), s) == InForce(jd, At(s)) || s < FIRST_REFORM
  {
    var date := JdToCivil(jd, At(s));
    StyleOf(jd, At(s));
    JdRoundTrip(jd, FixStyle(jd, At(s)));
    if jd >= s && OnCalendar(date, JULIAN) && CivilToJd(date, JULIAN) < s {
      GregorianShift(date);
      CorrectionSign(ShiftedY(date));
      CivilRoundTrip(date, JULIAN);
      if ShiftedY(date) < 200 { EarlyDates(CivilToJd(date, JULIAN), date); }
    }
  }

  /** Some date is named by y, m and d exactly when they are valid: the dates named are the Julian ones
      before the reform and the Gregorian ones from it on. */
  lemma ValidIsOnReformed(y: int, m: int, d: int, s: int)
    requires s >= FIRST_REFORM
    ensures ValidCivil(y, m, d, At(s)).Some? <==> exists date :: Names(date, y, m, d, s)
  {
    var v := ValidCivil(y, m, d, At(s));
    if v.Some? {
      ValidIsFound(y, m, d, At(s), v.value);
      StyleOf(v.value, At(s));
      FoundIsOnReformed(v.value, s);
      StyleIs(v.value, s);
      assert Names(JdToCivil(v.value, At(s)), y, m, d, s);
    }
    if exists date :: Names(date, y, m, d, s) {
      var date :| Names(date, y, m, d, s);
      var jd := OnReformedIsFound(date, s);
      StyleIs(jd, s);
      StyleOf(jd, At(s));
      ValidIsFound(y, m, d, At(s), jd);
    }
  }
}

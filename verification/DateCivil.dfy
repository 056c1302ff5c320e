/**
 Julian Day Numbers and civil dates, with the float constants of the conversions taken as exact
 fractions and rounded down: 365.25 is 1461/4, 30.6001 is 306001/10000, 122.1 is 1221/10 and
 36524.25 is 146097/4.
 */
module DateCivil {
  /** The day of calendar reform: plus infinity, minus infinity or a Julian Day Number. */
  datatype Reform = JULIAN | GREGORIAN | At(jd: int)

  const ITALY := At(2299161)
  const ENGLAND := At(2361222)

  datatype Civil = Civil(y: int, m: int, d: int)

  predicate IsJulian(jd: int, sg: Reform) {
    match sg
    case JULIAN => true
    case GREGORIAN => false
    case At(start) => jd < start
  }

  /** fix_style */
  function FixStyle(jd: int, sg: Reform): Reform {
    if IsJulian(jd, sg) then JULIAN else GREGORIAN
  }

  // ---- the conversions

  /** Days before year c of the shifted calendar, whose years begin in March. */
  function YearDays(c: int): int { 1461 * c / 4 }

  /** Days before month e of such a year, e running from 4 for March to 15 for February. */
  function MonthDays(e: int): int { 306001 * e / 10000 }

  /** Gregorian minus Julian day number in a shifted year. */
  function Correction(y: int): int {
    var a := y / 100;
    2 - a + a / 4
  }

  /** civil_to_jd */
  function CivilToJd(date: Civil, sg: Reform): int {
    var y := if date.m <= 2 then date.y - 1 else date.y;
    var m := if date.m <= 2 then date.m + 12 else date.m;
    var b := Correction(y);
    var jd := YearDays(y + 4716) + MonthDays(m + 1) + date.d + b - 1524;
    if IsJulian(jd, sg) then jd - b else jd
  }

  function MonthOf(e: int): int { if e <= 13 then e - 1 else e - 13 }

  function YearOf(c: int, e: int): int { if e <= 13 then c - 4716 else c - 4715 }

  /** The part of jd_to_civil behind the correction for centuries. */
  function FromShifted(b: int): Civil {
    var c := (20 * b - 2442) / 7305;
    var d := YearDays(c);
    var e := 10000 * (b - d) / 306001;
    Civil(YearOf(c, e), MonthOf(e), b - d - MonthDays(e))
  }

  /** jd_to_civil */
  function JdToCivil(jd: int, sg: Reform): Civil {
    var x := (4 * jd - 7468865) / 146097;
    var a := if IsJulian(jd, sg) then jd else jd + 1 + x - x / 4;
    FromShifted(a + 1524)
  }

  // ---- the calendar, independently

  predicate JulianLeap(y: int) { y % 4 == 0 }

  predicate GregorianLeap(y: int) { (y % 4 == 0 && y % 100 != 0) || y % 400 == 0 }

  /** The fixed calendars. */
  predicate Fixed(sg: Reform) { sg.JULIAN? || sg.GREGORIAN? }

  /** The calendar in force on a day: the old one before the day of reform and the new one from it on. */
  function InForce(jd: int, sg: Reform): (cal: Reform)
    ensures Fixed(cal)
  {
    match sg
    case At(s) => if jd < s then JULIAN else GREGORIAN
    case _ => sg
  }

  predicate Leap(y: int, sg: Reform)
    requires Fixed(sg)
  {
    if sg.JULIAN? then JulianLeap(y) else GregorianLeap(y)
  }

  function DaysIn(y: int, m: int, sg: Reform): int
    requires Fixed(sg) && 1 <= m <= 12
  {
    if m == 2 then (if Leap(y, sg) then 29 else 28)
    else if m in {4, 6, 9, 11} then 30
    else 31
  }

  predicate OnCalendar(date: Civil, sg: Reform)
    requires Fixed(sg)
  {
    1 <= date.m <= 12 && 1 <= date.d <= DaysIn(date.y, date.m, sg)
  }

  /** The calendar's next day. */
  function NextDay(date: Civil, sg: Reform): Civil
    requires Fixed(sg) && OnCalendar(date, sg)
  {
    if date.d < DaysIn(date.y, date.m, sg) then date.(d := date.d + 1)
    else if date.m < 12 then Civil(date.y, date.m + 1, 1)
    else Civil(date.y + 1, 1, 1)
  }

  // ---- shifted years and months

  /** Year c holds the days 123 to 487 or 488 behind its beginning. */
  lemma ShiftedYear(b: int, c: int)
    ensures YearDays(c) + 123 <= b <= YearDays(c + 1) + 122 <==> (20 * b - 2442) / 7305 == c
  {
    var q, r := c / 4, c % 4;
    assert YearDays(c) == 1461 * q + 1461 * r / 4;
    assert YearDays(c + 1) == 1461 * q + 1461 * (r + 1) / 4;
  }

  lemma YearLength(c: int)
    ensures YearDays(c + 1) - YearDays(c) == if c % 4 == 3 then 366 else 365
  {
    var q, r := c / 4, c % 4;
    assert YearDays(c) == 1461 * q + 1461 * r / 4;
    assert YearDays(c + 1) == 1461 * q + 1461 * (r + 1) / 4;
  }

  lemma MonthTable()
    ensures MonthDays(4) == 122 && MonthDays(5) == 153 && MonthDays(6) == 183 && MonthDays(7) == 214
    ensures MonthDays(8) == 244 && MonthDays(9) == 275 && MonthDays(10) == 306 && MonthDays(11) == 336
    ensures MonthDays(12) == 367 && MonthDays(13) == 397 && MonthDays(14) == 428 && MonthDays(15) == 459
    ensures MonthDays(16) == 489
  {
  }

  /** The days of shifted month e, the end of the year cutting off the last one. */
  lemma ShiftedMonth(k: int, e: int)
    requires 123 <= k <= 488 && e == 10000 * k / 306001
    ensures 4 <= e <= 15 && MonthDays(e) < k <= MonthDays(e + 1)
  {
    MonthTable();
  }

  lemma ShiftedMonthUnique(k: int, e: int)
    requires 4 <= e <= 15 && MonthDays(e) < k <= MonthDays(e + 1)
    ensures 10000 * k / 306001 == e
  {
    MonthTable();
  }

  function ShiftedY(date: Civil): int { if date.m <= 2 then date.y - 1 else date.y }

  function ShiftedM(date: Civil): int { if date.m <= 2 then date.m + 13 else date.m + 1 }

  /** The day number of a date without the correction for centuries. */
  function Shifted(date: Civil): int {
    YearDays(ShiftedY(date) + 4716) + MonthDays(ShiftedM(date)) + date.d
  }

  /** A day of the shifted calendar is a date of the Julian calendar. */
  lemma FromShiftedIsDate(b: int)
    ensures var date := FromShifted(b);
            OnCalendar(date, JULIAN) && Shifted(date) == b
            && ShiftedY(date) + 4716 == (20 * b - 2442) / 7305
  {
    var c := (20 * b - 2442) / 7305;
    ShiftedYear(b, c);
    YearLength(c);
    var k := b - YearDays(c);
    ShiftedMonth(k, 10000 * k / 306001);
    MonthTable();
  }

  /** A date of the Julian calendar lies in its shifted year, and is found again. */
  lemma ShiftedRange(date: Civil)
    requires OnCalendar(date, JULIAN)
    ensures var c := ShiftedY(date) + 4716;
            YearDays(c) + 123 <= Shifted(date) <= YearDays(c + 1) + 122
  {
    YearLength(ShiftedY(date) + 4716);
    MonthTable();
  }

  lemma ShiftedIsFound(date: Civil)
    requires OnCalendar(date, JULIAN)
    ensures FromShifted(Shifted(date)) == date
  {
    var b, c, e := Shifted(date), ShiftedY(date) + 4716, ShiftedM(date);
    ShiftedRange(date);
    ShiftedYear(b, c);
    MonthTable();
    ShiftedMonthUnique(b - YearDays(c), e);
  }

  // ---- centuries

  /** The first day of March in year 100 * a of the Gregorian calendar. */
  function CenturyStart(a: int): int { 146097 * a / 4 + 1721120 }

  lemma CenturyOf(jd: int, a: int)
    ensures CenturyStart(a) <= jd < CenturyStart(a + 1) <==> (4 * jd - 7468865) / 146097 == a - 4
  {
  }

  /** Where centuries begin, in days of the shifted calendar. */
  lemma CenturyShifted(a: int)
    ensures CenturyStart(a) == YearDays(100 * a + 4716) + 123 + Correction(100 * a) - 1524
  {
    assert 100 * a / 100 == a;
  }

  lemma YearDaysMonotone(c: int, c': int)
    requires c <= c'
    ensures YearDays(c) <= YearDays(c')
  {
  }

  /** A year belongs to the century that contains its days. */
  lemma CenturyContains(b: int, c: int, a: int)
    requires YearDays(c) + 123 <= b <= YearDays(c + 1) + 122
    requires YearDays(100 * a + 4716) + 123 <= b <= YearDays(100 * a + 4816) + 122
    ensures (c - 4716) / 100 == a
  {
    if c < 100 * a + 4716 { YearDaysMonotone(c + 1, 100 * a + 4716); }
    if c >= 100 * a + 4816 { YearDaysMonotone(100 * a + 4816, c); }
  }

  lemma CorrectionStep(a: int)
    ensures Correction(100 * a + 100) - Correction(100 * a) == if a % 4 == 3 then 0 else -1
  {
    assert 100 * a / 100 == a && (100 * a + 100) / 100 == a + 1;
  }

  lemma CorrectionOfCentury(y: int)
    ensures Correction(y) == Correction(100 * (y / 100))
  {
    assert 100 * (y / 100) / 100 == y / 100;
  }

  /** jd_to_civil removes exactly the correction that belongs to the century. */
  lemma CorrectionRemoved(jd: int, a: int)
    requires CenturyStart(a) <= jd < CenturyStart(a + 1)
    ensures JdToCivil(jd, GREGORIAN) == FromShifted(jd - Correction(100 * a) + 1524)
  {
    CenturyOf(jd, a);
    assert 100 * a / 100 == a;
    assert (a - 4) / 4 == a / 4 - 1;
  }
}

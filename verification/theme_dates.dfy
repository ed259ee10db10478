/** The age and date-difference pages of the WordPress theme: a field-wise
    year/month/day difference that borrows the length of the month before
    the end date, plus day-based totals and the next birthday. */
module ThemeDates {
  import opened Base
  import opened Calendar

  /** Length of the month before the end date's month:
      `new Date(end.getFullYear(), end.getMonth(), 0).getDate()`. */
  function PrecedingMonthLength(end: Date): (n: int)
    requires Valid(end)
    ensures 28 <= n <= 31
    ensures end.month > 1 ==> n == DaysInMonth(end.year, end.month - 1)
    ensures end.month == 1 ==> n == 31
  {
    if end.month > 1 then
      DayZeroIsMonthEnd(end.year, end.month - 1);
      MakeDate(end.year, end.month - 1, 0).day
    else
      JanuaryDayZero(end.year);
      MakeDate(end.year, 0, 0).day
  }

  /** Day 0 of January is December 31st of the year before. */
  lemma JanuaryDayZero(y: int)
    ensures MakeDate(y, 0, 0) == Date(y - 1, 12, 31)
  {
    assert MakeDate(y, 0, 0) == Roll(y, 1, 0);
    assert Roll(y, 1, 0) == Roll(y - 1, 12, 31);
  }

  /** Field-wise difference with one borrow per field, as written in the
      theme: a negative day count borrows a month and adds the length of the
      month preceding the end month; a negative month count borrows a year. */
  function BorrowBreakdown(start: Date, end: Date): (b: Breakdown)
    requires Valid(start) && Valid(end)
    ensures 0 <= b.months <= 11
    ensures !Before(end, start) ==> b.years >= 0
    ensures b.years * 12 + b.months
            == (end.year * 12 + end.month) - (start.year * 12 + start.month)
               - (if end.day < start.day then 1 else 0)
    ensures end.day >= start.day ==> b.days == end.day - start.day
    ensures end.day < start.day ==> b.days == end.day + PrecedingMonthLength(end) - start.day
    ensures b.days < 0 <==> start.day > end.day + PrecedingMonthLength(end)
  {
    var years := end.year - start.year;
    var months := end.month - start.month;
    var days := end.day - start.day;
    var months1 := if days < 0 then months - 1 else months;
    var days1 := if days < 0 then days + PrecedingMonthLength(end) else days;
    if months1 < 0 then Breakdown(years - 1, months1 + 12, days1)
    else Breakdown(years, months1, days1)
  }

  /** From 2000-01-15 to 2024-06-10 is
      24 years, 4 months and 26 days. */
  lemma BreakdownExample()
    ensures BorrowBreakdown(Date(2000, 1, 15), Date(2024, 6, 10)) == Breakdown(24, 4, 26)
  {
  }

  /** Born January 31st, as of March 1st of a common year: the borrowed
      February has only 28 days, and the day count comes out negative. */
  lemma NegativeDaysExample()
    ensures BorrowBreakdown(Date(2023, 1, 31), Date(2023, 3, 1)) == Breakdown(0, 1, -2)
  {
    assert PrecedingMonthLength(Date(2023, 3, 1)) == 28;
  }

  /** The borrow algorithm with the borrowed month capped: when the start
      day does not exist in the month before the end month, that month is
      counted as reaching its end, and only the end month's days remain. */
  function CappedBorrowBreakdown(start: Date, end: Date): (b: Breakdown)
    requires Valid(start) && Valid(end)
    ensures 0 <= b.months <= 11 && 0 <= b.days <= 30
    ensures !Before(end, start) ==> b.years >= 0
    ensures b.years * 12 + b.months == BorrowBreakdown(start, end).years * 12 + BorrowBreakdown(start, end).months
    ensures BorrowBreakdown(start, end).days >= 0 ==> b == BorrowBreakdown(start, end)
  {
    var b := BorrowBreakdown(start, end);
    if b.days < 0 then Breakdown(b.years, b.months, end.day) else b
  }

  /** The input of `NegativeDaysExample` with the capped borrow: one month
      and the one day of March. */
  lemma CappedExample()
    ensures CappedBorrowBreakdown(Date(2023, 1, 31), Date(2023, 3, 1)) == Breakdown(0, 1, 1)
  {
    NegativeDaysExample();
  }

  /** Age page result (template-age-calculator.php). */
  datatype AgeReport = AgeReport(
    age: Breakdown, totalMonths: int, totalWeeks: int, totalDays: int,
    totalHours: int, daysToNextBirthday: int)

  /** What the age page shows once both alerts are passed: the figures, or
      NaN in every figure when the as-of field was cleared (an Invalid Date
      compares false with the birth date, so no alert stops it). */
  datatype AgeShown = Figures(report: AgeReport) | AllNaN

  /** `calculateAge` of the age page; `birth` and `asOf` are None when their
      fields are empty. */
  function CalculateAge(birth: Option<Date>, asOf: Option<Date>): (r: Result<AgeShown>)
    requires birth.Some? ==> Valid(birth.value)
    requires asOf.Some? ==> Valid(asOf.value)
    ensures birth.None? ==> r == Err("Please select your date of birth")
    ensures birth.Some? && asOf.None? ==> r == Ok(AllNaN)
    ensures birth.Some? && asOf.Some? && Before(asOf.value, birth.value)
            ==> r == Err("Birth date cannot be after the calculation date")
    ensures r.Ok? && r.value.Figures? <==> birth.Some? && asOf.Some? && !Before(asOf.value, birth.value)
    ensures r.Ok? && r.value.Figures? ==>
      var a := r.value.report;
      var b := birth.value;
      var t := asOf.value;
      && a.age == BorrowBreakdown(b, t)
      && a.age.years >= 0 && 0 <= a.age.months <= 11
      && a.totalDays == DayNumber(t) - DayNumber(b) >= 0
      && a.totalMonths == a.age.years * 12 + a.age.months
      && a.totalWeeks * 7 <= a.totalDays < a.totalWeeks * 7 + 7
      && a.totalHours == a.totalDays * 24
      && a.daysToNextBirthday == DayNumber(NextBirthday(b, t)) - DayNumber(t) >= 0
      && (a.daysToNextBirthday == 0 <==> MakeDate(t.year, b.month - 1, b.day) == t)
  {
    match birth
    case None => Err("Please select your date of birth")
    case Some(b) =>
      match asOf
      case None => Ok(AllNaN)
      case Some(t) =>
        if Before(t, b) then Err("Birth date cannot be after the calculation date")
        else
          Ok(Figures(AgeFigures(b, t)))
  }

  /** The figures of the age page for a birth date not after the as-of
      date. */
  function AgeFigures(b: Date, t: Date): (a: AgeReport)
    requires Valid(b) && Valid(t) && !Before(t, b)
    ensures a.age == BorrowBreakdown(b, t)
    ensures a.age.years >= 0 && 0 <= a.age.months <= 11
    ensures a.totalDays == DayNumber(t) - DayNumber(b) >= 0
    ensures a.totalMonths == a.age.years * 12 + a.age.months
    ensures a.totalWeeks * 7 <= a.totalDays < a.totalWeeks * 7 + 7
    ensures a.totalHours == a.totalDays * 24
    ensures a.daysToNextBirthday == DayNumber(NextBirthday(b, t)) - DayNumber(t) >= 0
    ensures a.daysToNextBirthday == 0 <==> MakeDate(t.year, b.month - 1, b.day) == t
  {
    DayNumberOrder(b, t);
    var age := BorrowBreakdown(b, t);
    var totalDays := DayNumber(t) - DayNumber(b);
    AgeReport(age, age.years * 12 + age.months, totalDays / 7, totalDays,
              totalDays * 24, DayNumber(NextBirthday(b, t)) - DayNumber(t))
  }

  /** Date-difference page result (template-date-difference.php). */
  datatype DifferenceReport = DifferenceReport(
    difference: Breakdown, totalDays: int, totalWeeks: int, totalHours: int, totalMinutes: int)

  /** `calculateDateDifference` of the date-difference page. */
  function CalculateDateDifference(start: Option<Date>, end: Option<Date>): (r: Result<DifferenceReport>)
    requires start.Some? ==> Valid(start.value)
    requires end.Some? ==> Valid(end.value)
    ensures (start.None? || end.None?) ==> r == Err("Please select both dates")
    ensures start.Some? && end.Some? && Before(end.value, start.value)
            ==> r == Err("Start date must be before end date")
    ensures r.Ok? <==> start.Some? && end.Some? && !Before(end.value, start.value)
    ensures r.Ok? ==>
      var d := r.value;
      && d.difference == BorrowBreakdown(start.value, end.value)
      && d.difference.years >= 0 && 0 <= d.difference.months <= 11
      && d.totalDays == DayNumber(end.value) - DayNumber(start.value) >= 0
      && d.totalWeeks * 7 <= d.totalDays < d.totalWeeks * 7 + 7
      && d.totalHours == d.totalDays * 24
      && d.totalMinutes == d.totalDays * 1440
  {
    if start.None? || end.None? then Err("Please select both dates")
    else if Before(end.value, start.value) then Err("Start date must be before end date")
    else
      DayNumberOrder(start.value, end.value);
      var totalDays := DayNumber(end.value) - DayNumber(start.value);
      var totalHours := totalDays * 24;
      Ok(DifferenceReport(BorrowBreakdown(start.value, end.value), totalDays, totalDays / 7,
                          totalHours, totalHours * 60))
  }
}

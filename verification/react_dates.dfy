/** The React age and date-difference tools: whole-unit differences in the
    manner of date-fns, the year-then-month subtraction that splits an age
    into years, months and days, the select-box option lists and the
    assembly of a date from three selected fields. */
module ReactDates {
  import opened Base
  import opened Calendar

  /** Months since the start of year 0: orders (year, month) pairs. */
  function MonthIndex(d: Date): int {
    12 * d.year + d.month - 1
  }

  /** The date with month index `k` and day `day`, fields taken as they are. */
  function FromIndex(k: int, day: int): (r: Date)
    ensures 1 <= r.month <= 12
    ensures MonthIndex(r) == k
  {
    Date(k / 12, k % 12 + 1, day)
  }

  /** The field-wise anniversary `n` months after `d`: same day of month,
      with no rollover, so it may name a day past the end of its month. */
  function AddMonths(d: Date, n: int): (r: Date)
    requires 1 <= d.month <= 12
    ensures r.day == d.day
    ensures MonthIndex(r) == MonthIndex(d) + n
    ensures n % 12 == 0 ==> r == Date(d.year + n / 12, d.month, d.day)
  {
    FromIndex(MonthIndex(d) + n, d.day)
  }

  /** On well-formed months, calendar order is month-index order first and
      day order second. */
  lemma IndexOrder(a: Date, b: Date)
    requires 1 <= a.month <= 12 && 1 <= b.month <= 12
    ensures MonthIndex(a) < MonthIndex(b) ==> Before(a, b)
    ensures MonthIndex(a) == MonthIndex(b) ==> (Before(a, b) <==> a.day < b.day)
  {
  }

  /** Whole years from `earlier` to `later`: year difference, less one when
      the later month and day have not yet reached the earlier ones. */
  function WholeYears(later: Date, earlier: Date): (n: int)
    ensures !Before(later, Date(earlier.year + n, earlier.month, earlier.day))
    ensures Before(later, Date(earlier.year + n + 1, earlier.month, earlier.day))
  {
    var notReached := later.month < earlier.month
                      || (later.month == earlier.month && later.day < earlier.day);
    (later.year - earlier.year) - (if notReached then 1 else 0)
  }

  /** Whole months from `earlier` to `later`: month-index difference, less
      one when the later day of month has not reached the earlier one. */
  function WholeMonths(later: Date, earlier: Date): (n: int)
    requires 1 <= later.month <= 12 && 1 <= earlier.month <= 12
    ensures !Before(later, AddMonths(earlier, n))
    ensures Before(later, AddMonths(earlier, n + 1))
    ensures !Before(later, earlier) ==> n >= 0
  {
    var n := MonthIndex(later) - MonthIndex(earlier) - (if later.day < earlier.day then 1 else 0);
    IndexOrder(later, AddMonths(earlier, n));
    IndexOrder(later, AddMonths(earlier, n + 1));
    IndexOrder(later, earlier);
    n
  }

  /** The whole-units characterisations pin the counts down: no other count
      has its anniversary on or before `later` and the next one after it. */
  lemma WholeUnitsUnique(later: Date, earlier: Date, n: int)
    requires 1 <= later.month <= 12 && 1 <= earlier.month <= 12
    requires !Before(later, AddMonths(earlier, n)) && Before(later, AddMonths(earlier, n + 1))
    ensures n == WholeMonths(later, earlier)
  {
    var w := WholeMonths(later, earlier);
    IndexOrder(later, AddMonths(earlier, n));
    IndexOrder(later, AddMonths(earlier, n + 1));
    IndexOrder(later, AddMonths(earlier, w));
    IndexOrder(later, AddMonths(earlier, w + 1));
  }

  /** Whole years are the whole months divided by twelve, rounded down. */
  lemma {:induction false} YearsFromMonths(later: Date, earlier: Date)
    requires 1 <= later.month <= 12 && 1 <= earlier.month <= 12
    ensures WholeYears(later, earlier) == WholeMonths(later, earlier) / 12
  {
    var dy := later.year - earlier.year;
    var r := later.month - earlier.month - (if later.day < earlier.day then 1 else 0);
    assert WholeMonths(later, earlier) == 12 * dy + r;
    assert -12 <= r <= 11;
    if r >= 0 {
      assert (12 * dy + r) / 12 == dy;
    } else {
      assert (12 * dy + r) / 12 == dy - 1;
    }
  }

  /** `differenceInYears(later, earlier)`: whole years, negated when the
      arguments are the other way round. */
  function DifferenceInYears(later: Date, earlier: Date): (n: int)
    ensures Before(later, earlier) ==> n <= 0
    ensures !Before(later, earlier) ==> n >= 0
  {
    if Before(later, earlier) then -WholeYears(earlier, later)
    else if Before(earlier, later) then WholeYears(later, earlier)
    else 0
  }

  /** `differenceInMonths(later, earlier)`, signed like `DifferenceInYears`. */
  function DifferenceInMonths(later: Date, earlier: Date): (n: int)
    requires 1 <= later.month <= 12 && 1 <= earlier.month <= 12
    ensures Before(later, earlier) ==> n <= 0
    ensures !Before(later, earlier) ==> n >= 0
  {
    if Before(later, earlier) then -WholeMonths(earlier, later)
    else if Before(earlier, later) then WholeMonths(later, earlier)
    else 0
  }

  /** Swapping the arguments negates both differences. */
  lemma DifferencesAntisymmetric(a: Date, b: Date)
    requires 1 <= a.month <= 12 && 1 <= b.month <= 12
    ensures DifferenceInYears(a, b) == -DifferenceInYears(b, a)
    ensures DifferenceInMonths(a, b) == -DifferenceInMonths(b, a)
  {
  }

  /** `differenceInDays` on calendar dates. */
  function DifferenceInDays(later: Date, earlier: Date): (n: int)
    requires Valid(later) && Valid(earlier)
    ensures n >= 0 <==> !Before(later, earlier)
    ensures n == 0 <==> later == earlier
  {
    DayNumberOrder(later, earlier);
    DayNumberOrder(earlier, later);
    DayNumber(later) - DayNumber(earlier)
  }

  /** `getDaysInMonth(year, month)`: day 0 of the following month, for a
      1-based month as the month select box yields. */
  function GetDaysInMonth(year: int, month: int): (n: int)
    requires 1 <= month <= 12
    ensures n == DaysInMonth(year, month)
  {
    DayZeroIsMonthEnd(year, month);
    MakeDate(year, month, 0).day
  }

  /** The day select box: 1..length of the chosen month once year and month
      are chosen, otherwise 1..31. */
  function DayOptions(year: Option<int>, month: Option<int>): (r: seq<int>)
    requires month.Some? ==> 1 <= month.value <= 12
    ensures |r| == (if year.Some? && month.Some? then DaysInMonth(year.value, month.value) else 31)
    ensures forall i :: 0 <= i < |r| ==> r[i] == i + 1
  {
    var n := if year.Some? && month.Some? then GetDaysInMonth(year.value, month.value) else 31;
    seq(n, i => i + 1)
  }

  /** Year select box of the age tool: the current year and the 99 before it,
      newest first. */
  function BirthYearOptions(currentYear: int): (r: seq<int>)
    ensures |r| == 100
    ensures forall i, j :: 0 <= i < j < |r| ==> r[i] > r[j]
    ensures forall y :: y in r <==> currentYear - 99 <= y <= currentYear
  {
    var r := seq(100, i => currentYear - i);
    forall y | currentYear - 99 <= y <= currentYear
      ensures y in r
    {
      assert r[currentYear - y] == y;
    }
    r
  }

  /** Year select boxes of the date-difference tool: fifty years ahead down
      to 49 years back. */
  function SpanYearOptions(currentYear: int): (r: seq<int>)
    ensures |r| == 100
    ensures forall i, j :: 0 <= i < j < |r| ==> r[i] > r[j]
    ensures forall y :: y in r <==> currentYear - 49 <= y <= currentYear + 50
  {
    var r := seq(100, i => currentYear - i + 50);
    forall y | currentYear - 49 <= y <= currentYear + 50
      ensures y in r
    {
      assert r[currentYear + 50 - y] == y;
    }
    r
  }

  /** The effect that builds a date from the three select boxes: the date is
      replaced only when year, month and day are all selected, and a day the
      month does not have rolls into the next month. */
  function AssembleDate(previous: Option<Date>, year: Option<int>, month: Option<int>, day: Option<int>)
    : (r: Option<Date>)
    requires month.Some? ==> 1 <= month.value <= 12
    ensures !(year.Some? && month.Some? && day.Some?) ==> r == previous
    ensures year.Some? && month.Some? && day.Some? ==> r.Some? && Valid(r.value)
    ensures year.Some? && month.Some? && day.Some? && 1 <= day.value <= DaysInMonth(year.value, month.value)
            ==> r == Some(Date(year.value, month.value, day.value))
  {
    if year.Some? && month.Some? && day.Some? then
      if 1 <= day.value <= DaysInMonth(year.value, month.value) then
        MakeDateOfValid(Date(year.value, month.value, day.value));
        Some(MakeDate(year.value, month.value - 1, day.value))
      else
        Some(MakeDate(year.value, month.value - 1, day.value))
    else previous
  }

  /** `setFullYear(year)` on a date: the same month and day in another year,
      rolled over as the `Date` constructor does (Feb 29 becomes Mar 1). */
  function SetFullYear(d: Date, year: int): (r: Date)
    requires Valid(d)
    ensures Valid(r)
    ensures d.day <= DaysInMonth(year, d.month) ==> r == Date(year, d.month, d.day)
    ensures d.day > DaysInMonth(year, d.month) ==> r == Date(year, 3, 1) && d.month == 2 && d.day == 29
  {
    if d.day <= DaysInMonth(year, d.month) then
      MakeDateOfValid(Date(year, d.month, d.day));
      MakeDate(year, d.month - 1, d.day)
    else
      RollPastMonthEnd(year, d.month, d.day);
      MakeDate(year, d.month - 1, d.day)
  }

  /** The year-then-month subtraction of both React age tools: whole years,
      then whole months from the birth date to today moved back by those
      years, then days from the birth date to that date moved back by those
      months. The months and days are reported as absolute values. */
  function SubtractionBreakdown(birth: Date, today: Date): (b: Breakdown)
    requires Valid(birth) && Valid(today) && !Before(today, birth)
    ensures b.years == WholeYears(today, birth) >= 0
    ensures b.months >= 0 && b.days >= 0
    ensures b.years == WholeMonths(today, birth) / 12
  {
    YearsFromMonths(today, birth);
    var years := DifferenceInYears(today, birth);
    var yearsBack := SetFullYear(today, today.year - years);
    var months := DifferenceInMonths(yearsBack, birth);
    var monthsBack := MakeDate(yearsBack.year, yearsBack.month - 1 - months, yearsBack.day);
    var days := DifferenceInDays(monthsBack, birth);
    Breakdown(years, Abs(months), Abs(days))
  }

  function Abs(x: int): (r: int)
    ensures r >= 0 && (r == x || r == -x)
  {
    if x < 0 then -x else x
  }

  /** Born 2020-03-01, as of 2024-02-29: three whole years, but moving
      2024-02-29 back three years lands on 2021-03-01, a full twelve months
      after the birth date, so the tool reports "3 years, 12 months". */
  lemma TwelveMonthsExample()
    ensures SubtractionBreakdown(Date(2020, 3, 1), Date(2024, 2, 29)) == Breakdown(3, 12, 0)
  {
    var birth := Date(2020, 3, 1);
    var today := Date(2024, 2, 29);
    assert WholeYears(today, birth) == 3;
    var yearsBack := SetFullYear(today, 2021);
    assert yearsBack == Date(2021, 3, 1);
    assert DifferenceInMonths(yearsBack, birth) == 12;
    MakeDateOfValid(birth);
    assert MakeDate(2021, 2 - 12, 1) == MakeDate(2020, 2, 1);
  }

  /** `subYears`-style year shift: the same month and day in another year,
      clamped to the end of a shorter month instead of rolling over. */
  function ClampYear(d: Date, year: int): (r: Date)
    requires Valid(d)
    ensures Valid(r) && r.year == year && r.month == d.month
    ensures r.day == (if d.day <= DaysInMonth(year, d.month) then d.day else DaysInMonth(year, d.month))
  {
    Date(year, d.month, if d.day <= DaysInMonth(year, d.month) then d.day else DaysInMonth(year, d.month))
  }

  /** The subtraction breakdown with the year shift clamped: the months are
      always a remainder below twelve. */
  function ClampedBreakdown(birth: Date, today: Date): (b: Breakdown)
    requires Valid(birth) && Valid(today) && !Before(today, birth)
    ensures b.years == WholeYears(today, birth) >= 0
    ensures 0 <= b.months <= 11
    ensures b.days >= 0
  {
    var years := WholeYears(today, birth);
    var yearsBack := ClampYear(today, today.year - years);
    assert !Before(yearsBack, birth);
    var months := WholeMonths(yearsBack, birth);
    var monthsBack := MakeDate(yearsBack.year, yearsBack.month - 1 - months, yearsBack.day);
    Breakdown(years, months, Abs(DifferenceInDays(monthsBack, birth)))
  }

  /** The input of `TwelveMonthsExample` with the clamped shift: 2024-02-29
      moved back three years is 2021-02-28, eleven whole months after the
      birth date, and 27 days remain. */
  lemma ClampedExample()
    ensures ClampedBreakdown(Date(2020, 3, 1), Date(2024, 2, 29)) == Breakdown(3, 11, 27)
  {
    var birth := Date(2020, 3, 1);
    var today := Date(2024, 2, 29);
    assert WholeYears(today, birth) == 3;
    var yearsBack := ClampYear(today, 2021);
    assert yearsBack == Date(2021, 2, 28);
    assert WholeMonths(yearsBack, birth) == 11;
    assert MakeDate(2021, 1 - 11, 28) == Date(2020, 3, 28);
  }

  /** Result of `calculateAge` in ImprovedAgeCalculator.tsx. */
  datatype AgeResult = AgeResult(
    age: Breakdown, totalMonths: int, totalWeeks: int, totalDays: int,
    nextBirthday: Date, daysUntilNextBirthday: int)

  /** `calculateAge` of ImprovedAgeCalculator.tsx; `birth` is None until a
      birth date has been assembled. The page's `today` is `new Date()`,
      which carries the time of day, while the birth date and the next
      birthday are local midnights: `pastMidnight` says that the clock is
      later than 00:00:00.000. Past midnight, `isBefore(nextBirthday, today)`
      holds on the birthday itself, and `differenceInDays`, which counts
      whole days only, comes out one short of the calendar difference. The
      other figures compare a midnight with a later time on the same or a
      later day and are the calendar ones either way. */
  function ImprovedCalculateAge(birth: Option<Date>, today: Date, pastMidnight: bool): (r: Result<AgeResult>)
    requires birth.Some? ==> Valid(birth.value)
    requires Valid(today)
    ensures birth.None? ==> r == Err("Please select your birth date")
    ensures birth.Some? && Before(today, birth.value) ==> r == Err("Birth date cannot be in the future")
    ensures r.Ok? <==> birth.Some? && !Before(today, birth.value)
    ensures r.Ok? ==>
      var a := r.value;
      && a.age.years >= 0 && a.age.months >= 0 && a.age.days >= 0
      && a.totalMonths == WholeMonths(today, birth.value)
      && a.age.years == a.totalMonths / 12
      && a.totalDays == DayNumber(today) - DayNumber(birth.value) >= 0
      && a.totalWeeks * 7 <= a.totalDays < a.totalWeeks * 7 + 7
      && !Before(a.nextBirthday, today)
      && (!pastMidnight || NextBirthday(birth.value, today) != today ==> a.nextBirthday == NextBirthday(birth.value, today))
      && (pastMidnight && NextBirthday(birth.value, today) == today ==>
            a.nextBirthday == MakeDate(today.year + 1, today.month - 1, today.day))
      && (pastMidnight ==> DayNumber(a.nextBirthday) > DayNumber(today))
      && a.daysUntilNextBirthday == DayNumber(a.nextBirthday) - DayNumber(today) - (if pastMidnight then 1 else 0) >= 0
  {
    match birth
    case None => Err("Please select your birth date")
    case Some(b) =>
      if Before(today, b) then Err("Birth date cannot be in the future")
      else
        var totalDays := DifferenceInDays(today, b);
        var next := ClockedNextBirthday(b, today, pastMidnight);
        DayNumberOrder(next, today);
        var untilNext := DifferenceInDays(next, today) - (if pastMidnight then 1 else 0);
        Ok(AgeResult(SubtractionBreakdown(b, today), DifferenceInMonths(today, b), totalDays / 7,
                     totalDays, next, untilNext))
  }

  /** The next birthday the page finds when its clock is past midnight or
      not: past midnight, a birthday falling today is already "before" now
      and is moved on with `setFullYear(today.getFullYear() + 1)`. */
  function ClockedNextBirthday(birth: Date, today: Date, pastMidnight: bool): (next: Date)
    requires Valid(birth) && Valid(today)
    ensures Valid(next) && DayNumber(next) >= DayNumber(today)
    ensures pastMidnight ==> DayNumber(next) > DayNumber(today)
  {
    var plain := NextBirthday(birth, today);
    if pastMidnight && plain == today then
      NextYearIsLater(today, today);
      MakeDate(today.year + 1, today.month - 1, today.day)
    else
      NextBirthdayNotToday(birth, today);
      plain
  }

  /** Ten calendar days before a birthday the page shows 9 days once its
      clock is past midnight; on the birthday itself it shows next year's. */
  lemma ClockExamples()
    ensures var r := ImprovedCalculateAge(Some(Date(2000, 6, 11)), Date(2023, 6, 1), true);
      r.Ok? && r.value.nextBirthday == Date(2023, 6, 11) && r.value.daysUntilNextBirthday == 9
    ensures var r := ImprovedCalculateAge(Some(Date(2000, 6, 11)), Date(2023, 6, 1), false);
      r.Ok? && r.value.daysUntilNextBirthday == 10
    ensures var r := ImprovedCalculateAge(Some(Date(2000, 6, 1)), Date(2023, 6, 1), true);
      r.Ok? && r.value.nextBirthday == Date(2024, 6, 1)
  {
    MakeDateOfValid(Date(2023, 6, 11));
    MakeDateOfValid(Date(2023, 6, 1));
    MakeDateOfValid(Date(2024, 6, 1));
  }

  /** A next birthday other than today falls after today. */
  lemma NextBirthdayNotToday(birth: Date, today: Date)
    requires Valid(birth) && Valid(today)
    ensures NextBirthday(birth, today) != today ==> DayNumber(NextBirthday(birth, today)) > DayNumber(today)
  {
    DayNumberOrder(NextBirthday(birth, today), today);
  }

  /** Result of `calculateAge` in AgeCalculator.tsx. */
  datatype BasicAgeResult = BasicAgeResult(age: Breakdown, totalMonths: int, totalWeeks: int, totalDays: int)

  /** `calculateAge` of AgeCalculator.tsx. */
  function BasicCalculateAge(birth: Option<Date>, today: Date): (r: Result<BasicAgeResult>)
    requires birth.Some? ==> Valid(birth.value)
    requires Valid(today)
    ensures birth.None? ==> r == Err("Please select your birth date")
    ensures birth.Some? && Before(today, birth.value) ==> r == Err("Birth date cannot be in the future")
    ensures r.Ok? <==> birth.Some? && !Before(today, birth.value)
    ensures r.Ok? ==>
      var a := r.value;
      && a.age.years >= 0 && a.age.months >= 0 && a.age.days >= 0
      && a.age.years == WholeYears(today, birth.value)
      && a.totalMonths == WholeMonths(today, birth.value)
      && a.totalDays == DayNumber(today) - DayNumber(birth.value) >= 0
      && a.totalWeeks * 7 <= a.totalDays < a.totalWeeks * 7 + 7
  {
    match birth
    case None => Err("Please select your birth date")
    case Some(b) =>
      if Before(today, b) then Err("Birth date cannot be in the future")
      else
        var totalDays := DifferenceInDays(today, b);
        Ok(BasicAgeResult(SubtractionBreakdown(b, today), DifferenceInMonths(today, b), totalDays / 7, totalDays))
  }

  /** The calendar of AgeCalculator.tsx disables the dates after today. */
  predicate CalendarDisabled(d: Date, today: Date) {
    Before(today, d)
  }

  /** Any date the calendar lets the user pick yields an age. */
  lemma SelectableDateHasAge(d: Date, today: Date)
    requires Valid(d) && Valid(today) && !CalendarDisabled(d, today)
    ensures BasicCalculateAge(Some(d), today).Ok?
  {
  }

  /** The "You are an adult" panel: shown from 18 whole years on, with the
      years since then. */
  function AdultYears(years: int): (r: Option<int>)
    ensures r.Some? <==> years >= 18
    ensures r.Some? ==> r.value >= 0 && r.value + 18 == years
  {
    if years >= 18 then Some(years - 18) else None
  }

  /** `getLifeProgressPercentage`: the share of an 80-year life, capped at 100. */
  function LifeProgress(years: int): (p: real)
    ensures p <= 100.0
    ensures p == 100.0 <==> years >= 80
    ensures years >= 0 ==> p >= 0.0
    ensures years < 80 ==> p * 80.0 == years as real * 100.0
  {
    var percentage := (years as real / 80.0) * 100.0;
    if percentage < 100.0 then percentage else 100.0
  }

  /** Result of `calculateDateDifference` in ImprovedDateDifferenceCalculator.tsx. */
  datatype SpanResult = SpanResult(
    years: int, months: int, weeks: int, days: int, hours: int, seconds: int, totalDays: int)

  /** `calculateDateDifference` of ImprovedDateDifferenceCalculator.tsx. */
  function ImprovedDateDifference(start: Option<Date>, end: Option<Date>): (r: Result<SpanResult>)
    requires start.Some? ==> Valid(start.value)
    requires end.Some? ==> Valid(end.value)
    ensures (start.None? || end.None?) ==> r == Err("Please select both dates")
    ensures start.Some? && end.Some? && Before(end.value, start.value)
            ==> r == Err("Start date cannot be after end date")
    ensures r.Ok? <==> start.Some? && end.Some? && !Before(end.value, start.value)
    ensures r.Ok? ==>
      var s := r.value;
      && s.totalDays == s.days == DayNumber(end.value) - DayNumber(start.value) >= 0
      && s.months == WholeMonths(end.value, start.value)
      && s.years == s.months / 12
      && s.weeks * 7 <= s.days < s.weeks * 7 + 7
      && s.hours == s.days * 24
      && s.seconds == s.days * 86400
  {
    if start.None? || end.None? then Err("Please select both dates")
    else if Before(end.value, start.value) then Err("Start date cannot be after end date")
    else
      var days := DifferenceInDays(end.value, start.value);
      YearsFromMonths(end.value, start.value);
      Ok(SpanResult(DifferenceInYears(end.value, start.value), DifferenceInMonths(end.value, start.value),
                    days / 7, days, days * 24, days * 86400, days))
  }
}

/** Proleptic Gregorian calendar dates, the day-number function that orders
    them, and the rollover rule of the JavaScript `Date` constructor, which
    every date tool of the project uses to assemble and shift dates. */
module Calendar {

  /** A calendar date: year, month 1..12, day of month. */
  datatype Date = Date(year: int, month: int, day: int)

  predicate IsLeapYear(y: int) {
    y % 4 == 0 && (y % 100 != 0 || y % 400 == 0)
  }

  function DaysInYear(y: int): int {
    if IsLeapYear(y) then 366 else 365
  }

  /** Length of month `m` (1-based) of year `y`. */
  function DaysInMonth(y: int, m: int): int
    requires 1 <= m <= 12
  {
    if m == 2 then (if IsLeapYear(y) then 29 else 28)
    else if m == 4 || m == 6 || m == 9 || m == 11 then 30
    else 31
  }

  predicate Valid(d: Date) {
    1 <= d.month <= 12 && 1 <= d.day <= DaysInMonth(d.year, d.month)
  }

  /** Days from 0001-01-01 to January 1st of year `y` (negative before year 1). */
  function DaysBeforeYear(y: int): int {
    365 * (y - 1) + (y - 1) / 4 - (y - 1) / 100 + (y - 1) / 400
  }

  /** Days from January 1st of year `y` to the first of month `m`; m = 13 is the next New Year. */
  function DaysBeforeMonth(y: int, m: int): int
    requires 1 <= m <= 13
  {
    var cumulative := [0, 31, 59, 90, 120, 151, 181, 212, 243, 273, 304, 334, 365];
    cumulative[m - 1] + (if IsLeapYear(y) && m > 2 then 1 else 0)
  }

  /** Consecutive day number of a date: 0 on 0001-01-01. */
  function DayNumber(d: Date): int
    requires 1 <= d.month <= 12
  {
    DaysBeforeYear(d.year) + DaysBeforeMonth(d.year, d.month) + d.day - 1
  }

  /** Lexicographic (year, month, day) order. */
  predicate Before(a: Date, b: Date) {
    a.year < b.year
    || (a.year == b.year && (a.month < b.month || (a.month == b.month && a.day < b.day)))
  }

  lemma MonthStep(y: int, m: int)
    requires 1 <= m <= 12
    ensures DaysBeforeMonth(y, m + 1) == DaysBeforeMonth(y, m) + DaysInMonth(y, m)
  {
  }

  lemma MonthsFillYear(y: int)
    ensures DaysBeforeMonth(y, 13) == DaysInYear(y)
  {
  }

  lemma DivStep(y: int)
    ensures y / 4 - (y - 1) / 4 == (if y % 4 == 0 then 1 else 0)
    ensures y / 100 - (y - 1) / 100 == (if y % 100 == 0 then 1 else 0)
    ensures y / 400 - (y - 1) / 400 == (if y % 400 == 0 then 1 else 0)
  {
  }

  /** A year contributes exactly its own length to the day count. */
  lemma YearStep(y: int)
    ensures DaysBeforeYear(y + 1) == DaysBeforeYear(y) + DaysInYear(y)
  {
    DivStep(y);
    ModNesting(y);
    assert DaysBeforeYear(y + 1) - DaysBeforeYear(y)
      == 365 + (y / 4 - (y - 1) / 4) - (y / 100 - (y - 1) / 100) + (y / 400 - (y - 1) / 400);
  }

  lemma ModNesting(y: int)
    ensures y % 100 == 0 ==> y % 4 == 0
    ensures y % 400 == 0 ==> y % 100 == 0
  {
  }

  lemma {:induction false} YearsMonotone(y1: int, y2: int)
    requires y1 <= y2
    ensures DaysBeforeYear(y1) <= DaysBeforeYear(y2)
    decreases y2 - y1
  {
    if y1 < y2 {
      YearStep(y1);
      YearsMonotone(y1 + 1, y2);
    }
  }

  lemma MonthsMonotone(y: int, m1: int, m2: int)
    requires 1 <= m1 <= m2 <= 13
    ensures DaysBeforeMonth(y, m1) <= DaysBeforeMonth(y, m2)
  {
  }

  /** The day number of a valid date lies inside its own year. */
  lemma WithinYear(d: Date)
    requires Valid(d)
    ensures DaysBeforeYear(d.year) <= DayNumber(d) < DaysBeforeYear(d.year + 1)
  {
    MonthStep(d.year, d.month);
    MonthsMonotone(d.year, d.month + 1, 13);
    MonthsFillYear(d.year);
    YearStep(d.year);
  }

  /** Day numbers follow the calendar order. */
  lemma BeforeIncreases(a: Date, b: Date)
    requires Valid(a) && Valid(b) && Before(a, b)
    ensures DayNumber(a) < DayNumber(b)
  {
    if a.year < b.year {
      WithinYear(a);
      WithinYear(b);
      YearsMonotone(a.year + 1, b.year);
    } else if a.month < b.month {
      MonthStep(a.year, a.month);
      MonthsMonotone(a.year, a.month + 1, b.month);
    }
  }

  /** On valid dates, the calendar order and the day-number order coincide,
      so a day number identifies its date. */
  lemma DayNumberOrder(a: Date, b: Date)
    requires Valid(a) && Valid(b)
    ensures Before(a, b) <==> DayNumber(a) < DayNumber(b)
    ensures a == b <==> DayNumber(a) == DayNumber(b)
  {
    if Before(a, b) {
      BeforeIncreases(a, b);
    } else if Before(b, a) {
      BeforeIncreases(b, a);
    }
  }

  /** JavaScript day rollover: the date reached from the first of month `m`
      of year `y` by moving `d - 1` days, as `new Date(y, m - 1, d)` does for
      a day argument outside the month. */
  function Roll(y: int, m: int, d: int): (r: Date)
    requires 1 <= m <= 12
    ensures Valid(r)
    decreases if d < 1 then 33 - d else d
  {
    if d < 1 then
      if m == 1 then Roll(y - 1, 12, d + 31)
      else Roll(y, m - 1, d + DaysInMonth(y, m - 1))
    else if d > DaysInMonth(y, m) then
      if m == 12 then Roll(y + 1, 1, d - 31)
      else Roll(y, m + 1, d - DaysInMonth(y, m))
    else
      Date(y, m, d)
  }

  /** Rolling moves exactly `d - 1` days from the first of the month. */
  lemma {:induction false} RollDayNumber(y: int, m: int, d: int)
    requires 1 <= m <= 12
    ensures DayNumber(Roll(y, m, d)) == DaysBeforeYear(y) + DaysBeforeMonth(y, m) + d - 1
    decreases if d < 1 then 33 - d else d, 1
  {
    if d < 1 && m == 1 {
      RollBackYearDayNumber(y, d);
    } else if d < 1 {
      RollBackMonthDayNumber(y, m, d);
    } else if d > DaysInMonth(y, m) {
      RollOnDayNumber(y, m, d);
    }
  }

  /** `RollDayNumber` for a day before the first of January. */
  lemma {:induction false} RollBackYearDayNumber(y: int, d: int)
    requires d < 1
    ensures DayNumber(Roll(y, 1, d)) == DaysBeforeYear(y) + DaysBeforeMonth(y, 1) + d - 1
    decreases 33 - d, 0
  {
    assert Roll(y, 1, d) == Roll(y - 1, 12, d + 31);
    RollDayNumber(y - 1, 12, d + 31);
    NewYearStep(y - 1);
  }

  /** `RollDayNumber` for a day before the first of a later month. */
  lemma {:induction false} RollBackMonthDayNumber(y: int, m: int, d: int)
    requires 1 < m <= 12 && d < 1
    ensures DayNumber(Roll(y, m, d)) == DaysBeforeYear(y) + DaysBeforeMonth(y, m) + d - 1
    decreases 33 - d, 0
  {
    var k := DaysInMonth(y, m - 1);
    assert Roll(y, m, d) == Roll(y, m - 1, d + k);
    RollDayNumber(y, m - 1, d + k);
    MonthStep(y, m - 1);
  }

  /** `RollDayNumber` for a day past the end of the month. */
  lemma {:induction false} RollOnDayNumber(y: int, m: int, d: int)
    requires 1 <= m <= 12 && d > DaysInMonth(y, m)
    ensures DayNumber(Roll(y, m, d)) == DaysBeforeYear(y) + DaysBeforeMonth(y, m) + d - 1
    decreases d, 0
  {
    if m == 12 {
      assert Roll(y, m, d) == Roll(y + 1, 1, d - 31);
      RollDayNumber(y + 1, 1, d - 31);
      NewYearStep(y);
    } else {
      assert Roll(y, m, d) == Roll(y, m + 1, d - DaysInMonth(y, m));
      RollDayNumber(y, m + 1, d - DaysInMonth(y, m));
      MonthStep(y, m);
    }
  }

  /** The first of January follows the 31 days of December. */
  lemma NewYearStep(y: int)
    ensures DaysBeforeYear(y + 1) + DaysBeforeMonth(y + 1, 1)
         == DaysBeforeYear(y) + DaysBeforeMonth(y, 12) + 31
  {
    YearStep(y);
    MonthsFillYear(y);
    MonthStep(y, 12);
  }

  /** `new Date(y, monthIndex, day)` on calendar dates: a 0-based month index
      outside 0..11 moves whole years, then the day rolls over as in `Roll`. */
  function MakeDate(y: int, monthIndex: int, day: int): (r: Date)
    ensures Valid(r)
  {
    Roll(y + monthIndex / 12, monthIndex % 12 + 1, day)
  }

  /** The date is `day - 1` days after the first of the month reached by
      whole years from the month index. */
  lemma MakeDateDayNumber(y: int, monthIndex: int, day: int)
    ensures DayNumber(MakeDate(y, monthIndex, day)) == DayNumber(Date(y + monthIndex / 12, monthIndex % 12 + 1, 1)) + day - 1
  {
    var year, month := y + monthIndex / 12, monthIndex % 12 + 1;
    assert MakeDate(y, monthIndex, day) == Roll(year, month, day);
    RollDayNumber(year, month, day);
    assert DayNumber(Date(year, month, 1)) == DaysBeforeYear(year) + DaysBeforeMonth(year, month);
  }

  /** For a month index 0..11, `MakeDate` starts from that very month. */
  lemma MakeDateInYear(y: int, m: int, d: int)
    requires 1 <= m <= 12
    ensures MakeDate(y, m - 1, d) == Roll(y, m, d)
  {
    assert (m - 1) / 12 == 0 && (m - 1) % 12 == m - 1;
  }

  /** A valid date is rebuilt unchanged from its own fields. */
  lemma MakeDateOfValid(d: Date)
    requires Valid(d)
    ensures MakeDate(d.year, d.month - 1, d.day) == d
  {
    MakeDateInYear(d.year, d.month, d.day);
    assert Roll(d.year, d.month, d.day) == d;
  }

  /** Day 0 of the month after `m` is the last day of `m`: the idiom
      `new Date(y, m, 0).getDate()` yields the length of month `m`. */
  lemma DayZeroIsMonthEnd(y: int, m: int)
    requires 1 <= m <= 12
    ensures MakeDate(y, m, 0) == Date(y, m, DaysInMonth(y, m))
  {
    if m < 12 {
      MakeDateInYear(y, m + 1, 0);
      assert Roll(y, m + 1, 0) == Roll(y, m, DaysInMonth(y, m));
    } else {
      DecemberDayZero(y);
    }
  }

  lemma DecemberDayZero(y: int)
    ensures MakeDate(y, 12, 0) == Date(y, 12, 31)
  {
    assert 12 / 12 == 1 && 12 % 12 == 0;
    assert Roll(y + 1, 1, 0) == Roll(y, 12, 31);
  }

  /** A day 1..31 stays in the requested year: at worst it spills into the
      next month, never past December. */
  lemma MakeDateKeepsYear(y: int, m: int, d: int)
    requires 1 <= m <= 12 && 1 <= d <= 31
    ensures MakeDate(y, m - 1, d).year == y
  {
    MakeDateInYear(y, m, d);
    if d > DaysInMonth(y, m) {
      RollPastMonthEnd(y, m, d);
    }
  }

  /** An age or a span of time in whole years, months and days. */
  datatype Breakdown = Breakdown(years: int, months: int, days: int)

  /** The same month and day one year after a date of the as-of year falls
      after the as-of date. */
  lemma NextYearIsLater(d: Date, asOf: Date)
    requires Valid(d) && Valid(asOf) && d.year == asOf.year
    ensures DayNumber(MakeDate(d.year + 1, d.month - 1, d.day)) > DayNumber(asOf)
  {
    var next := MakeDate(d.year + 1, d.month - 1, d.day);
    MakeDateKeepsYear(d.year + 1, d.month, d.day);
    assert Before(asOf, next);
    BeforeIncreases(asOf, next);
  }

  /** `d` is where the birthday falls in its own year: the birth month and
      day, with Feb 29 rolled into Mar 1 in a common year. */
  predicate IsBirthdayOf(birth: Date, d: Date)
    requires Valid(birth)
  {
    d == MakeDate(d.year, birth.month - 1, birth.day)
  }

  predicate IsLeapDay(d: Date) {
    d.month == 2 && d.day == 29
  }

  /** The birthday of the as-of year, moved one year on only when it falls
      strictly before `asOf`, as both age pages compute it: the move keeps
      the month and day of the as-of year's date, so a Feb 29 birthday that
      rolled into Mar 1 stays on Mar 1 even in a leap year. */
  function NextBirthday(birth: Date, asOf: Date): (nb: Date)
    requires Valid(birth) && Valid(asOf)
    ensures Valid(nb)
    ensures nb.year == asOf.year || nb.year == asOf.year + 1
    ensures DayNumber(nb) >= DayNumber(asOf)
    ensures DayNumber(nb) == DayNumber(asOf) <==> MakeDate(asOf.year, birth.month - 1, birth.day) == asOf
    ensures IsBirthdayOf(birth, nb) || (IsLeapDay(birth) && nb == Date(nb.year, 3, 1))
  {
    var thisYear := MakeDate(asOf.year, birth.month - 1, birth.day);
    BirthdayThisYear(birth, asOf);
    if DayNumber(thisYear) < DayNumber(asOf) then
      PassedBirthdayMoved(birth, asOf);
      MakeDate(asOf.year + 1, thisYear.month - 1, thisYear.day)
    else thisYear
  }

  /** The birthday of the as-of year is where the birthday falls that year. */
  lemma BirthdayThisYear(birth: Date, asOf: Date)
    requires Valid(birth) && Valid(asOf)
    ensures var t := MakeDate(asOf.year, birth.month - 1, birth.day);
      && t.year == asOf.year && IsBirthdayOf(birth, t)
      && (t == asOf <==> DayNumber(t) == DayNumber(asOf))
  {
    var t := MakeDate(asOf.year, birth.month - 1, birth.day);
    MakeDateKeepsYear(asOf.year, birth.month, birth.day);
    DayNumberOrder(t, asOf);
  }

  /** A birthday that has passed, moved one year on, falls in the next year
      and after `asOf`. */
  lemma PassedBirthdayMoved(birth: Date, asOf: Date)
    requires Valid(birth) && Valid(asOf)
    ensures var t := MakeDate(asOf.year, birth.month - 1, birth.day);
      var u := MakeDate(asOf.year + 1, t.month - 1, t.day);
      && u.year == asOf.year + 1 && DayNumber(u) > DayNumber(asOf)
      && (IsBirthdayOf(birth, u) || (IsLeapDay(birth) && u == Date(u.year, 3, 1)))
  {
    var t := MakeDate(asOf.year, birth.month - 1, birth.day);
    var u := MakeDate(asOf.year + 1, t.month - 1, t.day);
    MakeDateKeepsYear(asOf.year + 1, t.month, t.day);
    BeforeIncreases(asOf, u);
    MovedBirthday(birth, asOf.year);
  }

  /** Moving the birthday of year `y` one year on lands on the birthday of
      year `y + 1`, except that a Feb 29 rolled into Mar 1 stays on Mar 1. */
  lemma MovedBirthday(birth: Date, y: int)
    requires Valid(birth)
    ensures var t := MakeDate(y, birth.month - 1, birth.day);
      var u := MakeDate(y + 1, t.month - 1, t.day);
      u.year == y + 1 && (IsBirthdayOf(birth, u) || (IsLeapDay(birth) && u == Date(y + 1, 3, 1)))
  {
    if birth.day <= DaysInMonth(y, birth.month) {
      MovedBirthdayInMonth(birth, y);
    } else {
      MovedBirthdayRolled(birth, y);
    }
  }

  lemma MovedBirthdayInMonth(birth: Date, y: int)
    requires Valid(birth) && birth.day <= DaysInMonth(y, birth.month)
    ensures var t := MakeDate(y, birth.month - 1, birth.day);
      var u := MakeDate(y + 1, t.month - 1, t.day);
      u.year == y + 1 && IsBirthdayOf(birth, u)
  {
    MakeDateOfValid(Date(y, birth.month, birth.day));
    MakeDateKeepsYear(y + 1, birth.month, birth.day);
  }

  lemma MovedBirthdayRolled(birth: Date, y: int)
    requires Valid(birth) && birth.day > DaysInMonth(y, birth.month)
    ensures IsLeapDay(birth)
    ensures var t := MakeDate(y, birth.month - 1, birth.day);
      MakeDate(y + 1, t.month - 1, t.day) == Date(y + 1, 3, 1)
  {
    RollPastMonthEnd(y, birth.month, birth.day);
    MakeDateOfValid(Date(y + 1, 3, 1));
  }

  /** The next birthday as evidently intended: the first day on or after
      `asOf` where the birthday falls, taken afresh in the following year. */
  function FirstBirthday(birth: Date, asOf: Date): (nb: Date)
    requires Valid(birth) && Valid(asOf)
    ensures Valid(nb) && IsBirthdayOf(birth, nb)
    ensures nb.year == asOf.year || nb.year == asOf.year + 1
    ensures DayNumber(nb) >= DayNumber(asOf)
  {
    var thisYear := MakeDate(asOf.year, birth.month - 1, birth.day);
    BirthdayThisYear(birth, asOf);
    if DayNumber(thisYear) < DayNumber(asOf) then
      BirthdayNextYearIsLater(birth, asOf);
      MakeDate(asOf.year + 1, birth.month - 1, birth.day)
    else thisYear
  }

  /** The birthday of the year after `asOf` falls after `asOf`. */
  lemma BirthdayNextYearIsLater(birth: Date, asOf: Date)
    requires Valid(birth) && Valid(asOf)
    ensures var next := MakeDate(asOf.year + 1, birth.month - 1, birth.day);
      next.year == asOf.year + 1 && DayNumber(next) > DayNumber(asOf) && IsBirthdayOf(birth, next)
  {
    var next := MakeDate(asOf.year + 1, birth.month - 1, birth.day);
    MakeDateKeepsYear(asOf.year + 1, birth.month, birth.day);
    BeforeIncreases(asOf, next);
  }

  /** No birthday falls between `asOf` and `FirstBirthday`: it is the first
      birthday on or after `asOf`. */
  lemma FirstBirthdayIsFirst(birth: Date, asOf: Date, d: Date)
    requires Valid(birth) && Valid(asOf) && Valid(d)
    requires IsBirthdayOf(birth, d) && DayNumber(d) >= DayNumber(asOf)
    ensures DayNumber(FirstBirthday(birth, asOf)) <= DayNumber(d)
  {
    var nb := FirstBirthday(birth, asOf);
    MakeDateKeepsYear(d.year, birth.month, birth.day);
    DayNumberOrder(d, asOf);
    DayNumberOrder(nb, d);
    if d.year == nb.year {
      assert d == nb;
    }
  }

  /** Away from Feb 29 the pages' next birthday is the first birthday on or
      after `asOf`. */
  lemma NextBirthdayIsFirst(birth: Date, asOf: Date)
    requires Valid(birth) && Valid(asOf) && !IsLeapDay(birth)
    ensures NextBirthday(birth, asOf) == FirstBirthday(birth, asOf)
  {
    var thisYear := MakeDate(asOf.year, birth.month - 1, birth.day);
    if DayNumber(thisYear) < DayNumber(asOf) {
      assert birth.day <= DaysInMonth(asOf.year, birth.month);
      MovedBirthdayInMonth(birth, asOf.year);
      MakeDateKeepsYear(asOf.year + 1, birth.month, birth.day);
    }
  }

  /** Except for a Feb 29 birth, the next birthday is the birth month and
      day, to the day. */
  lemma NextBirthdayKeepsMonthDay(birth: Date, asOf: Date)
    requires Valid(birth) && Valid(asOf) && !IsLeapDay(birth)
    ensures NextBirthday(birth, asOf).month == birth.month
    ensures NextBirthday(birth, asOf).day == birth.day
  {
    var nb := NextBirthday(birth, asOf);
    NextBirthdayIsFirst(birth, asOf);
    var e := Date(nb.year, birth.month, birth.day);
    assert Valid(e);
    MakeDateOfValid(e);
  }

  /** Born on Feb 29, 2000 and asked on June 1, 2023: the pages name
      March 1, 2024, although Feb 29, 2024 is a birthday and comes first. */
  lemma LeapDayBirthdayExample()
    ensures NextBirthday(Date(2000, 2, 29), Date(2023, 6, 1)) == Date(2024, 3, 1)
    ensures FirstBirthday(Date(2000, 2, 29), Date(2023, 6, 1)) == Date(2024, 2, 29)
    ensures DayNumber(Date(2024, 2, 29)) + 1 == DayNumber(Date(2024, 3, 1))
  {
    var birth := Date(2000, 2, 29);
    assert MakeDate(2023, 1, 29) == Date(2023, 3, 1) by {
      RollPastMonthEnd(2023, 2, 29);
    }
    MakeDateOfValid(Date(2024, 3, 1));
    MakeDateOfValid(Date(2024, 2, 29));
  }

  /** A day past the end of its month, but at most 31, spills into the first
      days of the following month (only February can overflow this way). */
  lemma RollPastMonthEnd(y: int, m: int, d: int)
    requires 1 <= m <= 12 && DaysInMonth(y, m) < d <= 31
    ensures m < 12
    ensures MakeDate(y, m - 1, d) == Date(y, m + 1, d - DaysInMonth(y, m))
  {
    MakeDateInYear(y, m, d);
    assert Roll(y, m, d) == Roll(y, m + 1, d - DaysInMonth(y, m));
  }
}

/**
 * The half-month period calculator (`getCycleRangeAndNext`) and the initial
 * period start of the App component, over an abstract calendar date.
 *
 * A JavaScript `Date` is modelled as a (year, month 0..11, day) triple; the
 * `new Date(y, m, d)` constructor, which accepts out-of-range months and days
 * and normalises them, is modelled by `MakeDate`.
 */
module Calendar {

  datatype Date = Date(year: int, month: int, day: int)

  /** The Gregorian leap-year rule. */
  predicate IsLeapYear(y: int) {
    y % 4 == 0 && (y % 100 != 0 || y % 400 == 0)
  }

  /** The number of days of month `m` (0 = January) of year `y`. */
  function DaysInMonth(y: int, m: int): (n: int)
    requires 0 <= m < 12
    ensures 28 <= n <= 31
  {
    if m == 1 then (if IsLeapYear(y) then 29 else 28)
    else if m == 3 || m == 5 || m == 8 || m == 10 then 30
    else 31
  }

  /** A date that exists in the calendar. */
  predicate ValidDate(d: Date) {
    0 <= d.month < 12 && 1 <= d.day <= DaysInMonth(d.year, d.month)
  }

  /** Strict chronological order. */
  predicate Before(a: Date, b: Date) {
    a.year < b.year
    || (a.year == b.year && a.month < b.month)
    || (a.year == b.year && a.month == b.month && a.day < b.day)
  }

  /** The calendar day after `d`, the reference for where a period ends. */
  function NextDay(d: Date): (r: Date)
    requires ValidDate(d)
    ensures ValidDate(r) && Before(d, r)
  {
    if d.day < DaysInMonth(d.year, d.month) then Date(d.year, d.month, d.day + 1)
    else if d.month == 11 then Date(d.year + 1, 0, 1)
    else Date(d.year, d.month + 1, 1)
  }

  /** No real date lies strictly between a date and its `NextDay`. */
  lemma NextDayIsImmediate(d: Date, e: Date)
    requires ValidDate(d) && ValidDate(e)
    ensures !(Before(d, e) && Before(e, NextDay(d)))
  {
  }

  /**
   * `new Date(y, m, d)`: the month is first brought into 0..11, carrying whole
   * years, and then the day is counted from the 1st of that month, so that day
   * 0 is the last day of the month before and a day past the end runs into the
   * month after.
   */
  function MakeDate(y: int, m: int, d: int): (r: Date)
    ensures ValidDate(r)
    ensures ValidDate(Date(y, m, d)) ==> r == Date(y, m, d)
    decreases if d < 1 then 100 - d else d
  {
    var y', m' := y + m / 12, m % 12;
    if d < 1 then
      var py := if m' == 0 then y' - 1 else y';
      var pm := if m' == 0 then 11 else m' - 1;
      MakeDate(py, pm, d + DaysInMonth(py, pm))
    else if d > DaysInMonth(y', m') then
      MakeDate(y', m' + 1, d - DaysInMonth(y', m'))
    else
      Date(y', m', d)
  }

  /** The 1st of the month after month `m` of year `y`, with December rolling over. */
  function FirstOfNextMonth(y: int, m: int): Date {
    if m == 11 then Date(y + 1, 0, 1) else Date(y, m + 1, 1)
  }

  /** `new Date(y, m + 1, 0)` is the last day of month `m`: the idiom behind `lastDay`. */
  lemma MakeDateDayZero(y: int, m: int)
    requires 0 <= m < 12
    ensures MakeDate(y, m + 1, 0) == Date(y, m, DaysInMonth(y, m))
  {
    if m == 11 {
      assert (m + 1) / 12 == 1 && (m + 1) % 12 == 0;
    } else {
      assert (m + 1) / 12 == 0 && (m + 1) % 12 == m + 1;
    }
    assert ValidDate(Date(y, m, DaysInMonth(y, m)));
  }

  /** `new Date(y, m + 1, 1)` is the 1st of the following month, across a year end. */
  lemma MakeDateNextMonth(y: int, m: int)
    requires 0 <= m < 12
    ensures MakeDate(y, m + 1, 1) == FirstOfNextMonth(y, m)
  {
    if m == 11 {
      assert (m + 1) / 12 == 1 && (m + 1) % 12 == 0;
    } else {
      assert (m + 1) / 12 == 0 && (m + 1) % 12 == m + 1;
    }
  }

  /** A period label: `<firstDay>-<lastDay> <month name>`. */
  datatype CycleRange = Range(firstDay: int, lastDay: int, month: int)

  datatype RangeAndNext = RangeAndNext(range: CycleRange, nextStart: Date)

  /** The days on which a half-month period begins. */
  predicate IsPeriodStart(d: Date) {
    d.day == 1 || d.day == 16
  }

  /** The first-half branch: label 1-15 and the 16th of the same month next. */
  function FirstHalf(year: int, month: int): (r: RangeAndNext)
    requires 0 <= month < 12
    ensures r == RangeAndNext(Range(1, 15, month), Date(year, month, 16))
  {
    assert ValidDate(Date(year, month, 16));
    RangeAndNext(Range(1, 15, month), MakeDate(year, month, 16))
  }

  /** The second-half branch: label 16-<length of the month> and the 1st of the next month next. */
  function SecondHalf(year: int, month: int): (r: RangeAndNext)
    requires 0 <= month < 12
    ensures r == RangeAndNext(Range(16, DaysInMonth(year, month), month), FirstOfNextMonth(year, month))
  {
    MakeDateDayZero(year, month);
    MakeDateNextMonth(year, month);
    var lastDay := MakeDate(year, month + 1, 0).day;
    RangeAndNext(Range(16, lastDay, month), MakeDate(year, month + 1, 1))
  }

  /**
   * `getCycleRangeAndNext`: the label of the half-month period of `start` and
   * the start of the period after it. The branches are those of the source,
   * including its test `day < 15`, which sends day 15 to the second half.
   */
  function CycleRangeAndNext(start: Date): (r: RangeAndNext)
    requires ValidDate(start)
    ensures ValidDate(r.nextStart) && IsPeriodStart(r.nextStart)
    ensures Before(start, r.nextStart)
    ensures r.range.month == start.month
  {
    var year, month, day := start.year, start.month, start.day;
    if day == 1 then FirstHalf(year, month)
    else if day == 16 then SecondHalf(year, month)
    else if day < 15 then FirstHalf(year, month)
    else SecondHalf(year, month)
  }

  /** Any date before the 15th gets the label 1-15 and a next start on the 16th of its month. */
  lemma FirstHalfOfMonth(start: Date)
    requires ValidDate(start) && start.day < 15
    ensures CycleRangeAndNext(start).range == Range(1, 15, start.month)
    ensures CycleRangeAndNext(start).nextStart == Date(start.year, start.month, 16)
  {
    assert ValidDate(Date(start.year, start.month, 16));
  }

  /**
   * Any date from the 15th on gets the label 16-<last day of its month> and a
   * next start on the 1st of the following month, December rolling into
   * January of the next year.
   */
  lemma SecondHalfOfMonth(start: Date)
    requires ValidDate(start) && start.day >= 15
    ensures CycleRangeAndNext(start).range == Range(16, DaysInMonth(start.year, start.month), start.month)
    ensures CycleRangeAndNext(start).nextStart == FirstOfNextMonth(start.year, start.month)
  {
    MakeDateDayZero(start.year, start.month);
    MakeDateNextMonth(start.year, start.month);
  }

  /**
   * The last day in a second-half label is the length of the month: 29 for a
   * leap February, 28 for any other, 30 for April, June, September and
   * November, 31 for the rest.
   */
  lemma SecondHalfLastDay(start: Date)
    requires ValidDate(start) && start.day >= 15
    ensures var last := CycleRangeAndNext(start).range.lastDay;
      && (start.month == 1 ==> (last == 29 <==> IsLeapYear(start.year)) && (last == 28 <==> !IsLeapYear(start.year)))
      && (start.month in {3, 5, 8, 10} ==> last == 30)
      && (start.month in {0, 2, 4, 6, 7, 9, 11} ==> last == 31)
  {
    SecondHalfOfMonth(start);
  }

  /** The labelled period ends on the day before the next start: consecutive periods leave no gap. */
  lemma PeriodEndsBeforeNextStart(start: Date)
    requires ValidDate(start)
    ensures var r := CycleRangeAndNext(start);
      && 1 <= r.range.lastDay <= DaysInMonth(start.year, start.month)
      && NextDay(Date(start.year, start.month, r.range.lastDay)) == r.nextStart
  {
    if start.day < 15 {
      FirstHalfOfMonth(start);
    } else {
      SecondHalfOfMonth(start);
    }
  }

  /**
   * Every date except the 15th lies inside its own label; the 15th is labelled
   * with the period that begins on the 16th.
   */
  lemma LabelContainsDate(start: Date)
    requires ValidDate(start)
    ensures var r := CycleRangeAndNext(start).range;
      start.day != 15 <==> r.firstDay <= start.day <= r.lastDay
  {
    if start.day < 15 {
      FirstHalfOfMonth(start);
    } else {
      SecondHalfOfMonth(start);
    }
  }

  /**
   * On a period start the label begins on that very day, and successive starts
   * alternate: the 1st is followed by the 16th of the same month, the 16th by
   * the 1st of the next month.
   */
  lemma PeriodStartsAlternate(start: Date)
    requires ValidDate(start) && IsPeriodStart(start)
    ensures var r := CycleRangeAndNext(start);
      && r.range.firstDay == start.day
      && (start.day == 1 ==> r.nextStart == Date(start.year, start.month, 16))
      && (start.day == 16 ==> r.nextStart == FirstOfNextMonth(start.year, start.month))
  {
    if start.day == 1 {
      FirstHalfOfMonth(start);
    } else {
      SecondHalfOfMonth(start);
    }
  }

  /** Two steps from the 1st of a month reach the 1st of the following month. */
  lemma TwoStepsOneMonth(start: Date)
    requires ValidDate(start) && start.day == 1
    ensures CycleRangeAndNext(CycleRangeAndNext(start).nextStart).nextStart
         == FirstOfNextMonth(start.year, start.month)
  {
    PeriodStartsAlternate(start);
    PeriodStartsAlternate(CycleRangeAndNext(start).nextStart);
  }

  /**
   * `initialCycleStart`: the 1st of the current month when today is on or
   * before the 15th, otherwise the 16th. It is the start of the period that
   * contains today.
   */
  function InitialCycleStart(today: Date): (r: Date)
    requires ValidDate(today)
    ensures ValidDate(r) && IsPeriodStart(r)
    ensures r.year == today.year && r.month == today.month
    ensures r.day == 1 <==> today.day <= 15
    ensures r.day <= today.day
  {
    assert ValidDate(Date(today.year, today.month, 16));
    if today.day <= 15 then MakeDate(today.year, today.month, 1)
    else MakeDate(today.year, today.month, 16)
  }
}

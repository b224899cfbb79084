/**
 * The main page's month calendar: the 42-cell grid of `generateCalendarDays`,
 * month navigation, and the day-cell style priority. JavaScript `Date`
 * arithmetic is modelled by the two rules the page relies on: the month
 * argument is normalised by floor division into the year, and a year
 * argument in 0..99 means 1900 + year.
 */
module Calendar {

  /** A normalised month: `getFullYear()` and `getMonth()` of a date. */
  datatype YearMonth = YearMonth(year: int, month: int)

  predicate Valid(ym: YearMonth) {
    0 <= ym.month < 12
  }

  /** The `Date` constructor's two-digit year rule. */
  function LegacyYear(y: int): int {
    if 0 <= y <= 99 then 1900 + y else y
  }

  /** The month that `new Date(y, m, d)` falls in before the day is applied. */
  function MakeMonth(y: int, m: int): (ym: YearMonth)
    ensures Valid(ym)
    ensures ym.year * 12 + ym.month == LegacyYear(y) * 12 + m
  {
    YearMonth(LegacyYear(y) + m / 12, m % 12)
  }

  /** Gregorian leap years (proleptic). */
  predicate IsLeap(y: int) {
    y % 4 == 0 && (y % 100 != 0 || y % 400 == 0)
  }

  /** The number of days in a normalised month. */
  function DaysIn(ym: YearMonth): (n: int)
    requires Valid(ym)
    ensures 28 <= n <= 31
    ensures ym.month == 1 ==> (n == 29 <==> IsLeap(ym.year))
  {
    if ym.month == 1 then (if IsLeap(ym.year) then 29 else 28)
    else if ym.month == 3 || ym.month == 5 || ym.month == 8 || ym.month == 10 then 30
    else 31
  }

  /** `new Date(y, m, 0).getDate()`: the last day of the month before month `m`. */
  function LastDayBefore(y: int, m: int): (n: int)
    ensures 28 <= n <= 31
  {
    DaysIn(MakeMonth(y, m - 1))
  }

  /**
   * Days from 1970-01-01 to the 1st of a normalised month (proleptic
   * Gregorian), counted in years that run from March to February.
   */
  function DaysToFirst(ym: YearMonth): int
    requires Valid(ym)
  {
    var y := if ym.month < 2 then ym.year - 1 else ym.year;
    var mp := if ym.month >= 2 then ym.month - 2 else ym.month + 10;
    MarchDays(y) + MonthOffset(mp) - 719468
  }

  /** Days from the 1st of March to the 1st of the month `mp` months later. */
  function MonthOffset(mp: int): int {
    (153 * mp + 2) / 5
  }

  /** The month after a normalised month. */
  function Next(ym: YearMonth): (r: YearMonth)
    requires Valid(ym)
    ensures Valid(r)
    ensures r.year * 12 + r.month == ym.year * 12 + ym.month + 1
  {
    if ym.month == 11 then YearMonth(ym.year + 1, 0) else YearMonth(ym.year, ym.month + 1)
  }

  /** Days from 0000-03-01 to the 1st of March of year `y`: whole 400-year eras, then years of the era. */
  function MarchDays(y: int): int {
    var era := y / 400;
    var yoe := y % 400;
    era * 146097 + yoe * 365 + yoe / 4 - yoe / 100
  }

  /** The March-to-February year that starts in year `y - 1` has 366 days exactly when `y` is a leap year. */
  lemma MarchYearLength(y: int)
    ensures MarchDays(y) - MarchDays(y - 1) == if IsLeap(y) then 366 else 365
  {
    PredecessorBy400(y);
    if y % 400 == 0 {
      assert IsLeap(y);
    } else {
      YearInsideEra(y);
    }
  }

  /** Inside a 400-year era, the year before `y` adds a leap day exactly when `y` is a leap year. */
  lemma YearInsideEra(y: int)
    requires y % 400 != 0
    ensures MarchDays(y) - MarchDays(y - 1) == if IsLeap(y) then 366 else 365
  {
    var a := y % 400;
    PredecessorBy400(y);
    assert MarchDays(y) - MarchDays(y - 1) == 365 + (a / 4 - (a - 1) / 4) - (a / 100 - (a - 1) / 100);
    PredecessorBy4(a);
    PredecessorBy100(a);
    ModOfRemainder(y);
  }

  /** Stepping back by one moves the quotient down exactly when the remainder was 0. */
  lemma PredecessorBy4(x: int)
    ensures x % 4 == 0 ==> (x - 1) / 4 == x / 4 - 1 && (x - 1) % 4 == 3
    ensures x % 4 != 0 ==> (x - 1) / 4 == x / 4 && (x - 1) % 4 == x % 4 - 1
  {
  }

  /** The same step for the century. */
  lemma PredecessorBy100(x: int)
    ensures x % 100 == 0 ==> (x - 1) / 100 == x / 100 - 1 && (x - 1) % 100 == 99
    ensures x % 100 != 0 ==> (x - 1) / 100 == x / 100 && (x - 1) % 100 == x % 100 - 1
  {
  }

  /** The same step for the 400-year era. */
  lemma PredecessorBy400(x: int)
    ensures x % 400 == 0 ==> (x - 1) / 400 == x / 400 - 1 && (x - 1) % 400 == 399
    ensures x % 400 != 0 ==> (x - 1) / 400 == x / 400 && (x - 1) % 400 == x % 400 - 1
  {
  }

  /** Reducing modulo 400 first does not change the remainders modulo 4 and 100. */
  lemma ModOfRemainder(y: int)
    ensures (y % 400) % 4 == y % 4 && (y % 400) % 100 == y % 100
  {
    var q := y / 400;
    assert y % 400 == y - 400 * q;
    Mod4Shift(y, 100 * q);
    Mod100Shift(y, 4 * q);
  }

  /** Subtracting a multiple of 4 keeps the remainder modulo 4. */
  lemma Mod4Shift(y: int, k: int)
    ensures (y - 4 * k) % 4 == y % 4
  {
  }

  /** Subtracting a multiple of 100 keeps the remainder modulo 100. */
  lemma Mod100Shift(y: int, k: int)
    ensures (y - 100 * k) % 100 == y % 100
  {
  }

  /** The 1st of a month is the 1st of the month before plus that month's length. */
  lemma DaysToFirstStep(ym: YearMonth)
    requires Valid(ym)
    ensures DaysToFirst(Next(ym)) == DaysToFirst(ym) + DaysIn(ym)
  {
    if ym.month == 1 {
      StepFromFebruary(ym.year);
    } else {
      StepWithinMarchYear(ym);
    }
  }

  /** February to March crosses into the next March-to-February year. */
  lemma StepFromFebruary(year: int)
    ensures DaysToFirst(YearMonth(year, 2)) == DaysToFirst(YearMonth(year, 1)) + DaysIn(YearMonth(year, 1))
  {
    MarchYearLength(year);
    assert MonthOffset(11) == 337 && MonthOffset(0) == 0;
  }

  /** Every other step stays inside one March-to-February year. */
  lemma StepWithinMarchYear(ym: YearMonth)
    requires Valid(ym) && ym.month != 1
    ensures DaysToFirst(Next(ym)) == DaysToFirst(ym) + DaysIn(ym)
  {
    var y := if ym.month < 2 then ym.year - 1 else ym.year;
    var mp := if ym.month >= 2 then ym.month - 2 else ym.month + 10;
    assert DaysToFirst(ym) == MarchDays(y) + MonthOffset(mp) - 719468;
    assert DaysToFirst(Next(ym)) == MarchDays(y) + MonthOffset(mp + 1) - 719468;
    MonthOffsetStep(ym);
  }

  /**
   * Within one March-to-February year the month starts lie exactly one month
   * length apart: 31, 30, 31, 30, 31, 31, 30, 31, 30, 31, 31 from March on.
   */
  lemma MonthOffsetStep(ym: YearMonth)
    requires Valid(ym) && ym.month != 1
    ensures var mp := if ym.month >= 2 then ym.month - 2 else ym.month + 10;
      MonthOffset(mp + 1) - MonthOffset(mp) == DaysIn(ym)
  {
    var month := ym.month;
    if month == 0 {
    } else if month == 2 {
    } else if month == 3 {
    } else if month == 4 {
    } else if month == 5 {
    } else if month == 6 {
    } else if month == 7 {
    } else if month == 8 {
    } else if month == 9 {
    } else if month == 10 {
    } else {
    }
  }

  /** `new Date(y, m, 1).getDay()`: 0 is Sunday, and 1970-01-01 was a Thursday. */
  function FirstWeekday(y: int, m: int): (w: int)
    ensures 0 <= w <= 6
  {
    (DaysToFirst(MakeMonth(y, m)) + 4) % 7
  }

  /** The next month starts on the weekday that lies this month's length after this month's start. */
  lemma FirstWeekdayStep(y: int, m: int)
    ensures FirstWeekday(y, m + 1) == (FirstWeekday(y, m) + DaysIn(MakeMonth(y, m))) % 7
  {
    var ym := MakeMonth(y, m);
    assert FirstWeekday(y, m) == (DaysToFirst(ym) + 4) % 7;
    assert FirstWeekday(y, m + 1) == (DaysToFirst(Next(ym)) + 4) % 7 by {
      MakeNextMonth(y, m);
    }
    WeekdayStep(ym);
  }

  /** The weekday of the next month's 1st, in terms of normalised months. */
  lemma WeekdayStep(ym: YearMonth)
    requires Valid(ym)
    ensures (DaysToFirst(Next(ym)) + 4) % 7 == ((DaysToFirst(ym) + 4) % 7 + DaysIn(ym)) % 7
  {
    DaysToFirstStep(ym);
    ShiftWeekday(DaysToFirst(ym), DaysIn(ym), DaysToFirst(Next(ym)));
  }

  /** `new Date(y, m + 1, ...)` lands in the month after `new Date(y, m, ...)`. */
  lemma MakeNextMonth(y: int, m: int)
    ensures MakeMonth(y, m + 1) == Next(MakeMonth(y, m))
  {
    SameMonthIndex(MakeMonth(y, m + 1), Next(MakeMonth(y, m)));
  }

  /** Adding days to a weekday can be done after reducing it modulo 7. */
  lemma ShiftWeekday(d: int, n: int, later: int)
    requires later == d + n
    ensures (later + 4) % 7 == ((d + 4) % 7 + n) % 7
  {
    assert later + 4 == ((d + 4) % 7 + n) + 7 * ((d + 4) / 7);
  }

  /** `new Date(y, m, 0)` is the day before the 1st of month `m`: the month before has exactly that many days. */
  lemma LastDayBeforeSpansGap(y: int, m: int)
    ensures LastDayBefore(y, m) == DaysToFirst(MakeMonth(y, m)) - DaysToFirst(MakeMonth(y, m - 1))
  {
    var prev := MakeMonth(y, m - 1);
    MakeNextMonth(y, m - 1);
    DaysToFirstStep(prev);
  }

  /** The constructor arguments a cell's `date` is built from, before normalisation. */
  datatype DateArgs = DateArgs(year: int, month: int, day: int)

  /** One entry of the grid. */
  datatype Cell = Cell(day: int, isCurrentMonth: bool, date: DateArgs)

  /** The grid layout: leading cells counting up to `prevLen`, the month, then 1, 2, ... to fill 42. */
  ghost predicate Layout(days: seq<Cell>, y: int, m: int, lead: int, dim: int, prevLen: int)
  {
    && |days| == 42
    && 0 <= lead && 0 <= dim && lead + dim <= 42
    && (forall i :: 0 <= i < lead ==>
          days[i] == Cell(prevLen - lead + 1 + i, false, DateArgs(y, m - 1, prevLen - lead + 1 + i)))
    && (forall i :: lead <= i < lead + dim ==>
          days[i] == Cell(i - lead + 1, true, DateArgs(y, m, i - lead + 1)))
    && (forall i :: lead + dim <= i < 42 ==>
          days[i] == Cell(i - lead - dim + 1, false, DateArgs(y, m + 1, i - lead - dim + 1)))
  }

  /** The three loops of `generateCalendarDays`, with the leading count-down starting at `prevLen`. */
  method FillGrid(y: int, m: int, lead: int, dim: int, prevLen: int) returns (days: seq<Cell>)
    requires 0 <= lead <= 6 && 28 <= dim <= 31
    ensures Layout(days, y, m, lead, dim, prevLen)
    ensures 42 - lead - dim >= 5
  {
    days := [];
    var i := lead - 1;
    while i >= 0
      invariant -1 <= i < lead
      invariant |days| == lead - 1 - i
      invariant forall k :: 0 <= k < |days| ==>
        days[k] == Cell(prevLen - lead + 1 + k, false, DateArgs(y, m - 1, prevLen - lead + 1 + k))
    {
      var day := prevLen - i;
      days := days + [Cell(day, false, DateArgs(y, m - 1, day))];
      i := i - 1;
    }
    var day := 1;
    while day <= dim
      invariant 1 <= day <= dim + 1
      invariant |days| == lead + day - 1
      invariant forall k :: 0 <= k < lead ==>
        days[k] == Cell(prevLen - lead + 1 + k, false, DateArgs(y, m - 1, prevLen - lead + 1 + k))
      invariant forall k :: lead <= k < |days| ==> days[k] == Cell(k - lead + 1, true, DateArgs(y, m, k - lead + 1))
    {
      days := days + [Cell(day, true, DateArgs(y, m, day))];
      day := day + 1;
    }
    var remaining := 42 - |days|;
    day := 1;
    while day <= remaining
      invariant 1 <= day <= remaining + 1
      invariant |days| == lead + dim + day - 1
      invariant forall k :: 0 <= k < lead ==>
        days[k] == Cell(prevLen - lead + 1 + k, false, DateArgs(y, m - 1, prevLen - lead + 1 + k))
      invariant forall k :: lead <= k < lead + dim ==> days[k] == Cell(k - lead + 1, true, DateArgs(y, m, k - lead + 1))
      invariant forall k :: lead + dim <= k < |days| ==>
        days[k] == Cell(k - lead - dim + 1, false, DateArgs(y, m + 1, k - lead - dim + 1))
    {
      days := days + [Cell(day, false, DateArgs(y, m + 1, day))];
      day := day + 1;
    }
  }

  /**
   * `generateCalendarDays()` as written: 42 cells, `firstDayOfWeek` leading
   * cells, the month's days flagged current, and at least five trailing
   * cells. The leading count-down starts from `new Date(y, m - 1, 0)`, the
   * last day of month m - 2, not of the previous month.
   */
  method GenerateCalendarDays(y: int, m: int) returns (days: seq<Cell>)
    requires 0 <= m < 12
    ensures Layout(days, y, m, FirstWeekday(y, m), DaysIn(MakeMonth(y, m)), LastDayBefore(y, m - 1))
    ensures 42 - FirstWeekday(y, m) - DaysIn(MakeMonth(y, m)) >= 5
    ensures FirstWeekday(y, m) > 0 ==> days[FirstWeekday(y, m) - 1].day == LastDayBefore(y, m - 1)
  {
    var lead := FirstWeekday(y, m);
    var dim := LastDayBefore(y, m + 1);
    var prevLen := LastDayBefore(y, m - 1);
    days := FillGrid(y, m, lead, dim, prevLen);
  }

  /**
   * The grid with the leading cells counted down from the previous month's
   * real last day: the leading cells are then exactly the last days of the
   * previous month.
   */
  method GenerateCalendarDaysCorrected(y: int, m: int) returns (days: seq<Cell>)
    requires 0 <= m < 12
    ensures Layout(days, y, m, FirstWeekday(y, m), DaysIn(MakeMonth(y, m)), DaysIn(MakeMonth(y, m - 1)))
    ensures forall i :: 0 <= i < FirstWeekday(y, m) ==>
      days[i].day == DaysIn(MakeMonth(y, m - 1)) - FirstWeekday(y, m) + 1 + i
    ensures FirstWeekday(y, m) > 0 ==> days[FirstWeekday(y, m) - 1].day == DaysIn(MakeMonth(y, m - 1))
  {
    var lead := FirstWeekday(y, m);
    var dim := LastDayBefore(y, m + 1);
    var prevLen := LastDayBefore(y, m);
    days := FillGrid(y, m, lead, dim, prevLen);
  }

  /**
   * March 2024 starts on a Friday, so five leading cells are shown. As written
   * they count down from January's 31; February 2024 has 29 days.
   */
  lemma LeadingCellsUseWrongMonth()
    ensures FirstWeekday(2024, 2) == 5
    ensures LastDayBefore(2024, 2 - 1) == 31
    ensures DaysIn(MakeMonth(2024, 2 - 1)) == 29
  {
    MarchFirst2024();
    assert MakeMonth(2024, 0) == YearMonth(2024, 0);
    assert MakeMonth(2024, 1) == YearMonth(2024, 1);
    assert IsLeap(2024);
  }

  /** Known first weekdays: 2024-12-01 was a Sunday, 2000-01-01 a Saturday. */
  lemma FirstWeekdayExamples()
    ensures FirstWeekday(2024, 11) == 0
    ensures FirstWeekday(2000, 0) == 6
    ensures FirstWeekday(1970, 0) == 4
  {
    DecemberFirst2024();
    JanuaryFirst2000();
    JanuaryFirst1970();
  }

  /** 2024-03-01 was a Friday. */
  lemma MarchFirst2024()
    ensures FirstWeekday(2024, 2) == 5
  {
    var ym := MakeMonth(2024, 2);
    assert ym == YearMonth(2024, 2);
    assert 2024 / 400 == 5 && 2024 % 400 == 24 && (153 * 1 + 2) / 5 == 31;
    assert 24 / 4 == 6 && 24 / 100 == 0;
    var d := DaysToFirst(ym);
    assert d == 19783;
    assert FirstWeekday(2024, 2) == (d + 4) % 7;
  }

  /** 2024-12-01 was a Sunday. */
  lemma DecemberFirst2024()
    ensures FirstWeekday(2024, 11) == 0
  {
    var ym := MakeMonth(2024, 11);
    assert ym == YearMonth(2024, 11);
    assert 2024 / 400 == 5 && 2024 % 400 == 24 && (153 * 9 + 2) / 5 == 275;
    assert 24 / 4 == 6 && 24 / 100 == 0;
    var d := DaysToFirst(ym);
    assert d == 20058;
    assert FirstWeekday(2024, 11) == (d + 4) % 7;
  }

  /** 2000-01-01 was a Saturday. */
  lemma JanuaryFirst2000()
    ensures FirstWeekday(2000, 0) == 6
  {
    var ym := MakeMonth(2000, 0);
    assert ym == YearMonth(2000, 0);
    assert 1999 / 400 == 4 && 1999 % 400 == 399 && (153 * 10 + 2) / 5 == 306;
    assert 399 / 4 == 99 && 399 / 100 == 3;
    var d := DaysToFirst(ym);
    assert d == 10957;
    assert FirstWeekday(2000, 0) == (d + 4) % 7;
  }

  /** 1970-01-01 was a Thursday. */
  lemma JanuaryFirst1970()
    ensures FirstWeekday(1970, 0) == 4
  {
    var ym := MakeMonth(1970, 0);
    assert ym == YearMonth(1970, 0);
    assert 1969 / 400 == 4 && 1969 % 400 == 369 && (153 * 10 + 2) / 5 == 306;
    assert 369 / 4 == 92 && 369 / 100 == 3;
    var d := DaysToFirst(ym);
    assert d == 0;
    assert FirstWeekday(1970, 0) == (d + 4) % 7;
  }

  /** `goToPrevMonth`: `new Date(currentYear, currentMonth - 1, 1)`. */
  function GoToPrevMonth(c: YearMonth): (r: YearMonth)
    ensures Valid(r)
    ensures r.year * 12 + r.month == LegacyYear(c.year) * 12 + c.month - 1
  {
    MakeMonth(c.year, c.month - 1)
  }

  /** `goToNextMonth`: `new Date(currentYear, currentMonth + 1, 1)`. */
  function GoToNextMonth(c: YearMonth): (r: YearMonth)
    ensures Valid(r)
    ensures r.year * 12 + r.month == LegacyYear(c.year) * 12 + c.month + 1
  {
    MakeMonth(c.year, c.month + 1)
  }

  /** Away from the two-digit years, next undoes previous and previous undoes next. */
  lemma NavigationRoundTrip(c: YearMonth)
    requires Valid(c)
    requires c.year > 100 || c.year < -1
    ensures GoToNextMonth(GoToPrevMonth(c)) == c
    ensures GoToPrevMonth(GoToNextMonth(c)) == c
  {
    var p := GoToPrevMonth(c);
    var q := GoToNextMonth(c);
    assert LegacyYear(c.year) == c.year;
    SameMonthIndex(GoToNextMonth(p), c);
    SameMonthIndex(GoToPrevMonth(q), c);
  }

  /** Two normalised months with the same month count since year 0 are the same month. */
  lemma SameMonthIndex(a: YearMonth, b: YearMonth)
    requires Valid(a) && Valid(b)
    requires a.year * 12 + a.month == b.year * 12 + b.month
    ensures a == b
  {
  }

  /** Going back from January of year 100 lands in year 99, which the next step reads as 1999. */
  lemma NavigationTwoDigitYearJump()
    ensures GoToPrevMonth(YearMonth(100, 0)) == YearMonth(99, 11)
    ensures GoToNextMonth(GoToPrevMonth(YearMonth(100, 0))) == YearMonth(2000, 0)
  {
  }

  /** The style classes `getDayStyle` picks, by priority. */
  datatype DayStyle = TodayStyle | OtherMonthStyle | SundayStyle | SaturdayStyle | WeekdayStyle

  /**
   * `getDayStyle`: today beats another month, which beats Sunday, then
   * Saturday, then any other weekday. `isToday` already includes the check
   * that the cell belongs to the current month.
   */
  function DayStyleOf(isToday: bool, isCurrentMonth: bool, dayOfWeek: int): (s: DayStyle)
    ensures s == TodayStyle <==> isToday
    ensures s == OtherMonthStyle <==> !isToday && !isCurrentMonth
    ensures s == SundayStyle <==> !isToday && isCurrentMonth && dayOfWeek == 0
    ensures s == SaturdayStyle <==> !isToday && isCurrentMonth && dayOfWeek == 6
    ensures s == WeekdayStyle <==> !isToday && isCurrentMonth && dayOfWeek != 0 && dayOfWeek != 6
  {
    if isToday then TodayStyle
    else if !isCurrentMonth then OtherMonthStyle
    else if dayOfWeek == 0 then SundayStyle
    else if dayOfWeek == 6 then SaturdayStyle
    else WeekdayStyle
  }
}

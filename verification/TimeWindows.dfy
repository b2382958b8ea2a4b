/**
 Resolving analytics time windows: half-open [start, end) ranges in UTC. The current moment, the
 organization's local date and custom bounds are parameters.
 */
module TimeWindows {
  import opened Wrappers
  import opened Calendar

  datatype Kind =
    | Today | Yesterday | Last7Days | Last30Days
    | CurrentMonth | PreviousMonth | CurrentQuarter | CurrentYear | Custom

  datatype TimeWindow = TimeWindow(kind: Kind, start: Moment, end: Moment)

  datatype WindowError = DateOutOfRange | CustomBoundsRequired | CustomEndNotAfterStart | UnsupportedComparison

  /** Both bounds name real months. */
  predicate HasMonths(w: TimeWindow) {
    1 <= w.start.date.month <= 12 && 1 <= w.end.date.month <= 12
  }

  predicate Contains(w: TimeWindow, m: Moment)
    requires HasMonths(w) && 1 <= m.date.month <= 12
  {
    Instant(w.start) <= Instant(m) < Instant(w.end)
  }

  function Length(w: TimeWindow): int
    requires HasMonths(w)
  {
    Instant(w.end) - Instant(w.start)
  }

  function InRange<T>(r: Result<T, DateError>): Result<T, WindowError> {
    match r
    case Ok(value) => Ok(value)
    case Err(_) => Err(DateOutOfRange)
  }

  function MonthStart(d: Date): Date {
    d.(day := 1)
  }

  function QuarterStart(d: Date): Date {
    Date(d.year, (d.month - 1) / 3 * 3 + 1, 1)
  }

  /** `moment - timedelta(days=n)` */
  function DaysEarlier(m: Moment, n: nat): (r: Result<Moment, WindowError>)
    requires ValidMoment(m)
    ensures r.Ok? ==> ValidMoment(r.value) && Instant(r.value) == Instant(m) - n * TICKS_PER_DAY
    ensures r.Ok? <==> DayNumber(m.date) > n
  {
    var d :- InRange(MinusDays(m.date, n));
    Ok(Moment(d, m.tick))
  }

  function LastDays(kind: Kind, moment: Moment, n: nat): Result<TimeWindow, WindowError>
    requires ValidMoment(moment)
  {
    var start :- DaysEarlier(moment, n);
    Ok(TimeWindow(kind, start, moment))
  }

  function LocalDay(kind: Kind, anchor: Date): Result<TimeWindow, WindowError>
    requires Valid(anchor)
  {
    var end :- InRange(DayAfter(anchor));
    Ok(TimeWindow(kind, Midnight(anchor), Midnight(end)))
  }

  function MonthWindow(d: Date): Result<TimeWindow, WindowError> {
    var end :- InRange(AddMonths(MonthStart(d), 1));
    Ok(TimeWindow(CurrentMonth, Midnight(MonthStart(d)), Midnight(end)))
  }

  function PreviousMonthWindow(d: Date): Result<TimeWindow, WindowError> {
    var start :- InRange(AddMonths(MonthStart(d), -1));
    Ok(TimeWindow(PreviousMonth, Midnight(start), Midnight(MonthStart(d))))
  }

  function QuarterWindow(d: Date): Result<TimeWindow, WindowError> {
    var end :- InRange(AddMonths(QuarterStart(d), 3));
    Ok(TimeWindow(CurrentQuarter, Midnight(QuarterStart(d)), Midnight(end)))
  }

  function YearWindow(d: Date): Result<TimeWindow, WindowError> {
    var start :- InRange(MakeDate(d.year, 1, 1));
    var end :- InRange(MakeDate(d.year + 1, 1, 1));
    Ok(TimeWindow(CurrentYear, Midnight(start), Midnight(end)))
  }

  function ResolveTimeWindow(kind: Kind, moment: Moment, todayLocal: Date,
                             customStart: Option<Moment>, customEnd: Option<Moment>): Result<TimeWindow, WindowError>
    requires ValidMoment(moment) && Valid(todayLocal)
    requires customStart.Some? ==> ValidMoment(customStart.value)
    requires customEnd.Some? ==> ValidMoment(customEnd.value)
  {
    match kind
    case Custom =>
      if customStart.None? || customEnd.None? then Err(CustomBoundsRequired)
      else if Instant(customEnd.value) <= Instant(customStart.value) then Err(CustomEndNotAfterStart)
      else Ok(TimeWindow(Custom, customStart.value, customEnd.value))
    case Today => LocalDay(Today, todayLocal)
    case Yesterday =>
      var anchor :- InRange(MinusDays(todayLocal, 1));
      LocalDay(Yesterday, anchor)
    case Last7Days => LastDays(Last7Days, moment, 7)
    case Last30Days => LastDays(Last30Days, moment, 30)
    case CurrentMonth => MonthWindow(moment.date)
    case PreviousMonth => PreviousMonthWindow(moment.date)
    case CurrentQuarter => QuarterWindow(moment.date)
    case CurrentYear => YearWindow(moment.date)
  }

  /** The window before a rolling one. */
  function LastDaysCompared(kind: Kind, moment: Moment, n: nat): Result<(TimeWindow, TimeWindow), WindowError>
    requires ValidMoment(moment)
  {
    var current :- LastDays(kind, moment, n);
    var start :- DaysEarlier(current.start, n);
    Ok((current, TimeWindow(kind, start, current.start)))
  }

  function QuartersCompared(d: Date): Result<(TimeWindow, TimeWindow), WindowError> {
    var current :- QuarterWindow(d);
    var start :- InRange(AddMonths(current.start.date, -3));
    Ok((current, TimeWindow(CurrentQuarter, Midnight(start), current.start)))
  }

  function MonthsCompared(d: Date): Result<(TimeWindow, TimeWindow), WindowError> {
    var current :- MonthWindow(d);
    var previous :- PreviousMonthWindow(d);
    Ok((current, previous))
  }

  function YearsCompared(d: Date): Result<(TimeWindow, TimeWindow), WindowError> {
    var current :- YearWindow(d);
    var start :- InRange(MakeDate(current.start.date.year - 1, 1, 1));
    Ok((current, TimeWindow(CurrentYear, Midnight(start), current.start)))
  }

  /** The comparison windows: the current one and the one before it. */
  function ResolvePeriodComparisonWindows(kind: Kind, moment: Moment): Result<(TimeWindow, TimeWindow), WindowError>
    requires ValidMoment(moment)
  {
    match kind
    case Last7Days => LastDaysCompared(Last7Days, moment, 7)
    case Last30Days => LastDaysCompared(Last30Days, moment, 30)
    case CurrentMonth => MonthsCompared(moment.date)
    case CurrentQuarter => QuartersCompared(moment.date)
    case CurrentYear => YearsCompared(moment.date)
    case _ => Err(UnsupportedComparison)
  }

  // ---------------------------------------------------------------- calendar windows are month spans

  /** The window runs from one month start to another, a given number of months later. */
  predicate IsSpan(w: TimeWindow, months: int) {
    && IsFirst(w.start.date) && w.start.tick == 0
    && IsFirst(w.end.date) && w.end.tick == 0
    && MonthIndex(w.end.date) == MonthIndex(w.start.date) + months
  }

  predicate IsCalendarKind(kind: Kind) {
    kind.CurrentMonth? || kind.CurrentQuarter? || kind.CurrentYear?
  }

  function PeriodMonths(kind: Kind): int
    requires IsCalendarKind(kind)
  {
    match kind
    case CurrentMonth => 1
    case CurrentQuarter => 3
    case CurrentYear => 12
  }

  /** The first day of the month, quarter or year a date belongs to. */
  function PeriodStart(kind: Kind, d: Date): Date
    requires IsCalendarKind(kind)
  {
    match kind
    case CurrentMonth => MonthStart(d)
    case CurrentQuarter => QuarterStart(d)
    case CurrentYear => Date(d.year, 1, 1)
  }

  /** A date's period is the one whose months include its own. */
  lemma {:induction false} PeriodHoldsItsMonths(kind: Kind, d: Date, x: Date)
    requires IsCalendarKind(kind) && Valid(d) && Valid(x)
    ensures var first := PeriodStart(kind, d);
            && IsFirst(first)
            && (MonthIndex(first) <= MonthIndex(x) < MonthIndex(first) + PeriodMonths(kind) <==> PeriodStart(kind, x) == first)
  {
  }

  lemma {:induction false} PeriodWindow(kind: Kind, m: Moment) returns (w: TimeWindow)
    requires ValidMoment(m) && IsCalendarKind(kind)
    requires ResolveTimeWindow(kind, m, m.date, None, None).Ok?
    ensures ResolveTimeWindow(kind, m, m.date, None, None) == Ok(w)
    ensures IsSpan(w, PeriodMonths(kind)) && w.start.date == PeriodStart(kind, m.date)
  {
    w := ResolveTimeWindow(kind, m, m.date, None, None).value;
  }

  /** A calendar window contains a moment exactly when the moment's own month lies in its span. */
  lemma {:induction false} SpanContains(w: TimeWindow, months: int, x: Moment)
    requires IsSpan(w, months) && ValidMoment(x)
    ensures Contains(w, x) <==> MonthIndex(w.start.date) <= MonthIndex(x.date) < MonthIndex(w.start.date) + months
  {
    MomentReachesMonth(x, w.start.date);
    MomentReachesMonth(x, w.end.date);
  }

  /**
   A month, quarter or year window exists unless it would end after the last year, and holds x exactly
   when m and x belong to the same period: every instant before the last period lies in exactly one.
   */
  lemma {:induction false} WindowsPartitionTime(kind: Kind, m: Moment, x: Moment)
    requires ValidMoment(m) && ValidMoment(x) && IsCalendarKind(kind)
    ensures var r := ResolveTimeWindow(kind, m, m.date, None, None);
            && (r.Ok? <==> PeriodEnds(kind, m.date))
            && (r.Ok? ==> HasMonths(r.value)
                          && (Contains(r.value, x) <==> PeriodStart(kind, x.date) == PeriodStart(kind, m.date)))
  {
    CalendarWindowExistsIff(kind, m, m.date);
    if ResolveTimeWindow(kind, m, m.date, None, None).Ok? {
      var w := PeriodWindow(kind, m);
      SpanContains(w, PeriodMonths(kind), x);
      PeriodHoldsItsMonths(kind, m.date, x.date);
    }
  }

  // ---------------------------------------------------------------- comparisons

  /** What two comparison windows owe each other. */
  predicate BackToBack(current: TimeWindow, previous: TimeWindow)
    requires HasMonths(current) && HasMonths(previous)
  {
    previous.end == current.start && Length(current) > 0 && Length(previous) > 0
  }

  /** Days from one month start to another. */
  function DaysBetween(a: Date, b: Date): int
    requires IsFirst(a) && IsFirst(b)
  {
    DayNumber(b) - DayNumber(a)
  }

  lemma {:induction false} SpanLength(w: TimeWindow, months: int)
    requires IsSpan(w, months) && months > 0
    ensures Length(w) == DaysBetween(w.start.date, w.end.date) * TICKS_PER_DAY > 0
  {
    FirstsIncrease(w.start.date, w.end.date);
  }

  lemma {:induction false} ComparedMonths(d: Date)
    requires Valid(d) && MonthsCompared(d).Ok?
    ensures AdjacentSpans(CurrentMonth, d, MonthsCompared(d).value)
  {
  }

  lemma {:induction false} ComparedQuarters(d: Date)
    requires Valid(d) && QuartersCompared(d).Ok?
    ensures AdjacentSpans(CurrentQuarter, d, QuartersCompared(d).value)
  {
  }

  lemma {:induction false} ComparedYears(d: Date)
    requires Valid(d) && YearsCompared(d).Ok?
    ensures AdjacentSpans(CurrentYear, d, YearsCompared(d).value)
  {
  }

  /** The current period of a date and the one before it. */
  predicate AdjacentSpans(kind: Kind, d: Date, pair: (TimeWindow, TimeWindow))
    requires IsCalendarKind(kind)
  {
    && IsSpan(pair.0, PeriodMonths(kind)) && IsSpan(pair.1, PeriodMonths(kind))
    && pair.1.end == pair.0.start && pair.0.start.date == PeriodStart(kind, d)
  }

  /** Calendar comparisons are two adjacent spans. */
  lemma {:induction false} ComparedSpans(kind: Kind, m: Moment) returns (current: TimeWindow, previous: TimeWindow)
    requires ValidMoment(m) && IsCalendarKind(kind)
    requires ResolvePeriodComparisonWindows(kind, m).Ok?
    ensures ResolvePeriodComparisonWindows(kind, m) == Ok((current, previous))
    ensures IsSpan(current, PeriodMonths(kind)) && IsSpan(previous, PeriodMonths(kind))
    ensures previous.end == current.start && current.start.date == PeriodStart(kind, m.date)
  {
    var pair := ResolvePeriodComparisonWindows(kind, m).value;
    current, previous := pair.0, pair.1;
    match kind
    case CurrentMonth => ComparedMonths(m.date);
    case CurrentQuarter => ComparedQuarters(m.date);
    case CurrentYear => ComparedYears(m.date);
  }

  /** The previous calendar window ends where the current one starts, and the current one holds the moment. */
  lemma {:induction false} CalendarComparison(kind: Kind, m: Moment) returns (current: TimeWindow, previous: TimeWindow)
    requires ValidMoment(m) && IsCalendarKind(kind)
    requires ResolvePeriodComparisonWindows(kind, m).Ok?
    ensures ResolvePeriodComparisonWindows(kind, m) == Ok((current, previous))
    ensures HasMonths(current) && HasMonths(previous)
    ensures BackToBack(current, previous) && Contains(current, m)
  {
    current, previous := ComparedSpans(kind, m);
    SpanLength(current, PeriodMonths(kind));
    SpanLength(previous, PeriodMonths(kind));
    SpanContains(current, PeriodMonths(kind), m);
    PeriodHoldsItsMonths(kind, m.date, m.date);
  }

  /** Rolling comparisons are two windows of exactly the same number of days, ending now. */
  lemma {:induction false} RollingComparison(kind: Kind, m: Moment)
    requires ValidMoment(m) && kind in {Last7Days, Last30Days}
    ensures var r, days := ResolvePeriodComparisonWindows(kind, m), if kind == Last7Days then 7 else 30;
            && (r.Ok? <==> DayNumber(m.date) > 2 * days)
            && (r.Ok? ==> && ValidMoment(r.value.0.start) && r.value.0.end == m && ValidMoment(r.value.1.start)
                          && BackToBack(r.value.0, r.value.1)
                          && Length(r.value.0) == Length(r.value.1) == days * TICKS_PER_DAY)
  {
  }

  /** When the calendar happens to give the two periods the same number of days. */
  predicate SameDays(kind: Kind, d: Date)
    requires IsCalendarKind(kind)
  {
    match kind
    case CurrentMonth => d.month == 1 || d.month == 8
    case CurrentQuarter => d.month >= 10 || (4 <= d.month <= 6 && IsLeap(d.year))
    case CurrentYear => !IsLeap(d.year) && !IsLeap(d.year - 1)
  }

  /** Days in the month, quarter or year that begins on a date. */
  function PeriodDays(kind: Kind, first: Date): int
    requires IsCalendarKind(kind) && IsFirst(first)
  {
    match kind
    case CurrentMonth => DaysInMonth(first.year, first.month)
    case CurrentQuarter => if first.month == 1 then 90 + LeapDay(first.year) else if first.month == 4 then 91 else 92
    case CurrentYear => 365 + LeapDay(first.year)
  }

  lemma {:induction false} SpanHasPeriodDays(kind: Kind, first: Date, end: Date)
    requires IsCalendarKind(kind) && IsFirst(first) && IsFirst(end)
    requires MonthIndex(end) == MonthIndex(first) + PeriodMonths(kind)
    requires kind.CurrentQuarter? ==> first.month in {1, 4, 7, 10}
    requires kind.CurrentYear? ==> first.month == 1
    ensures DaysBetween(first, end) == PeriodDays(kind, first)
  {
    match kind
    case CurrentMonth =>
      MonthStep(first);
      SameFirst(end, NextFirst(first));
    case CurrentQuarter =>
      QuarterDays(first);
      SameFirst(end, NextFirst(NextFirst(NextFirst(first))));
    case CurrentYear =>
      YearDays(first, end);
  }

  lemma {:induction false} YearDays(first: Date, end: Date)
    requires IsFirst(first) && first.month == 1 && IsFirst(end) && MonthIndex(end) == MonthIndex(first) + 12
    ensures DayNumber(end) - DayNumber(first) == 365 + LeapDay(first.year)
  {
    YearStep(first.year);
    SameFirst(end, Date(first.year + 1, 1, 1));
  }

  /** A quarter is three months, each one step along the line of days. */
  lemma {:induction false} QuarterDays(first: Date)
    requires IsFirst(first) && first.month in {1, 4, 7, 10}
    ensures DayNumber(NextFirst(NextFirst(NextFirst(first)))) - DayNumber(first) == PeriodDays(CurrentQuarter, first)
  {
    var second := NextFirst(first);
    var third := NextFirst(second);
    MonthStep(first);
    MonthStep(second);
    MonthStep(third);
    QuarterMonths(first.year, first.month);
  }

  lemma {:induction false} QuarterMonths(year: int, month: int)
    requires month in {1, 4, 7, 10}
    ensures DaysInMonth(year, month) + DaysInMonth(year, month + 1) + DaysInMonth(year, month + 2)
         == PeriodDays(CurrentQuarter, Date(year, month, 1))
  {
  }

  /**
   The docstring calls the two windows equal in length. Calendar periods are, exactly in January and
   August, in the last quarter and the second quarter of a leap year, and in a common year after a
   common year.
   */
  lemma {:induction false} CalendarLengthsEqualIff(kind: Kind, m: Moment) returns (current: TimeWindow, previous: TimeWindow)
    requires ValidMoment(m) && IsCalendarKind(kind)
    requires ResolvePeriodComparisonWindows(kind, m).Ok?
    ensures ResolvePeriodComparisonWindows(kind, m) == Ok((current, previous))
    ensures HasMonths(current) && HasMonths(previous)
    ensures Length(current) == Length(previous) <==> SameDays(kind, m.date)
  {
    current, previous := ComparedSpans(kind, m);
    SpanLength(current, PeriodMonths(kind));
    SpanLength(previous, PeriodMonths(kind));
    PreviousPeriod(kind, m.date, previous.start.date);
    SpanHasPeriodDays(kind, current.start.date, current.end.date);
    SpanHasPeriodDays(kind, previous.start.date, previous.end.date);
  }

  lemma {:induction false} PreviousPeriod(kind: Kind, d: Date, before: Date)
    requires IsCalendarKind(kind) && Valid(d) && IsFirst(before)
    requires MonthIndex(before) + PeriodMonths(kind) == MonthIndex(PeriodStart(kind, d))
    ensures kind.CurrentQuarter? ==> {PeriodStart(kind, d).month, before.month} <= {1, 4, 7, 10}
    ensures kind.CurrentYear? ==> before.month == 1
    ensures PeriodDays(kind, PeriodStart(kind, d)) == PeriodDays(kind, before) <==> SameDays(kind, d)
  {
    match kind
    case CurrentMonth =>
      SameFirst(before, if d.month == 1 then Date(d.year - 1, 12, 1) else Date(d.year, d.month - 1, 1));
    case CurrentQuarter =>
      var first := QuarterStart(d);
      SameFirst(before, if first.month == 1 then Date(d.year - 1, 10, 1) else Date(d.year, first.month - 3, 1));
    case CurrentYear =>
      SameFirst(before, Date(d.year - 1, 1, 1));
  }

  // ---------------------------------------------------------------- every kind of window

  lemma {:induction false} LocalDayLasts(kind: Kind, anchor: Date)
    requires Valid(anchor) && LocalDay(kind, anchor).Ok?
    ensures var w := LocalDay(kind, anchor).value; HasMonths(w) && w.kind == kind && Length(w) == TICKS_PER_DAY
  {
    DayAfterIsOneMore(anchor);
  }

  lemma {:induction false} CalendarWindowLasts(kind: Kind, m: Moment, today: Date)
    requires ValidMoment(m) && Valid(today) && IsCalendarKind(kind) && ResolveTimeWindow(kind, m, today, None, None).Ok?
    ensures var w := ResolveTimeWindow(kind, m, today, None, None).value; HasMonths(w) && w.kind == kind && Length(w) > 0
  {
    var w := ResolveTimeWindow(kind, m, today, None, None).value;
    SpanLength(w, PeriodMonths(kind));
  }

  lemma {:induction false} PreviousMonthLasts(d: Date)
    requires Valid(d) && PreviousMonthWindow(d).Ok?
    ensures var w := PreviousMonthWindow(d).value; HasMonths(w) && w.kind == PreviousMonth && Length(w) > 0
  {
    SpanLength(PreviousMonthWindow(d).value, 1);
  }

  /** A window that is resolved at all is of the kind asked for and never empty. */
  lemma {:induction false} WindowsAreNotEmpty(kind: Kind, m: Moment, today: Date, from: Option<Moment>, to: Option<Moment>)
    requires ValidMoment(m) && Valid(today)
    requires (from.Some? ==> ValidMoment(from.value)) && (to.Some? ==> ValidMoment(to.value))
    ensures var r := ResolveTimeWindow(kind, m, today, from, to);
            r.Ok? ==> HasMonths(r.value) && r.value.kind == kind && Length(r.value) > 0
  {
    if ResolveTimeWindow(kind, m, today, from, to).Ok? {
      if IsCalendarKind(kind) {
        CalendarWindowLasts(kind, m, today);
      } else if kind.Today? {
        LocalDayLasts(kind, today);
      } else if kind.Yesterday? {
        LocalDayLasts(kind, MinusDays(today, 1).value);
      } else if kind.PreviousMonth? {
        PreviousMonthLasts(m.date);
      }
    }
  }

  /** Yesterday ends where today begins, and both last one day. */
  lemma {:induction false} DaysMeet(m: Moment, today: Date)
    requires ValidMoment(m) && Valid(today)
    requires ResolveTimeWindow(Today, m, today, None, None).Ok? && ResolveTimeWindow(Yesterday, m, today, None, None).Ok?
    ensures var day, eve := ResolveTimeWindow(Today, m, today, None, None).value,
                            ResolveTimeWindow(Yesterday, m, today, None, None).value;
            && HasMonths(day) && HasMonths(eve) && Instant(eve.end) == Instant(day.start)
            && Length(eve) == Length(day) == TICKS_PER_DAY
  {
    var before := MinusDays(today, 1).value;
    LocalDayLasts(Today, today);
    LocalDayLasts(Yesterday, before);
    EveEnds(before, today);
  }

  lemma {:induction false} EveEnds(eve: Date, day: Date)
    requires Valid(eve) && Valid(day) && DayNumber(day) == DayNumber(eve) + 1 && DayAfter(eve).Ok?
    ensures 1 <= DayAfter(eve).value.month <= 12 && Instant(Midnight(DayAfter(eve).value)) == Instant(Midnight(day))
  {
    DayAfterIsOneMore(eve);
  }

  /** The previous month ends where the current one begins. */
  lemma {:induction false} MonthsMeet(m: Moment, today: Date)
    requires ValidMoment(m) && Valid(today)
    requires ResolveTimeWindow(CurrentMonth, m, today, None, None).Ok? && ResolveTimeWindow(PreviousMonth, m, today, None, None).Ok?
    ensures var month, before := ResolveTimeWindow(CurrentMonth, m, today, None, None).value,
                                 ResolveTimeWindow(PreviousMonth, m, today, None, None).value;
            before.end == month.start && IsSpan(before, 1) && IsSpan(month, 1)
  {
  }

  // ---------------------------------------------------------------- which windows exist

  const LAST_DAY := Date(MAX_YEAR, 12, 31)

  lemma {:induction false} NoDayAfterTheLast(d: Date)
    requires Valid(d)
    ensures DayNumber(d) <= DayNumber(LAST_DAY)
  {
    var next := Date(MAX_YEAR + 1, 1, 1);
    DayReachesMonth(d, next);
    MonthStep(Date(MAX_YEAR, 12, 1));
  }

  lemma {:induction false} DayAfterExistsIff(d: Date)
    requires Valid(d)
    ensures DayAfter(d).Ok? <==> d != LAST_DAY
  {
  }

  lemma {:induction false} YesterdayExistsIff(today: Date)
    requires Valid(today)
    ensures ResolveTimeWindow(Yesterday, Midnight(today), today, None, None).Ok? <==> DayNumber(today) > 1
  {
    if DayNumber(today) > 1 {
      var eve := MinusDays(today, 1).value;
      NoDayAfterTheLast(today);
      DayAfterExistsIff(eve);
    }
  }

  /** When a window of each kind stays within the years 1 to 9999. */
  predicate WindowInRange(kind: Kind, m: Moment, today: Date, from: Option<Moment>, to: Option<Moment>)
    requires ValidMoment(m) && Valid(today)
    requires (from.Some? ==> ValidMoment(from.value)) && (to.Some? ==> ValidMoment(to.value))
  {
    match kind
    case Today => today != LAST_DAY
    case Yesterday => DayNumber(today) > 1
    case Last7Days => DayNumber(m.date) > 7
    case Last30Days => DayNumber(m.date) > 30
    case PreviousMonth => MonthIndex(m.date) > 12 * MIN_YEAR
    case Custom => from.Some? && to.Some? && Instant(from.value) < Instant(to.value)
    case CurrentMonth => PeriodEnds(kind, m.date)
    case CurrentQuarter => PeriodEnds(kind, m.date)
    case CurrentYear => PeriodEnds(kind, m.date)
  }

  /** The period of a date ends within the calendar. */
  predicate PeriodEnds(kind: Kind, d: Date)
    requires IsCalendarKind(kind)
  {
    MonthIndex(PeriodStart(kind, d)) + PeriodMonths(kind) < 12 * (MAX_YEAR + 1)
  }

  /** The period before that of a date begins within the calendar. */
  predicate PeriodPrecedes(kind: Kind, d: Date)
    requires IsCalendarKind(kind)
  {
    MonthIndex(PeriodStart(kind, d)) - PeriodMonths(kind) >= 12 * MIN_YEAR
  }

  lemma {:induction false} CalendarWindowExistsIff(kind: Kind, m: Moment, today: Date)
    requires ValidMoment(m) && Valid(today) && IsCalendarKind(kind)
    ensures ResolveTimeWindow(kind, m, today, None, None).Ok? <==> PeriodEnds(kind, m.date)
  {
  }

  /** A window is resolved exactly when it stays within the calendar and, for a custom one, is in order. */
  lemma {:induction false} WindowExistsIff(kind: Kind, m: Moment, today: Date, from: Option<Moment>, to: Option<Moment>)
    requires ValidMoment(m) && Valid(today)
    requires (from.Some? ==> ValidMoment(from.value)) && (to.Some? ==> ValidMoment(to.value))
    ensures ResolveTimeWindow(kind, m, today, from, to).Ok? <==> WindowInRange(kind, m, today, from, to)
  {
    if IsCalendarKind(kind) {
      CalendarWindowExistsIff(kind, m, today);
    } else if kind.Today? {
      DayAfterExistsIff(today);
    } else if kind.Yesterday? {
      YesterdayExistsIff(today);
    }
  }

  lemma {:induction false} CalendarComparisonExistsIff(kind: Kind, m: Moment)
    requires ValidMoment(m) && IsCalendarKind(kind)
    ensures ResolvePeriodComparisonWindows(kind, m).Ok? <==> PeriodEnds(kind, m.date) && PeriodPrecedes(kind, m.date)
  {
  }

  /** A comparison exists exactly for five kinds, and for those when both windows stay within the calendar. */
  lemma {:induction false} ComparisonExistsIff(kind: Kind, m: Moment)
    requires ValidMoment(m)
    ensures ResolvePeriodComparisonWindows(kind, m).Ok?
       <==> || (kind == Last7Days && DayNumber(m.date) > 14)
            || (kind == Last30Days && DayNumber(m.date) > 60)
            || (IsCalendarKind(kind) && PeriodEnds(kind, m.date) && PeriodPrecedes(kind, m.date))
    ensures ResolvePeriodComparisonWindows(kind, m) == Err(UnsupportedComparison)
       <==> !IsCalendarKind(kind) && kind != Last7Days && kind != Last30Days
  {
    if IsCalendarKind(kind) {
      CalendarComparisonExistsIff(kind, m);
    } else if kind == Last7Days || kind == Last30Days {
      RollingComparison(kind, m);
    }
  }

  // ---------------------------------------------------------------- which instants each window holds

  lemma {:induction false} DayHolds(w: TimeWindow, day: Date, next: Date, x: Moment)
    requires Valid(day) && Valid(next) && DayNumber(next) == DayNumber(day) + 1 && ValidMoment(x)
    requires w.start == Midnight(day) && w.end == Midnight(next)
    ensures Contains(w, x) <==> DayNumber(x.date) == DayNumber(day)
  {
    WholeDays(DayNumber(day), DayNumber(x.date), x.tick);
    WholeDays(DayNumber(next), DayNumber(x.date), x.tick);
  }

  /** Today's window exists unless it is the last day of 9999, and holds exactly the instants of the local date. */
  lemma {:induction false} TodayHolds(m: Moment, today: Date, x: Moment)
    requires ValidMoment(m) && ValidMoment(x) && Valid(today)
    ensures var r := ResolveTimeWindow(Today, m, today, None, None);
            if today == Date(9999, 12, 31) then r == Err(DateOutOfRange)
            else r.Ok? && HasMonths(r.value) && (Contains(r.value, x) <==> x.date == today)
  {
    if today != Date(9999, 12, 31) {
      var next := DayAfter(today).value;
      DayAfterIsOneMore(today);
      DayHolds(TimeWindow(Today, Midnight(today), Midnight(next)), today, next, x);
      if DayNumber(x.date) == DayNumber(today) {
        SameDayNumber(x.date, today);
      }
    }
  }

  /** Yesterday's exists from the second day of year 1 on, and holds exactly the instants of the day before. */
  lemma {:induction false} YesterdayHolds(m: Moment, today: Date, x: Moment)
    requires ValidMoment(m) && ValidMoment(x) && Valid(today)
    ensures var r := ResolveTimeWindow(Yesterday, m, today, None, None);
            if DayNumber(today) == 1 then r == Err(DateOutOfRange)
            else r.Ok? && HasMonths(r.value) && (Contains(r.value, x) <==> DayNumber(x.date) == DayNumber(today) - 1)
  {
    DayNumberPositive(today);
    if DayNumber(today) > 1 {
      var eve := MinusDays(today, 1).value;
      NoDayAfterTheLast(today);
      DayAfterExistsIff(eve);
      DayAfterIsOneMore(eve);
      DayHolds(TimeWindow(Yesterday, Midnight(eve), Midnight(DayAfter(eve).value)), eve, DayAfter(eve).value, x);
    }
  }

  /** The last 7 or 30 days run back from the very moment, by so many days of 24 hours. */
  lemma {:induction false} LastDaysHold(kind: Kind, m: Moment, today: Date, x: Moment)
    requires ValidMoment(m) && ValidMoment(x) && Valid(today) && kind in {Last7Days, Last30Days}
    ensures var r, days := ResolveTimeWindow(kind, m, today, None, None), if kind == Last7Days then 7 else 30;
            if DayNumber(m.date) <= days then r == Err(DateOutOfRange)
            else && r.Ok? && HasMonths(r.value)
                 && (Contains(r.value, x) <==> Instant(m) - days * 86400000000 <= Instant(x) < Instant(m))
  {
  }

  /** A custom window needs both bounds, the second after the first, and holds what lies from one to the other. */
  lemma {:induction false} CustomHolds(m: Moment, today: Date, from: Option<Moment>, to: Option<Moment>, x: Moment)
    requires ValidMoment(m) && ValidMoment(x) && Valid(today)
    requires (from.Some? ==> ValidMoment(from.value)) && (to.Some? ==> ValidMoment(to.value))
    ensures var r := ResolveTimeWindow(Custom, m, today, from, to);
            if from.None? || to.None? then r == Err(CustomBoundsRequired)
            else if Instant(to.value) <= Instant(from.value) then r == Err(CustomEndNotAfterStart)
            else && r.Ok? && HasMonths(r.value)
                 && (Contains(r.value, x) <==> Instant(from.value) <= Instant(x) < Instant(to.value))
  {
  }

  /** The month window holds the instants of the moment's month, the quarter's those of its quarter, the year's of its year. */
  lemma {:induction false} CalendarWindowHolds(kind: Kind, m: Moment, today: Date, x: Moment)
    requires ValidMoment(m) && ValidMoment(x) && Valid(today) && IsCalendarKind(kind)
    ensures var r, d, e := ResolveTimeWindow(kind, m, today, None, None), m.date, x.date;
            if d.year == 9999 && d.month > (if kind.CurrentMonth? then 11 else if kind.CurrentQuarter? then 9 else 0)
            then r == Err(DateOutOfRange)
            else && r.Ok? && HasMonths(r.value)
                 && (Contains(r.value, x) <==> d.year == e.year
                                               && (kind.CurrentMonth? ==> d.month == e.month)
                                               && (kind.CurrentQuarter? ==> (d.month - 1) / 3 == (e.month - 1) / 3))
  {
    WindowsPartitionTime(kind, m, x);
    PeriodEndsIs(kind, m.date);
    PeriodIs(kind, m.date, x.date);
  }

  lemma {:induction false} PeriodEndsIs(kind: Kind, d: Date)
    requires IsCalendarKind(kind) && Valid(d)
    ensures PeriodEnds(kind, d)
       <==> !(d.year == 9999 && d.month > (if kind.CurrentMonth? then 11 else if kind.CurrentQuarter? then 9 else 0))
  {
  }

  lemma {:induction false} PeriodIs(kind: Kind, d: Date, e: Date)
    requires IsCalendarKind(kind) && Valid(d) && Valid(e)
    ensures PeriodStart(kind, e) == PeriodStart(kind, d)
       <==> d.year == e.year && (kind.CurrentMonth? ==> d.month == e.month)
            && (kind.CurrentQuarter? ==> (d.month - 1) / 3 == (e.month - 1) / 3)
  {
  }

  /** The previous month's window holds the instants of the month before, across the year's end too. */
  lemma {:induction false} PreviousMonthHolds(m: Moment, today: Date, x: Moment)
    requires ValidMoment(m) && ValidMoment(x) && Valid(today)
    ensures var r, d, e := ResolveTimeWindow(PreviousMonth, m, today, None, None), m.date, x.date;
            if d.year == 1 && d.month == 1 then r == Err(DateOutOfRange)
            else && r.Ok? && HasMonths(r.value)
                 && (Contains(r.value, x) <==> if d.month == 1 then e.year == d.year - 1 && e.month == 12
                                               else e.year == d.year && e.month == d.month - 1)
  {
    var r := ResolveTimeWindow(PreviousMonth, m, today, None, None);
    if r.Ok? {
      SpanContains(r.value, 1, x);
    }
  }

  /** What the comparison of calendar windows compares: the window as resolved, and the period before it. */
  lemma {:induction false} ComparedHold(kind: Kind, m: Moment, x: Moment)
    requires ValidMoment(m) && ValidMoment(x) && IsCalendarKind(kind) && ResolvePeriodComparisonWindows(kind, m).Ok?
    ensures var pair, d, e := ResolvePeriodComparisonWindows(kind, m).value, m.date, x.date;
            && ResolveTimeWindow(kind, m, m.date, None, None) == Ok(pair.0) && HasMonths(pair.1)
            && (Contains(pair.1, x)
                <==> match kind
                  case CurrentMonth => 12 * e.year + e.month == 12 * d.year + d.month - 1
                  case CurrentQuarter => 4 * e.year + (e.month - 1) / 3 == 4 * d.year + (d.month - 1) / 3 - 1
                  case CurrentYear => e.year == d.year - 1)
  {
    var current, previous := ComparedSpans(kind, m);
    SpanContains(previous, PeriodMonths(kind), x);
    PrecedingPeriod(kind, m.date, x.date);
  }

  lemma {:induction false} PrecedingPeriod(kind: Kind, d: Date, e: Date)
    requires IsCalendarKind(kind) && Valid(d) && Valid(e)
    ensures var first := MonthIndex(PeriodStart(kind, d));
            first - PeriodMonths(kind) <= MonthIndex(e) < first
            <==> match kind
              case CurrentMonth => 12 * e.year + e.month == 12 * d.year + d.month - 1
              case CurrentQuarter => 4 * e.year + (e.month - 1) / 3 == 4 * d.year + (d.month - 1) / 3 - 1
              case CurrentYear => e.year == d.year - 1
  {
  }

  // ---------------------------------------------------------------- trailing series

  /** The starts at offsets n-1, ..., 1, 0 back from d, each `step` months earlier than the next. */
  function StartsBack(d: Date, n: int, step: int): Result<seq<Moment>, WindowError>
    decreases n
  {
    if n <= 0 then Ok([])
    else
      var oldest :- InRange(AddMonths(d, -(n - 1) * step));
      var rest :- StartsBack(d, n - 1, step);
      Ok([Midnight(oldest)] + rest)
  }

  function TrailingMonthStarts(n: int, m: Moment): Result<seq<Moment>, WindowError> {
    StartsBack(MonthStart(m.date), n, 1)
  }

  function TrailingQuarterStarts(n: int, m: Moment): Result<seq<Moment>, WindowError> {
    StartsBack(QuarterStart(m.date), n, 3)
  }

  function TrailingYearStarts(n: int, m: Moment): Result<seq<Moment>, WindowError>
    decreases n
  {
    if n <= 0 then Ok([])
    else
      var oldest :- InRange(MakeDate(m.date.year - (n - 1), 1, 1));
      var rest :- TrailingYearStarts(n - 1, m);
      Ok([Midnight(oldest)] + rest)
  }

  predicate IsMonthStart(m: Moment) {
    IsFirst(m.date) && m.tick == 0
  }

  /** Consecutive periods of `step` months, oldest first; the last one begins at month number `last`. */
  predicate IsSeries(starts: seq<Moment>, last: int, step: int) {
    && (forall j :: 0 <= j < |starts| ==> IsMonthStart(starts[j]))
    && (forall i, j :: 0 <= i < |starts| && i < j < |starts| && j == i + 1 ==>
                      MonthIndex(starts[j].date) == MonthIndex(starts[i].date) + step)
    && (starts != [] ==> MonthIndex(starts[|starts| - 1].date) == last)
  }

  lemma {:induction false} StartsBackIsSeries(d: Date, n: int, step: int)
    ensures StartsBack(d, n, step).Ok? ==>
              var starts := StartsBack(d, n, step).value;
              && |starts| == (if n > 0 then n else 0) && IsSeries(starts, MonthIndex(d), step)
              && (n > 0 ==> MonthIndex(starts[0].date) == MonthIndex(d) + -(n - 1) * step)
    decreases n
  {
    if n > 0 && StartsBack(d, n, step).Ok? {
      StartsBackIsSeries(d, n - 1, step);
      var oldest, rest := AddMonths(d, -(n - 1) * step).value, StartsBack(d, n - 1, step).value;
      assert -(n - 1) * step + step == -(n - 2) * step;
      SeriesExtends(Midnight(oldest), rest, MonthIndex(d), step);
    }
  }

  lemma {:induction false} StartsBackExistIff(d: Date, n: int, step: int)
    requires Valid(d) && step > 0
    ensures StartsBack(d, n, step).Ok? <==> n <= 0 || MonthIndex(d) - (n - 1) * step >= 12 * MIN_YEAR
    decreases n
  {
    if n > 0 {
      StartsBackExistIff(d, n - 1, step);
      StepsBack(n - 1, step);
      OldestExistsIff(d, -(n - 1) * step);
    }
  }

  lemma {:induction false} YearStartsExistIff(n: int, m: Moment)
    requires ValidMoment(m)
    ensures TrailingYearStarts(n, m).Ok? <==> n <= 0 || m.date.year - (n - 1) >= MIN_YEAR
    decreases n
  {
    if n > 0 {
      YearStartsExistIff(n - 1, m);
    }
  }

  /** Each trailing series exists exactly when its oldest period begins in year 1 or later. */
  lemma {:induction false} TrailingSeriesExistIff(n: int, m: Moment)
    requires ValidMoment(m)
    ensures TrailingMonthStarts(n, m).Ok? <==> n <= 0 || MonthIndex(m.date) - (n - 1) >= 12 * MIN_YEAR
    ensures TrailingQuarterStarts(n, m).Ok? <==> n <= 0 || MonthIndex(QuarterStart(m.date)) - (n - 1) * 3 >= 12 * MIN_YEAR
    ensures TrailingYearStarts(n, m).Ok? <==> n <= 0 || m.date.year - (n - 1) >= MIN_YEAR
  {
    StartsBackExistIff(MonthStart(m.date), n, 1);
    StartsBackExistIff(QuarterStart(m.date), n, 3);
    YearStartsExistIff(n, m);
  }

  lemma {:induction false} StepsBack(k: int, step: int)
    requires k >= 0 && step > 0
    ensures -k * step == -(k * step) <= 0
    ensures (k - 1) * step == k * step - step
  {
    if k > 0 {
      assert k * step >= 0;
    }
  }

  lemma {:induction false} OldestExistsIff(d: Date, months: int)
    requires Valid(d) && months <= 0
    ensures AddMonths(d, months).Ok? <==> MonthIndex(d) + months >= 12 * MIN_YEAR
  {
  }

  lemma {:induction false} SeriesExtends(oldest: Moment, rest: seq<Moment>, last: int, step: int)
    requires IsMonthStart(oldest) && IsSeries(rest, last, step)
    requires if rest == [] then MonthIndex(oldest.date) == last
             else MonthIndex(rest[0].date) == MonthIndex(oldest.date) + step
    ensures IsSeries([oldest] + rest, last, step)
  {
  }

  lemma {:induction false} YearStartsAreSeries(n: int, m: Moment)
    ensures TrailingYearStarts(n, m).Ok? ==>
              var starts := TrailingYearStarts(n, m).value;
              && |starts| == (if n > 0 then n else 0) && IsSeries(starts, 12 * m.date.year, 12)
              && (n > 0 ==> starts[0].date == Date(m.date.year - (n - 1), 1, 1))
    decreases n
  {
    if n > 0 {
      YearStartsAreSeries(n - 1, m);
    }
  }

  /** All three trailing series are n consecutive periods ending with the current one. */
  lemma {:induction false} TrailingSeries(n: int, m: Moment)
    requires ValidMoment(m) && n >= 0
    ensures TrailingMonthStarts(n, m).Ok? ==>
              var starts := TrailingMonthStarts(n, m).value;
              |starts| == n && IsSeries(starts, MonthIndex(PeriodStart(CurrentMonth, m.date)), 1)
    ensures TrailingQuarterStarts(n, m).Ok? ==>
              var starts := TrailingQuarterStarts(n, m).value;
              |starts| == n && IsSeries(starts, MonthIndex(PeriodStart(CurrentQuarter, m.date)), 3)
    ensures TrailingYearStarts(n, m).Ok? ==>
              var starts := TrailingYearStarts(n, m).value;
              |starts| == n && IsSeries(starts, MonthIndex(PeriodStart(CurrentYear, m.date)), 12)
  {
    StartsBackIsSeries(MonthStart(m.date), n, 1);
    StartsBackIsSeries(QuarterStart(m.date), n, 3);
    YearStartsAreSeries(n, m);
  }

  /** The instants at which the periods of a series begin. */
  function Instants(starts: seq<Moment>): (times: seq<int>)
    requires forall i :: 0 <= i < |starts| ==> 1 <= starts[i].date.month <= 12
    ensures |times| == |starts| && forall i :: 0 <= i < |starts| ==> times[i] == Instant(starts[i])
  {
    seq(|starts|, i requires 0 <= i < |starts| => Instant(starts[i]))
  }

  /** The j-th period runs from its start to the next start, or to the end of the current period. */
  predicate InPeriod(times: seq<int>, end: int, j: nat, x: int)
    requires j < |times|
  {
    times[j] <= x < if j + 1 < |times| then times[j + 1] else end
  }

  /** The starts of a series strictly increase, in months and therefore in time. */
  lemma {:induction false} SeriesIncreases(starts: seq<Moment>, last: int, step: int, i: nat, j: nat)
    requires IsSeries(starts, last, step) && step > 0 && i < j < |starts|
    ensures MonthIndex(starts[i].date) + step <= MonthIndex(starts[j].date)
    ensures Instant(starts[i]) < Instant(starts[j])
    decreases j - i
  {
    if i + 1 < j {
      SeriesIncreases(starts, last, step, i + 1, j);
    }
    FirstsIncrease(starts[i].date, starts[j].date);
  }

  ghost predicate InOrder(times: seq<int>) {
    forall i, j :: 0 <= i < j < |times| ==> times[i] < times[j]
  }

  lemma {:induction false} SeriesInOrder(starts: seq<Moment>, last: int, step: int)
    requires IsSeries(starts, last, step) && step > 0
    ensures InOrder(Instants(starts))
  {
    var times := Instants(starts);
    forall i, j | 0 <= i < j < |times|
      ensures times[i] < times[j]
    {
      SeriesIncreases(starts, last, step, i, j);
    }
  }

  /** No instant lies in two periods. */
  lemma {:induction false} PeriodsDisjoint(times: seq<int>, end: int, x: int, i: nat, j: nat)
    requires InOrder(times) && i < j < |times|
    ensures !(InPeriod(times, end, i, x) && InPeriod(times, end, j, x))
  {
    assert times[i + 1] <= times[j];
  }

  lemma {:induction false} PeriodOf(times: seq<int>, end: int, x: int, from: nat) returns (j: nat)
    requires from < |times| && times[from] <= x < end
    ensures j < |times| && InPeriod(times, end, j, x)
    decreases |times| - from
  {
    if from + 1 < |times| && times[from + 1] <= x {
      j := PeriodOf(times, end, x, from + 1);
    } else {
      j := from;
    }
  }

  /**
   A series tiles time: an instant from its first start up to the end of the current period lies in
   exactly one of its periods.
   */
  lemma {:induction false} SeriesTilesTime(starts: seq<Moment>, last: int, step: int, end: Moment, x: Moment) returns (j: nat)
    requires IsSeries(starts, last, step) && step > 0 && starts != [] && ValidMoment(x)
    requires IsMonthStart(end) && MonthIndex(end.date) == last + step
    requires Instant(starts[0]) <= Instant(x) < Instant(end)
    ensures j < |starts| && InPeriod(Instants(starts), Instant(end), j, Instant(x))
    ensures forall i: nat :: i < |starts| && InPeriod(Instants(starts), Instant(end), i, Instant(x)) ==> i == j
  {
    SeriesInOrder(starts, last, step);
    j := PeriodOf(Instants(starts), Instant(end), Instant(x), 0);
    forall i: nat | i < |starts| && i != j
      ensures !InPeriod(Instants(starts), Instant(end), i, Instant(x))
    {
      PeriodsDisjoint(Instants(starts), Instant(end), Instant(x), if i < j then i else j, if i < j then j else i);
    }
  }
}

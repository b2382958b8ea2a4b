/**
 Dates of the proleptic Gregorian calendar as `datetime.date` knows them, and the linear count of
 days and microseconds that orders them.
 */
module Calendar {
  import opened Wrappers

  /** Python raises when a date would leave the years 1 to 9999. */
  datatype DateError = OutOfRange

  datatype Date = Date(year: int, month: int, day: int)

  const MIN_YEAR := 1
  const MAX_YEAR := 9999
  const MONTH_LENGTHS := [31, 28, 31, 30, 31, 30, 31, 31, 30, 31, 30, 31]
  const DAYS_BEFORE_MONTH := [0, 31, 59, 90, 120, 151, 181, 212, 243, 273, 304, 334]

  predicate IsLeap(year: int) {
    year % 4 == 0 && (year % 100 != 0 || year % 400 == 0)
  }

  function LeapDay(year: int): int {
    if IsLeap(year) then 1 else 0
  }

  function DaysInMonth(year: int, month: int): (n: int)
    requires 1 <= month <= 12
    ensures 28 <= n <= 31
  {
    MONTH_LENGTHS[month - 1] + if month == 2 then LeapDay(year) else 0
  }

  predicate Valid(d: Date) {
    MIN_YEAR <= d.year <= MAX_YEAR && 1 <= d.month <= 12 && 1 <= d.day <= DaysInMonth(d.year, d.month)
  }

  /** Days from 1 January of year 1 to 1 January of the given year, counting backwards before year 1. */
  function DaysBeforeYear(year: int): (days: int)
    ensures year >= 1 ==> days >= 365 * (year - 1)
    decreases if year >= 1 then year else 2 - year
  {
    if year == 1 then 0
    else if year > 1 then DaysBeforeYear(year - 1) + 365 + LeapDay(year - 1)
    else DaysBeforeYear(year + 1) - 365 - LeapDay(year)
  }

  function DaysBeforeMonth(year: int, month: int): int
    requires 1 <= month <= 12
  {
    DAYS_BEFORE_MONTH[month - 1] + if month > 2 then LeapDay(year) else 0
  }

  /** `date.toordinal()` */
  function DayNumber(d: Date): int
    requires 1 <= d.month <= 12
  {
    DaysBeforeYear(d.year) + DaysBeforeMonth(d.year, d.month) + d.day
  }

  /** Thirty days have April, June, September and November; February has 29 in leap years and else 28. */
  lemma {:induction false} MonthLengthsAre(year: int, month: int)
    requires 1 <= month <= 12
    ensures DaysInMonth(year, month)
         == if month == 2 then (if (year % 4 == 0 && year % 100 != 0) || year % 400 == 0 then 29 else 28)
            else if month in {4, 6, 9, 11} then 30 else 31
  {
    MultiplesNest(year);
    LeapIff(year, year % 4 == 0, year % 100 == 0, year % 400 == 0);
  }

  lemma {:induction false} LeapIff(year: int, four: bool, hundred: bool, fourHundred: bool)
    requires (four <==> year % 4 == 0) && (hundred <==> year % 100 == 0) && (fourHundred <==> year % 400 == 0)
    requires fourHundred ==> hundred && four
    ensures IsLeap(year) <==> (four && !hundred) || fourHundred
  {
  }

  /** The days before a year, counted by leap years: every fourth, no hundredth, every four-hundredth. */
  lemma {:induction false} DaysBeforeYearAre(year: int)
    requires year >= 1
    ensures var y := year - 1; DaysBeforeYear(year) == 365 * y + y / 4 - y / 100 + y / 400
  {
    if year > 1 {
      DaysBeforeYearAre(year - 1);
      LeapDayCounts(year - 1);
    }
  }

  lemma {:induction false} LeapDayCounts(y: int)
    requires y >= 1
    ensures LeapDay(y) == (y / 4 - y / 100 + y / 400) - ((y - 1) / 4 - (y - 1) / 100 + (y - 1) / 400)
  {
    var fours, hundreds, fourHundreds := y / 4 - (y - 1) / 4, y / 100 - (y - 1) / 100, y / 400 - (y - 1) / 400;
    MultiplesStep(y, 4);
    MultiplesStep(y, 100);
    MultiplesStep(y, 400);
    LeapFromMultiples(y, fours, hundreds, fourHundreds);
  }

  lemma {:induction false} LeapFromMultiples(y: int, fours: int, hundreds: int, fourHundreds: int)
    requires fours == (if y % 4 == 0 then 1 else 0) && hundreds == (if y % 100 == 0 then 1 else 0)
    requires fourHundreds == if y % 400 == 0 then 1 else 0
    ensures LeapDay(y) == fours - hundreds + fourHundreds
  {
    MultiplesNest(y);
  }

  lemma {:induction false} MultiplesNest(y: int)
    ensures y % 400 == 0 ==> y % 100 == 0
    ensures y % 100 == 0 ==> y % 4 == 0
  {
    if y % 400 == 0 {
      HundredTimes(y, 4 * (y / 400));
    }
    if y % 100 == 0 {
      FourTimes(y, 25 * (y / 100));
    }
  }

  lemma {:induction false} HundredTimes(y: int, n: int)
    requires y == 100 * n
    ensures y % 100 == 0
  {
  }

  lemma {:induction false} FourTimes(y: int, n: int)
    requires y == 4 * n
    ensures y % 4 == 0
  {
  }

  lemma {:induction false} MultiplesStep(y: int, n: int)
    requires n in {4, 100, 400}
    ensures y / n - (y - 1) / n == if y % n == 0 then 1 else 0
  {
  }

  /** A year begins the day after those before it; `date(1, 1, 1).toordinal()` is 1. */
  lemma {:induction false} YearBegins(first: Date, day: int)
    requires first.month == first.day == 1 && first.year >= 1 && day == DayNumber(first)
    ensures var y := first.year - 1; day == 365 * y + y / 4 - y / 100 + y / 400 + 1
  {
    DaysBeforeYearAre(first.year);
  }

  // ---------------------------------------------------------------- months as integers

  /** Months numbered along the whole time line. */
  function MonthIndex(d: Date): int {
    12 * d.year + d.month - 1
  }

  /** The first day of some month, in any year. */
  predicate IsFirst(d: Date) {
    1 <= d.month <= 12 && d.day == 1
  }

  function NextFirst(d: Date): (next: Date)
    requires IsFirst(d)
    ensures IsFirst(next) && MonthIndex(next) == MonthIndex(d) + 1
  {
    if d.month == 12 then Date(d.year + 1, 1, 1) else Date(d.year, d.month + 1, 1)
  }

  lemma {:induction false} YearStep(year: int)
    ensures DaysBeforeYear(year + 1) == DaysBeforeYear(year) + 365 + LeapDay(year)
  {
  }

  lemma {:induction false} MonthLengthsAddUp(year: int, month: int)
    requires 1 <= month < 12
    ensures DaysBeforeMonth(year, month + 1) == DaysBeforeMonth(year, month) + DaysInMonth(year, month)
  {
  }

  lemma {:induction false} DecemberStep(year: int, december: Date, january: Date)
    requires december == Date(year, 12, 1) && january == Date(year + 1, 1, 1)
    ensures DayNumber(january) == DayNumber(december) + DaysInMonth(year, 12)
  {
    YearStep(year);
  }

  lemma {:induction false} WithinYearStep(d: Date, next: Date)
    requires 1 <= d.month < 12 && d == Date(d.year, d.month, 1) && next == Date(d.year, d.month + 1, 1)
    ensures DayNumber(next) == DayNumber(d) + DaysInMonth(d.year, d.month)
  {
    MonthLengthsAddUp(d.year, d.month);
  }

  /** Month starts are one month length apart, across year ends too. */
  lemma {:induction false} MonthStep(d: Date)
    requires IsFirst(d)
    ensures DayNumber(NextFirst(d)) == DayNumber(d) + DaysInMonth(d.year, d.month)
  {
    if d.month == 12 {
      DecemberStep(d.year, d, NextFirst(d));
    } else {
      WithinYearStep(d, NextFirst(d));
    }
  }

  /** Month starts are in the order of their month numbers. */
  lemma {:induction false} FirstsIncrease(a: Date, b: Date)
    requires IsFirst(a) && IsFirst(b) && MonthIndex(a) <= MonthIndex(b)
    ensures DayNumber(a) <= DayNumber(b)
    ensures MonthIndex(a) < MonthIndex(b) ==> DayNumber(a) < DayNumber(b)
    decreases MonthIndex(b) - MonthIndex(a)
  {
    if MonthIndex(a) < MonthIndex(b) {
      MonthStep(a);
      FirstsIncrease(NextFirst(a), b);
    }
  }

  /** A day has reached a month's start exactly when its own month has. */
  lemma {:induction false} DayReachesMonth(d: Date, first: Date)
    requires Valid(d) && IsFirst(first)
    ensures DayNumber(first) <= DayNumber(d) <==> MonthIndex(first) <= MonthIndex(d)
  {
    var own := d.(day := 1);
    if MonthIndex(first) <= MonthIndex(d) {
      FirstsIncrease(first, own);
    } else {
      MonthStep(own);
      FirstsIncrease(NextFirst(own), first);
    }
  }

  // ---------------------------------------------------------------- moving by months and days

  function MakeDate(year: int, month: int, day: int): (r: Result<Date, DateError>)
    requires 1 <= month <= 12 && 1 <= day <= 28
    ensures r.Ok? <==> MIN_YEAR <= year <= MAX_YEAR
    ensures r.Ok? ==> Valid(r.value)
  {
    if MIN_YEAR <= year <= MAX_YEAR then Ok(Date(year, month, day)) else Err(OutOfRange)
  }

  /** `_add_months`: the first of the month that many months away. */
  function AddMonths(d: Date, months: int): (r: Result<Date, DateError>)
    ensures r.Ok? <==> 12 * MIN_YEAR <= MonthIndex(d) + months < 12 * (MAX_YEAR + 1)
    ensures r.Ok? ==> Valid(r.value) && IsFirst(r.value) && MonthIndex(r.value) == MonthIndex(d) + months
  {
    var monthIndex := d.month - 1 + months;
    MakeDate(d.year + monthIndex / 12, monthIndex % 12 + 1, 1)
  }

  lemma {:induction false} SameFirst(a: Date, b: Date)
    requires IsFirst(a) && IsFirst(b) && MonthIndex(a) == MonthIndex(b)
    ensures a == b
  {
  }

  /** Adding a months and then b months is adding a + b months, negative counts included. */
  lemma {:induction false} AddMonthsComposes(d: Date, a: int, b: int)
    requires AddMonths(d, a).Ok?
    ensures AddMonths(AddMonths(d, a).value, b) == AddMonths(d, a + b)
  {
    var mid := AddMonths(d, a).value;
    var far, direct := AddMonths(mid, b), AddMonths(d, a + b);
    if far.Ok? {
      SameFirst(far.value, direct.value);
    }
  }

  function DayBefore(d: Date): (r: Result<Date, DateError>)
    requires Valid(d)
  {
    if d.day > 1 then Ok(d.(day := d.day - 1))
    else if d.month > 1 then Ok(Date(d.year, d.month - 1, DaysInMonth(d.year, d.month - 1)))
    else if d.year > MIN_YEAR then Ok(Date(d.year - 1, 12, 31))
    else Err(OutOfRange)
  }

  function DayAfter(d: Date): (r: Result<Date, DateError>)
    requires Valid(d)
  {
    if d.day < DaysInMonth(d.year, d.month) then Ok(d.(day := d.day + 1))
    else if d.month < 12 then Ok(Date(d.year, d.month + 1, 1))
    else MakeDate(d.year + 1, 1, 1)
  }

  lemma {:induction false} DayBeforeIsOneLess(d: Date)
    requires Valid(d)
    ensures DayBefore(d).Ok? <==> DayNumber(d) > 1
    ensures DayBefore(d).Ok? ==> Valid(DayBefore(d).value) && DayNumber(DayBefore(d).value) == DayNumber(d) - 1
  {
    DayNumberPositive(d);
    if d.day == 1 && DayBefore(d).Ok? {
      FirstAfterItsEve(d);
    }
  }

  /** A first of the month comes one day after the last day of the month before. */
  lemma {:induction false} FirstAfterItsEve(first: Date)
    requires Valid(first) && first.day == 1 && DayBefore(first).Ok?
    ensures Valid(DayBefore(first).value) && DayNumber(DayBefore(first).value) == DayNumber(first) - 1
  {
    var before := if first.month == 1 then Date(first.year - 1, 12, 1) else Date(first.year, first.month - 1, 1);
    MonthStep(before);
    LastOfMonth(before, DayBefore(first).value);
    assert NextFirst(before) == first;
  }

  lemma {:induction false} LastOfMonth(first: Date, last: Date)
    requires IsFirst(first) && last == first.(day := DaysInMonth(first.year, first.month))
    ensures DayNumber(last) == DayNumber(first) + DaysInMonth(first.year, first.month) - 1
  {
  }

  lemma {:induction false} DayAfterIsOneMore(d: Date)
    requires Valid(d) && DayAfter(d).Ok?
    ensures Valid(DayAfter(d).value) && DayNumber(DayAfter(d).value) == DayNumber(d) + 1
  {
    if d.day == DaysInMonth(d.year, d.month) {
      var first := d.(day := 1);
      MonthStep(first);
      LastOfMonth(first, d);
      assert DayAfter(d).value == NextFirst(first);
    } else {
      WithinMonth(d, DayAfter(d).value);
    }
  }

  lemma {:induction false} WithinMonth(d: Date, next: Date)
    requires 1 <= d.month <= 12 && next == d.(day := d.day + 1)
    ensures DayNumber(next) == DayNumber(d) + 1
  {
  }

  lemma {:induction false} DayNumberPositive(d: Date)
    requires Valid(d)
    ensures DayNumber(d) >= 1
    ensures d.year > 1 ==> DayNumber(d) > 365
  {
  }

  /** Different dates have different day numbers. */
  lemma {:induction false} SameDayNumber(a: Date, b: Date)
    requires Valid(a) && Valid(b) && DayNumber(a) == DayNumber(b)
    ensures a == b
  {
    DayReachesMonth(a, Date(b.year, b.month, 1));
    DayReachesMonth(b, Date(a.year, a.month, 1));
    SameFirst(Date(a.year, a.month, 1), Date(b.year, b.month, 1));
  }

  /** `d - timedelta(days=n)` */
  function MinusDays(d: Date, n: nat): (r: Result<Date, DateError>)
    requires Valid(d)
    ensures r.Ok? <==> DayNumber(d) - n >= 1
    ensures r.Ok? ==> Valid(r.value) && DayNumber(r.value) == DayNumber(d) - n
    decreases n
  {
    DayBeforeIsOneLess(d);
    DayNumberPositive(d);
    if n == 0 then Ok(d)
    else
      var previous :- DayBefore(d);
      MinusDays(previous, n - 1)
  }

  // ---------------------------------------------------------------- moments

  const TICKS_PER_DAY := 86400000000

  /** A UTC datetime: a date and the microseconds since its midnight. */
  datatype Moment = Moment(date: Date, tick: int)

  predicate ValidMoment(m: Moment) {
    Valid(m.date) && 0 <= m.tick < TICKS_PER_DAY
  }

  function Instant(m: Moment): int
    requires 1 <= m.date.month <= 12
  {
    DayNumber(m.date) * TICKS_PER_DAY + m.tick
  }

  /** `_utc_midnight` */
  function Midnight(d: Date): Moment {
    Moment(d, 0)
  }

  /** A moment has reached a month's start exactly when its own month has. */
  lemma {:induction false} MomentReachesMonth(m: Moment, first: Date)
    requires ValidMoment(m) && IsFirst(first)
    ensures Instant(Midnight(first)) <= Instant(m) <==> MonthIndex(first) <= MonthIndex(m.date)
  {
    DayReachesMonth(m.date, first);
    WholeDays(DayNumber(first), DayNumber(m.date), m.tick);
  }

  lemma {:induction false} WholeDays(a: int, b: int, tick: int)
    requires 0 <= tick < TICKS_PER_DAY
    ensures a * TICKS_PER_DAY <= b * TICKS_PER_DAY + tick <==> a <= b
  {
  }
}

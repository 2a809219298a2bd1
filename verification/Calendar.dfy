/** The proleptic Gregorian calendar the schedule and the listing parser rely on.

    Days carry their rata die number (1 January of year 1 is day 1, a Monday), so day numbers
    divisible by 7 are Sundays.  Months are numbered `12 * year + (month - 1)`, which makes
    Go's `AddDate(0, m, 0)` an addition followed by the usual overflow into later days. */
module Calendar {

  const DAY: int := 86_400_000_000_000  // nanoseconds in a day without clock changes

  datatype Date = Date(month: int, day: int) {
    predicate Valid() {
      1 <= day <= MonthLength(month)
    }

    function Number(): int {
      MonthStart(month) + day - 1
    }

    function Year(): int {
      month / 12
    }
  }

  predicate IsLeap(year: int) {
    year % 4 == 0 && (year % 100 != 0 || year % 400 == 0)
  }

  // `m` counts months from January (0) to December (11).
  function LengthInYear(m: int, leap: bool): int {
    if m == 1 then (if leap then 29 else 28)
    else if m == 3 || m == 5 || m == 8 || m == 10 then 30
    else 31
  }

  function MonthLength(month: int): int {
    LengthInYear(month % 12, IsLeap(month / 12))
  }

  const EPOCH_MONTH := 12  // January of year 1

  // The number of the first day of a month: months tile the calendar.
  function MonthStart(month: int): int
    decreases if month < EPOCH_MONTH then EPOCH_MONTH - month else month - EPOCH_MONTH
  {
    if month == EPOCH_MONTH then 1
    else if month > EPOCH_MONTH then MonthStart(month - 1) + MonthLength(month - 1)
    else MonthStart(month + 1) - MonthLength(month)
  }

  predicate IsSunday(day: int) {
    day % 7 == 0
  }

  function DayOf(instant: int): int {
    instant / DAY
  }

  // Go's time.Date and AddDate: months overflow into years, then days count from the month's first.
  function AddMonths(d: Date, months: int): int {
    MonthStart(d.month + months) + d.day - 1
  }

  lemma NextMonth(month: int)
    ensures MonthStart(month + 1) == MonthStart(month) + MonthLength(month)
    ensures 28 <= MonthLength(month) <= 31
  {
  }

  // `n` months last at least 28 * n days: the bound that lets weekly copies go first.
  lemma {:induction false} MonthsLast(month: int, n: nat)
    ensures MonthStart(month) + 28 * n <= MonthStart(month + n) <= MonthStart(month) + 31 * n
    decreases n
  {
    hide MonthStart, MonthLength;
    if n > 0 {
      MonthsLast(month, n - 1);
      NextMonth(month + n - 1);
    }
  }

  lemma MonthStartMonotone(a: int, b: int)
    ensures a < b <==> MonthStart(a) < MonthStart(b)
    ensures a < b ==> MonthStart(a) + 28 <= MonthStart(b)
  {
    hide MonthStart;
    if a < b {
      MonthsLast(a, b - a);
    } else if b < a {
      MonthsLast(b, a - b);
    }
  }

  // Day numbers identify dates, and order them month by month.
  lemma DateOrder(a: Date, b: Date)
    requires a.Valid() && b.Valid()
    ensures a.Number() < b.Number() <==> a.month < b.month || (a.month == b.month && a.day < b.day)
    ensures a.Number() == b.Number() <==> a == b
  {
    hide MonthStart, MonthLength;
    NextMonth(a.month);
    NextMonth(b.month);
    if a.month < b.month {
      MonthStartMonotone(a.month + 1, b.month);
      assert a.month + 1 == b.month || a.month + 1 < b.month;
    } else if b.month < a.month {
      MonthStartMonotone(b.month + 1, a.month);
      assert b.month + 1 == a.month || b.month + 1 < a.month;
    }
  }

  // The usual closed form, used to place concrete dates.
  function DaysBeforeYear(year: int): int {
    var y := year - 1;
    365 * y + y / 4 - y / 100 + y / 400
  }

  lemma FirstYear()
    ensures DaysBeforeYear(1) == 0
  {
  }

  lemma FourthYears(y: int)
    ensures (y + 1) / 4 == y / 4 + (if (y + 1) % 4 == 0 then 1 else 0)
  {
  }

  lemma Centuries(y: int)
    ensures (y + 1) / 100 == y / 100 + (if (y + 1) % 100 == 0 then 1 else 0)
  {
  }

  lemma FourthCenturies(y: int)
    ensures (y + 1) / 400 == y / 400 + (if (y + 1) % 400 == 0 then 1 else 0)
  {
  }

  lemma FourTimes(k: int)
    ensures 4 * k % 4 == 0
  {
  }

  lemma HundredTimes(k: int)
    ensures 100 * k % 100 == 0
  {
  }

  lemma LeapCycles(year: int)
    ensures year % 100 == 0 ==> year % 4 == 0
    ensures year % 400 == 0 ==> year % 100 == 0
  {
    var century, cycle := year / 100, year / 400;
    assert year == 100 * century + year % 100 && year == 400 * cycle + year % 400;
    FourTimes(25 * century);
    HundredTimes(4 * cycle);
  }

  lemma YearLength(year: int)
    ensures DaysBeforeYear(year + 1) == DaysBeforeYear(year) + (if IsLeap(year) then 366 else 365)
  {
    FourthYears(year - 1);
    Centuries(year - 1);
    FourthCenturies(year - 1);
    LeapCycles(year);
  }

  lemma LengthOf(year: int, m: int)
    requires 0 <= m < 12
    ensures MonthLength(12 * year + m) == LengthInYear(m, IsLeap(year))
  {
    assert (12 * year + m) / 12 == year && (12 * year + m) % 12 == m;
  }

  lemma {:induction false} MonthsInYear(year: int, m: nat)
    requires m <= 12
    ensures MonthStart(12 * year + m) == MonthStart(12 * year) + DaysBeforeMonth(m, IsLeap(year))
  {
    hide MonthStart, MonthLength, IsLeap;
    if m > 0 {
      MonthsInYear(year, m - 1);
      NextMonth(12 * year + m - 1);
      LengthOf(year, m - 1);
    }
  }

  // The table of cumulative month lengths, with the leap day counted from March on.
  function DaysBeforeMonth(m: int, leap: bool): int {
    (if m <= 0 then 0 else if m == 1 then 31 else if m == 2 then 59 else if m == 3 then 90
     else if m == 4 then 120 else if m == 5 then 151 else if m == 6 then 181
     else if m == 7 then 212 else if m == 8 then 243 else if m == 9 then 273
     else if m == 10 then 304 else if m == 11 then 334 else 365)
    + (if leap && m >= 2 then 1 else 0)
  }

  lemma {:induction false} JanuaryFirst(year: int)
    requires year >= 1
    ensures MonthStart(12 * year) == DaysBeforeYear(year) + 1
    decreases year
  {
    hide DaysBeforeYear;
    if year == 1 {
      FirstYear();
    } else {
      hide MonthStart;
      JanuaryFirst(year - 1);
      MonthsInYear(year - 1, 12);
      YearLength(year - 1);
    }
  }

  /* ---- The calendar repeats ---- */

  const CYCLE_MONTHS := 4800  // four hundred years
  const CYCLE_DAYS := 146_097

  lemma CycleLength(month: int)
    ensures MonthLength(month + CYCLE_MONTHS) == MonthLength(month)
  {
    assert (month + CYCLE_MONTHS) % 12 == month % 12 && (month + CYCLE_MONTHS) / 12 == month / 12 + 400;
    CycleLeap(month / 12);
  }

  lemma CycleLeap(year: int)
    ensures IsLeap(year + 400) == IsLeap(year)
  {
  }

  lemma FirstCycle()
    ensures MonthStart(EPOCH_MONTH + CYCLE_MONTHS) == MonthStart(EPOCH_MONTH) + CYCLE_DAYS
  {
    hide MonthStart;
    JanuaryFirst(1);
    JanuaryFirst(401);
  }

  // Four hundred years are a whole number of weeks: dates fall on the same weekdays again.
  lemma {:induction false} Cycle(month: int)
    ensures MonthStart(month + CYCLE_MONTHS) == MonthStart(month) + CYCLE_DAYS
    ensures IsSunday(MonthStart(month + CYCLE_MONTHS)) <==> IsSunday(MonthStart(month))
    decreases if month < EPOCH_MONTH then EPOCH_MONTH - month else month - EPOCH_MONTH
  {
    hide MonthStart, MonthLength;
    if month == EPOCH_MONTH {
      FirstCycle();
    } else if month > EPOCH_MONTH {
      Cycle(month - 1);
      CycleLength(month - 1);
      NextMonth(month - 1);
      NextMonth(month + CYCLE_MONTHS - 1);
    } else {
      Cycle(month + 1);
      CycleLength(month);
      NextMonth(month);
      NextMonth(month + CYCLE_MONTHS);
    }
  }
}

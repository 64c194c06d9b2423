/**
 The proleptic Gregorian calendar the program's dates and times live in: dates as day numbers, counted
 from the first day of year 1, and instants as calendar fields in UTC.
 */
module Calendar {
  import opened Common
  import opened Arithmetic

  datatype Date = Date(year: nat, month: nat, day: nat)
  datatype DateTime = DateTime(date: Date, hour: nat, minute: nat, second: nat, microsecond: nat)

  predicate Leap(year: nat) {
    year % 4 == 0 && (year % 100 != 0 || year % 400 == 0)
  }

  function DaysIn(year: nat, month: nat): nat {
    if month == 2 then (if Leap(year) then 29 else 28)
    else if month in {4, 6, 9, 11} then 30 else 31
  }

  predicate DateValid(d: Date) {
    1 <= d.year <= 9999 && OnCalendar(d)
  }

  predicate OnCalendar(d: Date) {
    1 <= d.year && 1 <= d.month <= 12 && 1 <= d.day <= DaysIn(d.year, d.month)
  }

  predicate DateTimeValid(t: DateTime) {
    DateValid(t.date) && t.hour < 24 && t.minute < 60 && t.second < 60 && t.microsecond < SECOND
  }

  // ---- Days --------------------------------------------------------------------------------

  function DaysBeforeYear(year: nat): int
    requires year >= 1
  {
    365 * (year - 1) + (year - 1) / 4 - (year - 1) / 100 + (year - 1) / 400
  }

  function DaysBeforeMonth(year: nat, month: nat): nat {
    if month <= 1 then 0 else DaysBeforeMonth(year, month - 1) + DaysIn(year, month - 1)
  }

  /** The number of a day; the first day of year 1 is day 1. */
  function OrdinalOf(d: Date): int
    requires d.year >= 1
  {
    DaysBeforeYear(d.year) + DaysBeforeMonth(d.year, d.month) + d.day
  }

  function NextDay(d: Date): Date {
    if d.day < DaysIn(d.year, d.month) then d.(day := d.day + 1)
    else if d.month < 12 then Date(d.year, d.month + 1, 1)
    else Date(d.year + 1, 1, 1)
  }

  /** The date with a given number. */
  ghost function DateAt(n: int): Date
    requires n >= 1
    decreases n
  {
    if n == 1 then Date(1, 1, 1) else NextDay(DateAt(n - 1))
  }

  const LAST_DAY := 3_652_059

  lemma NextMultiple(n: nat, k: nat)
    requires k > 0
    ensures (n + 1) / k == n / k + (if (n + 1) % k == 0 then 1 else 0)
  {
    DivModFacts(n, k);
    if n % k == k - 1 {
      MulDistributes(n / k, 1, k);
      DivModUnique(n + 1, k, n / k + 1, 0);
    } else {
      DivModUnique(n + 1, k, n / k, n % k + 1);
    }
  }

  lemma YearLength(year: nat)
    requires year >= 1
    ensures DaysBeforeYear(year + 1) == DaysBeforeYear(year) + (if Leap(year) then 366 else 365)
  {
    NextMultiple(year - 1, 4);
    NextMultiple(year - 1, 100);
    NextMultiple(year - 1, 400);
    CenturiesAreFourth(year);
  }

  lemma CenturiesAreFourth(year: nat)
    ensures year % 400 == 0 ==> year % 100 == 0
    ensures year % 100 == 0 ==> year % 4 == 0
  {
    DivModFacts(year, 400);
    DivModFacts(year, 100);
    if year % 400 == 0 {
      DivModUnique(year, 100, 4 * (year / 400), 0);
    }
    if year % 100 == 0 {
      DivModUnique(year, 4, 25 * (year / 100), 0);
    }
  }

  lemma MonthsAddUp(year: nat)
    ensures DaysBeforeMonth(year, 12) + 31 == if Leap(year) then 366 else 365
  {
    var february := DaysIn(year, 2);
    assert DaysBeforeMonth(year, 2) == DaysBeforeMonth(year, 1) + 31 == 31;
    assert DaysBeforeMonth(year, 3) == 31 + february;
    assert DaysBeforeMonth(year, 4) == 62 + february;
    assert DaysBeforeMonth(year, 5) == 92 + february;
    assert DaysBeforeMonth(year, 6) == 123 + february;
    assert DaysBeforeMonth(year, 7) == 153 + february;
    assert DaysBeforeMonth(year, 8) == 184 + february;
    assert DaysBeforeMonth(year, 9) == 215 + february;
    assert DaysBeforeMonth(year, 10) == 245 + february;
    assert DaysBeforeMonth(year, 11) == 276 + february;
  }

  lemma NextDayIsNext(d: Date)
    requires OnCalendar(d)
    ensures OnCalendar(NextDay(d)) && OrdinalOf(NextDay(d)) == OrdinalOf(d) + 1
  {
    if d.day == DaysIn(d.year, d.month) && d.month == 12 {
      YearLength(d.year);
      MonthsAddUp(d.year);
    }
  }

  lemma {:induction false} DateAtHasOrdinal(n: int)
    requires n >= 1
    ensures OnCalendar(DateAt(n)) && OrdinalOf(DateAt(n)) == n
    decreases n
  {
    if n > 1 {
      DateAtHasOrdinal(n - 1);
      NextDayIsNext(DateAt(n - 1));
    }
  }

  lemma LateYearsAreLate(d: Date)
    requires OnCalendar(d) && d.year > 9999
    ensures OrdinalOf(d) > LAST_DAY
  {
    assert DaysBeforeYear(10_000) == LAST_DAY;
  }

  /** The days of years 1 to 9999 are those numbered 1 to 3652059. */
  lemma DayNumbersAreExact(n: int)
    requires n >= 1
    ensures DateValid(DateAt(n)) <==> n <= LAST_DAY
  {
    DateAtHasOrdinal(n);
    var d := DateAt(n);
    if d.year > 9999 {
      LateYearsAreLate(d);
    } else {
      EarlyYearsAreEarly(d);
    }
  }

  lemma EarlyYearsAreEarly(d: Date)
    requires DateValid(d)
    ensures OrdinalOf(d) <= LAST_DAY
  {
    MonthsAddUp(d.year);
    MonthsGrow(d.year, d.month);
    YearLength(d.year);
    assert d.month == 12 || DaysBeforeMonth(d.year, d.month) + DaysIn(d.year, d.month) == DaysBeforeMonth(d.year, d.month + 1);
  }

  lemma {:induction false} MonthsGrow(year: nat, month: nat)
    requires 1 <= month <= 12
    ensures DaysBeforeMonth(year, month) <= DaysBeforeMonth(year, 12)
    ensures month < 12 ==> DaysBeforeMonth(year, month + 1) <= DaysBeforeMonth(year, 12)
    decreases 12 - month
  {
    if month < 12 {
      MonthsGrow(year, month + 1);
    }
  }

  // ---- Moments -----------------------------------------------------------------------------

  /** Seconds from the first moment of year 1 to the epoch. */
  const EPOCH_SECONDS: int := 62_135_596_800

  /** The instants of the calendar, year 1 to year 9999. */
  predicate InCalendar(t: Instant) {
    -EPOCH_SECONDS * SECOND <= t < 253_402_300_800 * SECOND
  }

  /** The calendar fields of an instant, in UTC. */
  ghost function MomentOf(t: Instant): DateTime
    requires InCalendar(t)
  {
    var since := t + EPOCH_SECONDS * SECOND;
    var inDay := since % DAY;
    var inHour := inDay % HOUR;
    var inMinute := inHour % MINUTE;
    DateTime(DateAt(since / DAY + 1), inDay / HOUR, inHour / MINUTE, inMinute / SECOND, inMinute % SECOND)
  }

  function InstantOf(m: DateTime): Instant
    requires m.date.year >= 1
  {
    (OrdinalOf(m.date) - 1) * DAY + m.hour * HOUR + m.minute * MINUTE + m.second * SECOND + m.microsecond - EPOCH_SECONDS * SECOND
  }

  lemma SplitsInto(n: int, unit: int, count: int)
    requires unit > 0 && 0 <= n < count * unit
    ensures 0 <= n / unit < count && 0 <= n % unit < unit && n == n / unit * unit + n % unit
  {
    DivModFacts(n, unit);
    MulIsStrict(n / unit, count, unit);
    if n / unit < 0 {
      MulIsMonotone(n / unit, -1, unit);
    }
  }

  lemma TimeOfDay(inDay: int)
    requires 0 <= inDay < DAY
    ensures var inHour := inDay % HOUR;
            var inMinute := inHour % MINUTE;
            && 0 <= inDay / HOUR < 24 && 0 <= inHour / MINUTE < 60 && 0 <= inMinute / SECOND < 60 && 0 <= inMinute % SECOND < SECOND
            && inDay == inDay / HOUR * HOUR + inHour / MINUTE * MINUTE + inMinute / SECOND * SECOND + inMinute % SECOND
  {
    SplitsInto(inDay, HOUR, 24);
    SplitsInto(inDay % HOUR, MINUTE, 60);
    SplitsInto(inDay % HOUR % MINUTE, SECOND, 60);
  }

  lemma DayOfInstant(since: int)
    requires 0 <= since < LAST_DAY * DAY
    ensures 0 <= since / DAY < LAST_DAY && 0 <= since % DAY < DAY && since == since / DAY * DAY + since % DAY
  {
    SplitsInto(since, DAY, LAST_DAY);
  }

  /** The fields of an instant are a valid date and time, and name that instant. */
  lemma MomentsAreExact(t: Instant)
    requires InCalendar(t)
    ensures DateTimeValid(MomentOf(t)) && InstantOf(MomentOf(t)) == t
  {
    var since := t + EPOCH_SECONDS * SECOND;
    DayOfInstant(since);
    TimeOfDay(since % DAY);
    var n := since / DAY + 1;
    DateAtHasOrdinal(n);
    DayNumbersAreExact(n);
    FieldsName(DateAt(n), n, MomentOf(t));
  }

  lemma FieldsName(d: Date, n: int, m: DateTime)
    requires OnCalendar(d) && OrdinalOf(d) == n && m.date == d
    ensures InstantOf(m)
            == (n - 1) * DAY + m.hour * HOUR + m.minute * MINUTE + m.second * SECOND + m.microsecond - EPOCH_SECONDS * SECOND
  {
  }
}

/** The proleptic Gregorian calendar in UTC, as the dates of src/time.rs count it: seconds on one side, calendar
    fields on the other. */
module Calendar {

  datatype DateTime = DateTime(year: nat, month: nat, day: nat, hour: nat, minute: nat, second: nat)

  const DAY: nat := 86400

  predicate IsLeap(year: nat) {
    year % 4 == 0 && (year % 100 != 0 || year % 400 == 0)
  }

  function YearLength(year: nat): nat {
    if IsLeap(year) then 366 else 365
  }

  function MonthLength(year: nat, month: nat): nat {
    if month == 2 then (if IsLeap(year) then 29 else 28)
    else if month == 4 || month == 6 || month == 9 || month == 11 then 30
    else 31
  }

  predicate IsDate(year: nat, month: nat, day: nat) {
    1 <= month <= 12 && 1 <= day <= MonthLength(year, month)
  }

  predicate IsTime(hour: nat, minute: nat, second: nat) {
    hour < 24 && minute < 60 && second < 60
  }

  predicate Valid(d: DateTime) {
    IsDate(d.year, d.month, d.day) && IsTime(d.hour, d.minute, d.second)
  }

  // ---------- fields to seconds ----------

  /** Days from 1 January of year 0 to 1 January of `year`. */
  function DaysBeforeYear(year: nat): nat {
    if year == 0 then 0 else DaysBeforeYear(year - 1) + YearLength(year - 1)
  }

  function DaysBeforeMonth(year: nat, month: nat): nat
    requires 1 <= month
  {
    if month == 1 then 0 else DaysBeforeMonth(year, month - 1) + MonthLength(year, month - 1)
  }

  function DayNumber(year: nat, month: nat, day: nat): nat
    requires 1 <= month && 1 <= day
  {
    DaysBeforeYear(year) + DaysBeforeMonth(year, month) + (day - 1)
  }

  function SecondOfDay(hour: nat, minute: nat, second: nat): nat {
    hour * 3600 + minute * 60 + second
  }

  /** Seconds from the start of year 0. */
  function Seconds(d: DateTime): nat
    requires Valid(d)
  {
    DayNumber(d.year, d.month, d.day) * DAY + SecondOfDay(d.hour, d.minute, d.second)
  }

  // ---------- seconds to fields ----------

  function YearOf(days: nat, year: nat): nat
    requires DaysBeforeYear(year) <= days
    decreases days - DaysBeforeYear(year)
  {
    if days < DaysBeforeYear(year + 1) then year else YearOf(days, year + 1)
  }

  function MonthOf(year: nat, days: nat, month: nat): nat
    requires 1 <= month <= 12
    decreases 12 - month
  {
    hide DaysBeforeMonth;
    if month == 12 || days < DaysBeforeMonth(year, month + 1) then month else MonthOf(year, days, month + 1)
  }

  function DateTimeOf(seconds: nat): DateTime {
    var days, rest := seconds / DAY, seconds % DAY;
    var year := YearOf(days, 0);
    YearFound(days, 0);
    var ofYear := days - DaysBeforeYear(year);
    var month := MonthOf(year, ofYear, 1);
    MonthFound(year, ofYear, 1);
    DateTime(year, month, ofYear - DaysBeforeMonth(year, month) + 1, rest / 3600, rest % 3600 / 60, rest % 60)
  }

  lemma {:induction false} YearFound(days: nat, year: nat)
    requires DaysBeforeYear(year) <= days
    ensures var y := YearOf(days, year);
            DaysBeforeYear(y) <= days < DaysBeforeYear(y + 1)
    decreases days - DaysBeforeYear(year)
  {
    if days < DaysBeforeYear(year + 1) {
    } else {
      YearFound(days, year + 1);
    }
  }

  lemma {:induction false} MonthFound(year: nat, days: nat, month: nat)
    requires 1 <= month <= 12 && DaysBeforeMonth(year, month) <= days
    ensures var m := MonthOf(year, days, month);
            && month <= m <= 12 && DaysBeforeMonth(year, m) <= days
            && (m < 12 ==> days < DaysBeforeMonth(year, m + 1))
    decreases 12 - month
  {
    hide DaysBeforeMonth;
    if month == 12 || days < DaysBeforeMonth(year, month + 1) {
    } else {
      MonthFound(year, days, month + 1);
    }
  }

  // ---------- one undoes the other ----------

  lemma YearIsItsMonths(year: nat)
    ensures DaysBeforeMonth(year, 12) + 31 == YearLength(year)
  {
    assert DaysBeforeMonth(year, 2) == 31;
    assert DaysBeforeMonth(year, 3) == 31 + MonthLength(year, 2);
    assert DaysBeforeMonth(year, 5) == DaysBeforeMonth(year, 3) + 31 + 30;
    assert DaysBeforeMonth(year, 7) == DaysBeforeMonth(year, 5) + 31 + 30;
    assert DaysBeforeMonth(year, 9) == DaysBeforeMonth(year, 7) + 31 + 31;
    assert DaysBeforeMonth(year, 11) == DaysBeforeMonth(year, 9) + 30 + 31;
    assert DaysBeforeMonth(year, 12) == DaysBeforeMonth(year, 11) + 30;
  }

  lemma {:induction false} YearsGrow(a: nat, b: nat)
    requires a <= b
    ensures DaysBeforeYear(a) <= DaysBeforeYear(b)
    decreases b - a
  {
    if a == b {
    } else {
      YearsGrow(a, b - 1);
    }
  }

  lemma {:induction false} MonthsGrow(year: nat, a: nat, b: nat)
    requires 1 <= a <= b
    ensures DaysBeforeMonth(year, a) <= DaysBeforeMonth(year, b)
    decreases b - a
  {
    if a == b {
    } else {
      MonthsGrow(year, a, b - 1);
    }
  }

  lemma SplitTime(rest: nat)
    requires rest < DAY
    ensures IsTime(rest / 3600, rest % 3600 / 60, rest % 60)
    ensures SecondOfDay(rest / 3600, rest % 3600 / 60, rest % 60) == rest
  {
  }

  /** Every number of seconds is that of its calendar fields. */
  lemma SecondsOfDateTime(seconds: nat)
    ensures Valid(DateTimeOf(seconds)) && Seconds(DateTimeOf(seconds)) == seconds
  {
    hide YearOf, MonthOf;
    var days, rest := seconds / DAY, seconds % DAY;
    var year := YearOf(days, 0);
    YearFound(days, 0);
    var ofYear := days - DaysBeforeYear(year);
    MonthFound(year, ofYear, 1);
    YearIsItsMonths(year);
    SplitTime(rest);
  }

  lemma YearUnique(days: nat, a: nat, b: nat)
    requires DaysBeforeYear(a) <= days < DaysBeforeYear(a + 1)
    requires DaysBeforeYear(b) <= days < DaysBeforeYear(b + 1)
    ensures a == b
  {
    if a < b {
      YearsGrow(a + 1, b);
    } else if b < a {
      YearsGrow(b + 1, a);
    }
  }

  lemma MonthUnique(year: nat, days: nat, a: nat, b: nat)
    requires 1 <= a <= 12 && 1 <= b <= 12
    requires DaysBeforeMonth(year, a) <= days && (a < 12 ==> days < DaysBeforeMonth(year, a + 1))
    requires DaysBeforeMonth(year, b) <= days && (b < 12 ==> days < DaysBeforeMonth(year, b + 1))
    ensures a == b
  {
    if a < b {
      MonthsGrow(year, a + 1, b);
    } else if b < a {
      MonthsGrow(year, b + 1, a);
    }
  }

  lemma TimeUnique(hour: nat, minute: nat, second: nat)
    requires IsTime(hour, minute, second)
    ensures var rest := SecondOfDay(hour, minute, second);
            rest < DAY && rest / 3600 == hour && rest % 3600 / 60 == minute && rest % 60 == second
  {
    var rest := SecondOfDay(hour, minute, second);
    assert rest == 3600 * hour + (60 * minute + second);
    assert 60 * minute + second < 3600;
  }

  lemma SplitDays(days: nat, rest: nat)
    requires rest < DAY
    ensures (days * DAY + rest) / DAY == days && (days * DAY + rest) % DAY == rest
  {
  }

  lemma DayInYear(year: nat, month: nat, day: nat)
    requires IsDate(year, month, day)
    ensures DaysBeforeMonth(year, month) + (day - 1) < YearLength(year)
    ensures month < 12 ==> DaysBeforeMonth(year, month) + (day - 1) < DaysBeforeMonth(year, month + 1)
  {
    YearIsItsMonths(year);
    if month < 12 {
      MonthsGrow(year, month + 1, 12);
    }
  }

  /** Every valid calendar date and time is that of its number of seconds. */
  lemma DateTimeOfSeconds(d: DateTime)
    requires Valid(d)
    ensures DateTimeOf(Seconds(d)) == d
  {
    hide YearOf, MonthOf, YearLength, MonthLength, DaysBeforeMonth, SecondOfDay;
    var days := DayNumber(d.year, d.month, d.day);
    var rest := SecondOfDay(d.hour, d.minute, d.second);
    TimeUnique(d.hour, d.minute, d.second);
    SplitDays(days, rest);
    YearFound(days, 0);
    DayInYear(d.year, d.month, d.day);
    YearUnique(days, d.year, YearOf(days, 0));
    var ofYear := days - DaysBeforeYear(d.year);
    assert DaysBeforeMonth(d.year, 1) == 0 by { FirstMonth(d.year); }
    MonthFound(d.year, ofYear, 1);
    MonthUnique(d.year, ofYear, d.month, MonthOf(d.year, ofYear, 1));
  }

  lemma FirstMonth(year: nat)
    ensures DaysBeforeMonth(year, 1) == 0
  {
  }

  // ---------- the epoch ----------

  /** Days from the start of year 0 to 1 January 1970. */
  const EPOCH_DAYS: nat := 719528
  const EPOCH: nat := EPOCH_DAYS * DAY

  function Count(condition: bool): nat {
    if condition then 1 else 0
  }

  lemma MultiplesOf4(year: nat)
    ensures (year + 4) / 4 == (year + 3) / 4 + Count(year % 4 == 0)
  {
  }

  lemma MultiplesOf100(year: nat)
    ensures (year + 100) / 100 == (year + 99) / 100 + Count(year % 100 == 0)
  {
  }

  lemma MultiplesOf400(year: nat)
    ensures (year + 400) / 400 == (year + 399) / 400 + Count(year % 400 == 0)
  {
  }

  lemma LeapDays(year: nat)
    ensures YearLength(year) == 365 + Count(year % 4 == 0) - Count(year % 100 == 0) + Count(year % 400 == 0)
  {
    assert year % 100 == 0 ==> year % 4 == 0;
    assert year % 400 == 0 ==> year % 100 == 0;
  }

  function ClosedForm(year: nat): int {
    365 * year + (year + 3) / 4 - (year + 99) / 100 + (year + 399) / 400
  }

  lemma OneYearMore(year: nat)
    ensures ClosedForm(year + 1) == ClosedForm(year) + YearLength(year)
  {
    hide YearLength;
    LeapDays(year);
    MultiplesOf4(year);
    MultiplesOf100(year);
    MultiplesOf400(year);
  }

  lemma {:induction false} DaysInClosedForm(year: nat)
    ensures DaysBeforeYear(year) == ClosedForm(year)
    decreases year
  {
    hide YearLength, ClosedForm;
    if year == 0 {
      assert ClosedForm(0) == 0 by { NoYears(); }
    } else {
      DaysInClosedForm(year - 1);
      OneYearMore(year - 1);
    }
  }

  lemma NoYears()
    ensures ClosedForm(0) == 0
  {
  }

  lemma DaysBeforeSeconds(days: nat, rest: nat, limit: nat)
    requires rest < DAY
    ensures days * DAY + rest < limit * DAY <==> days < limit
  {
  }

  lemma NewYear(year: nat, days: nat)
    requires days < YearLength(year)
    ensures DaysBeforeYear(year) + days < DaysBeforeYear(year + 1)
  {
    hide YearLength;
  }

  lemma DayBeforeEpoch(year: nat, days: nat, epoch: nat)
    requires days < YearLength(year) && epoch == 1970
    ensures DaysBeforeYear(year) + days < EPOCH_DAYS <==> year < epoch
  {
    hide DaysBeforeYear, YearLength;
    DaysInClosedForm(epoch);
    NewYear(year, days);
    if year < epoch {
      YearsGrow(year + 1, epoch);
    } else {
      YearsGrow(epoch, year);
    }
  }

  /** The dates from the epoch on are those from 1970 on. */
  lemma EpochIs1970(d: DateTime)
    requires Valid(d)
    ensures Seconds(d) < EPOCH <==> d.year < 1970
  {
    hide DaysBeforeYear, DaysBeforeMonth, MonthLength, YearLength;
    DayInYear(d.year, d.month, d.day);
    DayBeforeEpoch(d.year, DaysBeforeMonth(d.year, d.month) + (d.day - 1), 1970);
    DaysBeforeSeconds(DayNumber(d.year, d.month, d.day), SecondOfDay(d.hour, d.minute, d.second), EPOCH_DAYS);
  }

  // ---------- months ----------

  /** The lengths of the months, February by the Gregorian leap years. */
  lemma MonthLengths(year: nat)
    ensures MonthLength(year, 1) == 31
    ensures MonthLength(year, 2)
         == if year % 400 == 0 || (year % 4 == 0 && year % 100 != 0) then 29 else 28
    ensures MonthLength(year, 3) == 31 && MonthLength(year, 4) == 30 && MonthLength(year, 5) == 31
    ensures MonthLength(year, 6) == 30 && MonthLength(year, 7) == 31 && MonthLength(year, 8) == 31
    ensures MonthLength(year, 9) == 30 && MonthLength(year, 10) == 31 && MonthLength(year, 11) == 30
    ensures MonthLength(year, 12) == 31
  {
    assert year % 400 == 0 ==> year % 4 == 0;
  }

  /** The day after a date is the next of the month, or the first of the next month, or New Year's Day. */
  lemma NextDay(year: nat, month: nat, day: nat)
    requires IsDate(year, month, day)
    ensures DayNumber(year, month, day) + 1
         == if day < MonthLength(year, month) then DayNumber(year, month, day + 1)
            else if month < 12 then DayNumber(year, month + 1, 1)
            else DayNumber(year + 1, 1, 1)
  {
    hide MonthLength;
    YearIsItsMonths(year);
    MonthLengths(year);
  }
}

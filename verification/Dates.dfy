/** The RFC 1123 dates of src/time.rs: printing them and parsing them back. */
module Dates {
  import opened Text
  import opened Calendar

  /** A parse can fail with an error, or panic: on a slice past the end of the text, or on a date or time that does
      not exist. */
  datatype Outcome<+T> = Done(value: T, rest: string) | Malformed | Panic

  const MONTHS := ["Jan", "Feb", "Mar", "Apr", "May", "Jun", "Jul", "Aug", "Sep", "Oct", "Nov", "Dec"]
  const WEEKDAYS := ["Mon", "Tue", "Wed", "Thu", "Fri", "Sat", "Sun"]
  const GMT := "GMT"
  const UTC_OFFSET := "+0000"

  // ---------- printing ----------

  /** 1 January of year 0 was a Saturday. */
  function Weekday(d: DateTime): (w: nat)
    requires Valid(d)
    ensures w < 7
  {
    (DayNumber(d.year, d.month, d.day) + 5) % 7
  }

  function TwoDigits(n: nat): string
    requires n < 100
  {
    [DigitChar(n / 10), DigitChar(n % 10)]
  }

  function FourDigits(n: nat): string
    requires n < 10000
  {
    TwoDigits(n / 100) + TwoDigits(n % 100)
  }

  predicate Printable(d: DateTime) {
    Valid(d) && d.year < 10000
  }

  function DateText(d: DateTime): string
    requires Printable(d)
  {
    TwoDigits(d.day) + ([' '] + (MONTHS[d.month - 1] + ([' '] + FourDigits(d.year))))
  }

  function TimeText(d: DateTime): string
    requires Printable(d)
  {
    TwoDigits(d.hour) + ([':'] + (TwoDigits(d.minute) + ([':'] + TwoDigits(d.second))))
  }

  /** `weekday, day month year hour:minute:second +0000`, the day in two digits and the year in four. */
  function Rfc2822(d: DateTime): string
    requires Printable(d)
  {
    WEEKDAYS[Weekday(d)] + ([','] + ([' '] + (DateText(d) + ([' '] + (TimeText(d) + ([' '] + UTC_OFFSET))))))
  }

  function To1123(d: DateTime): string
    requires Printable(d)
  {
    var text := Rfc2822(d);
    text[..|text| - |UTC_OFFSET|] + GMT
  }

  // ---------- parsing ----------

  function ParseDigit(s: string): Outcome<nat> {
    if s == "" then Panic
    else if '0' <= s[0] <= '9' then Done((s[0] - '0') as nat, s[1..])
    else Malformed
  }

  function Pow10(n: nat): nat {
    if n == 0 then 1 else 10 * Pow10(n - 1)
  }

  function ParseDigits(n: nat, s: string): Outcome<nat> {
    if n == 0 then Done(0, s)
    else
      match ParseDigit(s)
      case Malformed => Malformed
      case Panic => Panic
      case Done(d, rest) =>
        match ParseDigits(n - 1, rest)
        case Malformed => Malformed
        case Panic => Panic
        case Done(v, after) => Done(d * Pow10(n - 1) + v, after)
  }

  /** `running` on top of what is still to be read. */
  function Plus(running: nat, outcome: Outcome<nat>): Outcome<nat> {
    match outcome
    case Done(v, rest) => Done(running + v, rest)
    case Malformed => Malformed
    case Panic => Panic
  }

  method ReadDigits(n: nat, s: string) returns (outcome: Outcome<nat>)
    ensures outcome == ParseDigits(n, s)
  {
    hide ParseDigit, Pow10;
    var running: nat, rest := 0, s;
    for i := 0 to n
      invariant ParseDigits(n, s) == Plus(running, ParseDigits(n - i, rest))
    {
      match ParseDigit(rest) {
        case Malformed =>
          return Malformed;
        case Panic =>
          return Panic;
        case Done(d, after) =>
          running, rest := running + d * Pow10(n - i - 1), after;
      }
    }
    return Done(running, rest);
  }

  function Discard(c: char, s: string): Outcome<()> {
    if s != "" && s[0] == c then Done((), s[1..]) else Malformed
  }

  /** The position in `names` of the first three characters. */
  function ParseName(names: seq<string>, s: string): Outcome<nat> {
    if |s| < 3 then Panic else FindName(names, 0, s)
  }

  function FindName(names: seq<string>, i: nat, s: string): Outcome<nat>
    requires i <= |names| && |s| >= 3
    decreases |names| - i
  {
    if i == |names| then Malformed
    else if names[i] == s[..3] then Done(i, s[3..])
    else FindName(names, i + 1, s)
  }

  function ParseDate(s: string): Outcome<(nat, nat, nat)> {
    match ParseDigits(2, s)
    case Malformed => Malformed
    case Panic => Panic
    case Done(day, s) =>
      match Discard(' ', s)
      case Malformed => Malformed
      case Panic => Panic
      case Done(_, s) =>
        match ParseName(MONTHS, s)
        case Malformed => Malformed
        case Panic => Panic
        case Done(month, s) => ParseYear(day, month + 1, s)
  }

  function ParseYear(day: nat, month: nat, s: string): Outcome<(nat, nat, nat)> {
    match Discard(' ', s)
    case Malformed => Malformed
    case Panic => Panic
    case Done(_, s) =>
      match ParseDigits(4, s)
      case Malformed => Malformed
      case Panic => Panic
      case Done(year, s) => if IsDate(year, month, day) then Done((year, month, day), s) else Panic
  }

  function ParseTime(s: string): Outcome<(nat, nat, nat)> {
    match ParseDigits(2, s)
    case Malformed => Malformed
    case Panic => Panic
    case Done(hour, s) =>
      match Discard(':', s)
      case Malformed => Malformed
      case Panic => Panic
      case Done(_, s) =>
        match ParseDigits(2, s)
        case Malformed => Malformed
        case Panic => Panic
        case Done(minute, s) => ParseSecond(hour, minute, s)
  }

  function ParseSecond(hour: nat, minute: nat, s: string): Outcome<(nat, nat, nat)> {
    match Discard(':', s)
    case Malformed => Malformed
    case Panic => Panic
    case Done(_, s) =>
      match ParseDigits(2, s)
      case Malformed => Malformed
      case Panic => Panic
      case Done(second, s) =>
        if IsTime(hour, minute, second) then Done((hour, minute, second), s) else Panic
  }

  /** The weekday must be one, but need not be the right one; text behind `GMT` is ignored. */
  function ParseDate1123(s: string): Outcome<DateTime> {
    match ParseName(WEEKDAYS, s)
    case Malformed => Malformed
    case Panic => Panic
    case Done(_, s) =>
      match Discard(',', s)
      case Malformed => Malformed
      case Panic => Panic
      case Done(_, s) =>
        match Discard(' ', s)
        case Malformed => Malformed
        case Panic => Panic
        case Done(_, s) => ParseDateAndTime(s)
  }

  function ParseDateAndTime(s: string): Outcome<DateTime> {
    match ParseDate(s)
    case Malformed => Malformed
    case Panic => Panic
    case Done((year, month, day), s) =>
      match Discard(' ', s)
      case Malformed => Malformed
      case Panic => Panic
      case Done(_, s) =>
        match ParseTime(s)
        case Malformed => Malformed
        case Panic => Panic
        case Done((hour, minute, second), s) =>
          match Discard(' ', s)
          case Malformed => Malformed
          case Panic => Panic
          case Done(_, s) =>
            if GMT <= s then Done(DateTime(year, month, day, hour, minute, second), s[|GMT|..]) else Malformed
  }

  // ---------- reading back ----------

  lemma DiscardBack(c: char, rest: string)
    ensures Discard(c, [c] + rest) == Done((), rest)
  {
  }

  lemma DigitBack(d: nat, rest: string)
    requires d < 10
    ensures ParseDigit([DigitChar(d)] + rest) == Done(d, rest)
  {
  }

  lemma TwoDigitsBack(n: nat, rest: string)
    requires n < 100
    ensures ParseDigits(2, TwoDigits(n) + rest) == Done(n, rest)
  {
    hide ParseDigit, DigitChar;
    var ones := [DigitChar(n % 10)] + rest;
    assert TwoDigits(n) + rest == [DigitChar(n / 10)] + ones;
    DigitBack(n / 10, ones);
    DigitBack(n % 10, rest);
    assert ParseDigits(1, ones) == Done(n % 10, rest);
    assert Pow10(1) == 10;
  }

  lemma OneDigit(s: string)
    ensures ParseDigits(1, s) == ParseDigit(s)
  {
    hide ParseDigit;
    assert forall rest :: ParseDigits(0, rest) == Done(0, rest);
  }

  /** Digits parsed in two parts: the front counts for as many powers of ten as there are digits behind it. */
  lemma FourFromTwo(s: string, a: nat, middle: string, b: nat, rest: string)
    requires ParseDigits(2, s) == Done(a, middle) && ParseDigits(2, middle) == Done(b, rest)
    ensures ParseDigits(4, s) == Done(a * 100 + b, rest)
  {
    hide ParseDigit;
    var d0 := ParseDigit(s);
    var d1 := ParseDigit(d0.rest);
    OneDigit(d0.rest);
    assert a == d0.value * 10 + d1.value;
    assert d1.rest == middle && ParseDigits(2, d1.rest) == Done(b, rest);
    assert ParseDigits(3, d0.rest) == Done(d1.value * Pow10(2) + b, rest);
    assert Pow10(2) == 100 && Pow10(3) == 1000;
  }

  lemma FourDigitsBack(n: nat, rest: string)
    requires n < 10000
    ensures ParseDigits(4, FourDigits(n) + rest) == Done(n, rest)
  {
    hide ParseDigits, TwoDigits;
    var middle := TwoDigits(n % 100) + rest;
    assert FourDigits(n) + rest == TwoDigits(n / 100) + middle;
    TwoDigitsBack(n / 100, middle);
    TwoDigitsBack(n % 100, rest);
    FourFromTwo(TwoDigits(n / 100) + middle, n / 100, middle, n % 100, rest);
  }

  predicate DistinctNames(names: seq<string>) {
    && (forall i | 0 <= i < |names| :: |names[i]| == 3)
    && forall i, j | 0 <= i < j < |names| :: names[i] != names[j]
  }

  lemma {:induction false} FoundAt(names: seq<string>, i: nat, k: nat, s: string)
    requires DistinctNames(names) && i <= k < |names| && |s| >= 3 && s[..3] == names[k]
    ensures FindName(names, i, s) == Done(k, s[3..])
    decreases k - i
  {
    if i == k {
    } else {
      FoundAt(names, i + 1, k, s);
    }
  }

  lemma NameBack(names: seq<string>, k: nat, rest: string)
    requires DistinctNames(names) && k < |names|
    ensures ParseName(names, names[k] + rest) == Done(k, rest)
  {
    var s := names[k] + rest;
    assert s[..3] == names[k] && s[3..] == rest;
    FoundAt(names, 0, k, s);
  }

  lemma NamesAreDistinct()
    ensures DistinctNames(MONTHS) && DistinctNames(WEEKDAYS)
  {
    assert forall i | 0 <= i < |MONTHS| :: |MONTHS[i]| == 3;
    assert forall i | 0 <= i < |WEEKDAYS| :: |WEEKDAYS[i]| == 3;
    DistinctByLetters(MONTHS, map["Jan" := 0, "Feb" := 1, "Mar" := 2, "Apr" := 3, "May" := 4, "Jun" := 5, "Jul" := 6,
                                  "Aug" := 7, "Sep" := 8, "Oct" := 9, "Nov" := 10, "Dec" := 11]);
    DistinctByLetters(WEEKDAYS,
                      map["Mon" := 0, "Tue" := 1, "Wed" := 2, "Thu" := 3, "Fri" := 4, "Sat" := 5, "Sun" := 6]);
  }

  lemma DistinctByLetters(names: seq<string>, index: map<string, nat>)
    requires forall i | 0 <= i < |names| :: names[i] in index && index[names[i]] == i
    ensures forall i, j | 0 <= i < j < |names| :: names[i] != names[j]
  {
  }

  lemma DateBack(d: DateTime, rest: string)
    requires Printable(d)
    ensures ParseDate(DateText(d) + rest) == Done((d.year, d.month, d.day), rest)
  {
    hide ParseDigits, TwoDigits, FourDigits, ParseName, Discard, YearLength, MonthLength;
    NamesAreDistinct();
    DaysAreFew(d);
    var year := FourDigits(d.year) + rest;
    var month := MONTHS[d.month - 1] + ([' '] + year);
    assert DateText(d) + rest == TwoDigits(d.day) + ([' '] + month);
    TwoDigitsBack(d.day, [' '] + month);
    DiscardBack(' ', month);
    NameBack(MONTHS, d.month - 1, [' '] + year);
    DiscardBack(' ', year);
    FourDigitsBack(d.year, rest);
  }

  lemma DaysAreFew(d: DateTime)
    requires Valid(d)
    ensures d.day <= 31
  {
  }

  lemma TimeBack(d: DateTime, rest: string)
    requires Printable(d)
    ensures ParseTime(TimeText(d) + rest) == Done((d.hour, d.minute, d.second), rest)
  {
    hide ParseDigits, TwoDigits, Discard;
    var second := TwoDigits(d.second) + rest;
    var minute := TwoDigits(d.minute) + ([':'] + second);
    assert TimeText(d) + rest == TwoDigits(d.hour) + ([':'] + minute);
    TwoDigitsBack(d.hour, [':'] + minute);
    DiscardBack(':', minute);
    TwoDigitsBack(d.minute, [':'] + second);
    DiscardBack(':', second);
    TwoDigitsBack(d.second, rest);
  }

  /** Cutting off the numeric offset and writing GMT gives the format of section 7.1.1.1 of RFC 7231. */
  lemma Shape1123(d: DateTime)
    requires Printable(d)
    ensures To1123(d)
         == WEEKDAYS[Weekday(d)] + ([','] + ([' '] + (DateText(d) + ([' '] + (TimeText(d) + ([' '] + GMT))))))
  {
    hide DateText, TimeText, Weekday;
    var front := WEEKDAYS[Weekday(d)] + ([','] + ([' '] + (DateText(d) + ([' '] + (TimeText(d) + [' '])))));
    assert Rfc2822(d) == front + UTC_OFFSET;
    assert Rfc2822(d)[..|Rfc2822(d)| - 5] == front;
    assert To1123(d) == front + GMT;
  }

  /** A date, under whatever weekday, and anything behind it. */
  function Dated(w: nat, d: DateTime, rest: string): string
    requires w < 7 && Printable(d)
  {
    WEEKDAYS[w] + ([','] + ([' '] + (DateText(d) + ([' '] + (TimeText(d) + ([' '] + (GMT + rest)))))))
  }

  lemma DatedBack(w: nat, d: DateTime, rest: string)
    requires w < 7 && Printable(d)
    ensures ParseDate1123(Dated(w, d, rest)) == Done(d, rest)
  {
    hide ParseDate, ParseTime, ParseName, Discard, DateText, TimeText, Valid;
    NamesAreDistinct();
    var gmt := GMT + rest;
    var time := TimeText(d) + ([' '] + gmt);
    var date := DateText(d) + ([' '] + time);
    NameBack(WEEKDAYS, w, [','] + ([' '] + date));
    DiscardBack(',', [' '] + date);
    DiscardBack(' ', date);
    DateBack(d, [' '] + time);
    DiscardBack(' ', time);
    TimeBack(d, [' '] + gmt);
    DiscardBack(' ', gmt);
    assert gmt[|GMT|..] == rest;
  }

  /** A printed date parses back to itself. */
  lemma DateRoundTrip(d: DateTime)
    requires Printable(d)
    ensures ParseDate1123(To1123(d)) == Done(d, "")
  {
    hide ParseDate1123, DateText, TimeText, Weekday, Valid;
    Shape1123(d);
    assert GMT + "" == GMT;
    DatedBack(Weekday(d), d, "");
  }

  // ---------- names of days and months ----------

  /** The names of section 7.1.1.1 of RFC 7231. */
  lemma NamesInOrder()
    ensures MONTHS[0] == "Jan" && MONTHS[1] == "Feb" && MONTHS[2] == "Mar" && MONTHS[3] == "Apr"
    ensures MONTHS[4] == "May" && MONTHS[5] == "Jun" && MONTHS[6] == "Jul" && MONTHS[7] == "Aug"
    ensures MONTHS[8] == "Sep" && MONTHS[9] == "Oct" && MONTHS[10] == "Nov" && MONTHS[11] == "Dec"
    ensures WEEKDAYS[0] == "Mon" && WEEKDAYS[1] == "Tue" && WEEKDAYS[2] == "Wed" && WEEKDAYS[3] == "Thu"
    ensures WEEKDAYS[4] == "Fri" && WEEKDAYS[5] == "Sat" && WEEKDAYS[6] == "Sun"
  {
  }

  /** The epoch was a Thursday. */
  lemma EpochIsThursday(d: DateTime)
    requires Valid(d) && d.year == 1970 && d.month == 1 && d.day == 1
    ensures WEEKDAYS[Weekday(d)] == "Thu"
  {
    hide DaysBeforeYear;
    DaysInClosedForm(d.year);
  }

  /** And each day the next weekday comes, Monday after Sunday. */
  lemma WeekdaysAdvance(a: DateTime, b: DateTime)
    requires Valid(a) && Valid(b)
    requires DayNumber(b.year, b.month, b.day) == DayNumber(a.year, a.month, a.day) + 1
    ensures Weekday(b) == if Weekday(a) == 6 then 0 else Weekday(a) + 1
  {
    hide DayNumber;
  }

  /** The example of section 7.1.1.1 of RFC 7231. */
  lemma ExampleDate(d: DateTime)
    requires Printable(d) && d.year == 1994 && d.month == 11 && d.day == 6
    requires d.hour == 8 && d.minute == 49 && d.second == 37
    ensures To1123(d) == "Sun, 06 Nov 1994 08:49:37 GMT"
  {
    hide DateText, TimeText, To1123, Weekday, Valid;
    Shape1123(d);
    ExampleWeekday(d);
    ExampleDateText(d);
    ExampleTimeText(d);
    assert WEEKDAYS[6] == "Sun";
  }

  lemma ExampleDateText(d: DateTime)
    requires Printable(d) && d.year == 1994 && d.month == 11 && d.day == 6
    ensures DateText(d) == "06 Nov 1994"
  {
    hide Valid;
    assert d.year / 100 == 19 && d.year % 100 == 94;
    assert TwoDigits(6) == "06" && TwoDigits(19) == "19" && TwoDigits(94) == "94" && MONTHS[10] == "Nov";
  }

  lemma ExampleTimeText(d: DateTime)
    requires Printable(d) && d.hour == 8 && d.minute == 49 && d.second == 37
    ensures TimeText(d) == "08:49:37"
  {
    hide Valid;
    assert TwoDigits(8) == "08" && TwoDigits(49) == "49" && TwoDigits(37) == "37";
  }

  lemma ExampleWeekday(d: DateTime)
    requires Valid(d) && d.year == 1994 && d.month == 11 && d.day == 6
    ensures Weekday(d) == 6
  {
    hide DaysBeforeYear;
    DaysInClosedForm(d.year);
    YearIsItsMonths(d.year);
    assert DaysBeforeMonth(d.year, 11) + 30 == DaysBeforeMonth(d.year, 12);
  }
}

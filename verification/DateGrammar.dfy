/** Which texts the date parser of src/time.rs accepts, and which make it panic, stated over their characters alone. */
module DateGrammar {
  import opened Text
  import opened Calendar
  import opened Dates

  // ---------- texts that are dates ----------

  ghost predicate IsDated(s: string, d: DateTime) {
    Printable(d) && exists w: nat, rest :: w < 7 && s == Dated(w, d, rest)
  }

  lemma DigitRead(s: string)
    requires ParseDigit(s).Done?
    ensures var digit := ParseDigit(s);
            digit.value < 10 && s == [DigitChar(digit.value)] + digit.rest
  {
    assert forall d: nat | d < 10 :: DigitChar(d) == '0' + d as char;
  }

  /** Two digits are read one after the other. */
  lemma TwoDigitsAre(s: string)
    ensures ParseDigits(2, s)
         == match ParseDigit(s)
            case Malformed => Malformed
            case Panic => Panic
            case Done(tens, middle) =>
              match ParseDigit(middle)
              case Malformed => Malformed
              case Panic => Panic
              case Done(ones, rest) => Done(10 * tens + ones, rest)
  {
    hide ParseDigit;
    if ParseDigit(s).Done? {
      OneDigit(ParseDigit(s).rest);
      assert Pow10(1) == 10;
    }
  }

  /** Four digits are read as two and two. */
  lemma FourDigitsAre(s: string)
    ensures ParseDigits(4, s)
         == match ParseDigits(2, s)
            case Malformed => Malformed
            case Panic => Panic
            case Done(high, middle) =>
              match ParseDigits(2, middle)
              case Malformed => Malformed
              case Panic => Panic
              case Done(low, rest) => Done(100 * high + low, rest)
  {
    hide ParseDigit;
    assert Pow10(2) == 100 && Pow10(3) == 1000 && Pow10(1) == 10;
    TwoDigitsAre(s);
    var first := ParseDigit(s);
    if first.Done? && ParseDigit(first.rest).Done? {
      var middle := ParseDigit(first.rest).rest;
      assert ParseDigits(3, first.rest) == ThreeDigits(first.rest);
      if ParseDigits(2, middle).Done? {
        FourFromTwo(s, ParseDigits(2, s).value, middle, ParseDigits(2, middle).value, ParseDigits(2, middle).rest);
      }
    }
  }

  function ThreeDigits(s: string): Outcome<nat> {
    match ParseDigit(s)
    case Malformed => Malformed
    case Panic => Panic
    case Done(d, rest) =>
      match ParseDigits(2, rest)
      case Malformed => Malformed
      case Panic => Panic
      case Done(v, after) => Done(d * Pow10(2) + v, after)
  }

  lemma TwoDigitsRead(s: string)
    requires ParseDigits(2, s).Done?
    ensures var number := ParseDigits(2, s);
            number.value < 100 && s == TwoDigits(number.value) + number.rest
  {
    hide ParseDigit, ParseDigits, DigitChar;
    TwoDigitsAre(s);
    DigitRead(s);
    DigitRead(ParseDigit(s).rest);
  }

  lemma FourDigitsRead(s: string)
    requires ParseDigits(4, s).Done?
    ensures var number := ParseDigits(4, s);
            number.value < 10000 && s == FourDigits(number.value) + number.rest
  {
    hide ParseDigit, ParseDigits, TwoDigits;
    FourDigitsAre(s);
    TwoDigitsRead(s);
    TwoDigitsRead(ParseDigits(2, s).rest);
  }

  lemma DiscardRead(c: char, s: string)
    requires Discard(c, s).Done?
    ensures s == [c] + Discard(c, s).rest
  {
  }

  lemma {:induction false} NameFound(names: seq<string>, i: nat, s: string)
    requires i <= |names| && |s| >= 3
    ensures match FindName(names, i, s)
            case Done(k, rest) => i <= k < |names| && names[k] == s[..3] && rest == s[3..]
            case Malformed => forall k | i <= k < |names| :: names[k] != s[..3]
            case Panic => false
    decreases |names| - i
  {
    if i == |names| || names[i] == s[..3] {
    } else {
      NameFound(names, i + 1, s);
    }
  }

  lemma NameRead(names: seq<string>, s: string)
    requires ParseName(names, s).Done?
    ensures var name := ParseName(names, s);
            name.value < |names| && s == names[name.value] + name.rest
  {
    NameFound(names, 0, s);
    assert s == s[..3] + s[3..];
  }

  lemma DateRead(s: string)
    requires ParseDate(s).Done?
    ensures var ((year, month, day), rest) := (ParseDate(s).value, ParseDate(s).rest);
            && year < 10000 && IsDate(year, month, day)
            && s == DateText(DateTime(year, month, day, 0, 0, 0)) + rest
  {
    hide ParseDigits, TwoDigits, FourDigits, ParseName, Discard, YearLength, MonthLength;
    var day := ParseDigits(2, s);
    TwoDigitsRead(s);
    DiscardRead(' ', day.rest);
    var name := Discard(' ', day.rest).rest;
    NameRead(MONTHS, name);
    var month := ParseName(MONTHS, name);
    DiscardRead(' ', month.rest);
    FourDigitsRead(Discard(' ', month.rest).rest);
    var year := ParseDigits(4, Discard(' ', month.rest).rest);
    assert s == TwoDigits(day.value)
             + ([' '] + (MONTHS[month.value] + ([' '] + (FourDigits(year.value) + year.rest))));
  }

  lemma TimeRead(s: string, date: DateTime)
    requires ParseTime(s).Done? && Printable(date)
    ensures var ((hour, minute, second), rest) := (ParseTime(s).value, ParseTime(s).rest);
            && IsTime(hour, minute, second)
            && s == TimeText(date.(hour := hour, minute := minute, second := second)) + rest
  {
    hide ParseDigits, TwoDigits, Discard, IsDate;
    var hour := ParseDigits(2, s);
    TwoDigitsRead(s);
    DiscardRead(':', hour.rest);
    var minute := ParseDigits(2, Discard(':', hour.rest).rest);
    TwoDigitsRead(Discard(':', hour.rest).rest);
    DiscardRead(':', minute.rest);
    var second := ParseDigits(2, Discard(':', minute.rest).rest);
    TwoDigitsRead(Discard(':', minute.rest).rest);
    assert s == TwoDigits(hour.value)
             + ([':'] + (TwoDigits(minute.value) + ([':'] + (TwoDigits(second.value) + second.rest))));
  }

  lemma DatedRead(s: string)
    requires ParseDate1123(s).Done?
    ensures IsDated(s, ParseDate1123(s).value)
  {
    hide ParseDate, ParseTime, ParseName, Discard, DateText, TimeText, IsDate;
    NameRead(WEEKDAYS, s);
    var name := ParseName(WEEKDAYS, s);
    DiscardRead(',', name.rest);
    DiscardRead(' ', Discard(',', name.rest).rest);
    var text := Discard(' ', Discard(',', name.rest).rest).rest;
    DateRead(text);
    var date := ParseDate(text);
    DiscardRead(' ', date.rest);
    var day := DateTime(date.value.0, date.value.1, date.value.2, 0, 0, 0);
    TimeRead(Discard(' ', date.rest).rest, day);
    var time := ParseTime(Discard(' ', date.rest).rest);
    DiscardRead(' ', time.rest);
    var end := Discard(' ', time.rest).rest;
    assert end == GMT + end[|GMT|..];
    var d := ParseDate1123(s).value;
    assert DateText(d) == DateText(day) by { SameDay(d, day); }
    assert s == Dated(name.value, d, end[|GMT|..]);
  }

  lemma SameDay(a: DateTime, b: DateTime)
    requires Printable(a) && Printable(b) && a.year == b.year && a.month == b.month && a.day == b.day
    ensures DateText(a) == DateText(b)
  {
  }

  /** The parser accepts exactly the texts that begin with a date as it is printed, under any weekday, and returns
      that date. */
  lemma AcceptsExactlyDates(s: string, d: DateTime)
    ensures ParseDate1123(s).Done? && ParseDate1123(s).value == d <==> IsDated(s, d)
  {
    hide ParseDate1123, Dated, Printable;
    if ParseDate1123(s).Done? {
      DatedRead(s);
    }
    if IsDated(s, d) {
      var w: nat, rest :| w < 7 && s == Dated(w, d, rest);
      DatedBack(w, d, rest);
    }
  }

  // ---------- texts that make the parser panic ----------

  /** The places of `Www, dd Mmm yyyy hh:mm:ss ` where a digit is due. */
  predicate IsDigitPlace(i: nat) {
    5 <= i < 7 || 12 <= i < 16 || 17 <= i < 19 || 20 <= i < 22 || 23 <= i < 25
  }

  /** The character between the fields at place `i`; None within a field. */
  function Separator(i: nat): Option<char> {
    if i == 3 then Some(',')
    else if i == 4 || i == 7 || i == 11 || i == 16 then Some(' ')
    else if i == 19 || i == 22 then Some(':')
    else None
  }

  predicate IsPlaced(c: char, i: nat) {
    && (IsDigitPlace(i) ==> '0' <= c <= '9')
    && (Separator(i).Some? ==> c == Separator(i).value)
  }

  /** The first `n` characters follow the layout, names included that are complete. */
  predicate Fits(s: string, n: nat) {
    && n <= |s| && n <= 25
    && (forall i | 0 <= i < n :: IsPlaced(s[i], i))
    && (n >= 3 ==> s[..3] in WEEKDAYS)
    && (n >= 11 ==> s[8..11] in MONTHS)
  }

  function Digit(c: char): nat {
    if '0' <= c <= '9' then (c - '0') as nat else 0
  }

  /** The number that two characters of `s` spell. */
  function Two(s: string, i: nat): nat
    requires i + 2 <= |s|
  {
    10 * Digit(s[i]) + Digit(s[i + 1])
  }

  /** The text ends where a digit is due, or inside a name that is due. */
  predicate IsCutShort(s: string) {
    || |s| < 3
    || (|s| < 11 && Fits(s, 8))
    || (IsDigitPlace(|s|) && Fits(s, |s|))
  }

  /** The text gives a date that does not exist. */
  predicate HasNoSuchDate(s: string) {
    Fits(s, 16)
    && exists k | 0 <= k < 12 ::
         MONTHS[k] == s[8..11] && !IsDate(100 * Two(s, 12) + Two(s, 14), k + 1, Two(s, 5))
  }

  /** The text gives a time that does not exist; a leap second is one. */
  predicate HasNoSuchTime(s: string) {
    Fits(s, 25) && !IsTime(Two(s, 17), Two(s, 20), Two(s, 23))
  }

  predicate MakesPanic(s: string) {
    IsCutShort(s) || HasNoSuchDate(s) || HasNoSuchTime(s)
  }

  lemma FitsLess(s: string, m: nat, n: nat)
    requires Fits(s, m) && n <= m
    ensures Fits(s, n)
  {
    hide IsPlaced;
  }

  lemma DigitPlaced(s: string, p: nat)
    requires p <= |s| && IsDigitPlace(p)
    ensures match ParseDigit(s[p..])
            case Done(d, rest) => p < |s| && IsPlaced(s[p], p) && d == Digit(s[p]) && rest == s[p + 1..]
            case Panic => p == |s|
            case Malformed => p < |s| && !IsPlaced(s[p], p)
  {
    if p < |s| {
      assert s[p..][0] == s[p] && s[p..][1..] == s[p + 1..];
    }
  }

  lemma FitsMore(s: string, p: nat)
    requires Fits(s, p) && p < |s| && p < 25 && p != 2 && p != 10
    ensures Fits(s, p + 1) <==> IsPlaced(s[p], p)
  {
    hide IsPlaced;
  }

  /** A digit is due next: it is there, or the text ends, or it goes wrong here. */
  lemma DigitStage(s: string, p: nat)
    requires Fits(s, p) && IsDigitPlace(p)
    ensures match ParseDigit(s[p..])
            case Done(d, rest) => Fits(s, p + 1) && d == Digit(s[p]) && rest == s[p + 1..]
            case Panic => IsCutShort(s)
            case Malformed => !IsCutShort(s) && !Fits(s, p + 1)
  {
    hide Fits, IsPlaced;
    assert p <= |s| by { WithinText(s, p); }
    DigitPlaced(s, p);
    if p < |s| {
      FitsMore(s, p);
      if !Fits(s, p + 1) {
        NotCutShort(s, p);
      }
    }
  }

  lemma WithinText(s: string, p: nat)
    requires Fits(s, p)
    ensures p <= |s| && p <= 25
  {
  }

  /** A text that goes wrong at `p` did not end too early. */
  lemma NotCutShort(s: string, p: nat)
    requires 3 <= p < |s| && (p < 8 || 11 <= |s|) && !Fits(s, p + 1)
    ensures !IsCutShort(s)
  {
    hide Fits;
    forall m: nat | Fits(s, m)
      ensures m <= p
    {
      if p < m {
        FitsLess(s, m, p + 1);
      }
    }
    assert Fits(s, 8) ==> 8 <= p;
    assert Fits(s, |s|) ==> |s| <= p;
  }

  lemma TwoStage(s: string, p: nat)
    requires Fits(s, p) && IsDigitPlace(p) && IsDigitPlace(p + 1)
    ensures match ParseDigits(2, s[p..])
            case Done(v, rest) => p + 2 <= |s| && Fits(s, p + 2) && v == Two(s, p) && rest == s[p + 2..]
            case Panic => IsCutShort(s)
            case Malformed => !IsCutShort(s) && !Fits(s, p + 2)
  {
    hide Fits, IsCutShort, ParseDigits, ParseDigit, Digit;
    WithinText(s, p);
    TwoDigitsAre(s[p..]);
    DigitStage(s, p);
    if Fits(s, p + 1) {
      DigitStage(s, p + 1);
      if Fits(s, p + 2) {
        WithinText(s, p + 2);
      }
    } else if Fits(s, p + 2) {
      FitsLess(s, p + 2, p + 1);
    }
  }

  /** A separator is due next: it is there or the parse fails. */
  lemma SeparatorStage(s: string, p: nat)
    requires Fits(s, p) && Separator(p).Some?
    ensures match Discard(Separator(p).value, s[p..])
            case Done(_, rest) => p < |s| && Fits(s, p + 1) && rest == s[p + 1..]
            case Panic => false
            case Malformed => !IsCutShort(s) && !Fits(s, p + 1)
  {
    hide Fits;
    WithinText(s, p);
    if p < |s| {
      assert s[p..][0] == s[p] && s[p..][1..] == s[p + 1..];
      FitsMore(s, p);
      if !Fits(s, p + 1) {
        NotCutShort(s, p);
      }
    } else {
      EndsAtSeparator(s);
    }
  }

  lemma EndsAtSeparator(s: string)
    requires Separator(|s|).Some?
    ensures !IsCutShort(s) && !Fits(s, |s| + 1)
  {
  }

  lemma WeekdayStage(s: string)
    ensures match ParseName(WEEKDAYS, s)
            case Done(_, rest) => Fits(s, 3) && rest == s[3..]
            case Panic => IsCutShort(s)
            case Malformed => !IsCutShort(s) && !Fits(s, 3)
  {
    if |s| >= 3 {
      NameFound(WEEKDAYS, 0, s);
      assert forall i | 0 <= i < 3 :: IsPlaced(s[i], i);
    }
  }

  lemma MonthStage(s: string)
    requires Fits(s, 8)
    ensures match ParseName(MONTHS, s[8..])
            case Done(k, rest) => 11 <= |s| && Fits(s, 11) && k < 12 && MONTHS[k] == s[8..11] && rest == s[11..]
            case Panic => IsCutShort(s)
            case Malformed => !IsCutShort(s) && !Fits(s, 11)
  {
    if |s| >= 11 {
      NameFound(MONTHS, 0, s[8..]);
      assert s[8..][..3] == s[8..11] && s[8..][3..] == s[11..];
      assert forall i | 8 <= i < 11 :: IsPlaced(s[i], i);
    }
  }

  /** A field stops the parse at `n`: the layout is broken before that, and not because the text ends. */
  predicate StopsBefore(s: string, n: nat) {
    !IsCutShort(s) && !Fits(s, n)
  }

  lemma StopsLater(s: string, m: nat, n: nat)
    requires StopsBefore(s, m) && m <= n
    ensures StopsBefore(s, n)
  {
    hide Fits;
    if Fits(s, n) {
      FitsLess(s, n, m);
    }
  }

  lemma YearStage(s: string)
    requires Fits(s, 12)
    ensures match ParseDigits(4, s[12..])
            case Done(year, rest) =>
              16 <= |s| && Fits(s, 16) && year == 100 * Two(s, 12) + Two(s, 14) && rest == s[16..]
            case Panic => IsCutShort(s)
            case Malformed => StopsBefore(s, 16)
  {
    hide Fits, IsCutShort, ParseDigits, Two;
    WithinText(s, 12);
    FourDigitsAre(s[12..]);
    TwoStage(s, 12);
    if Fits(s, 14) {
      TwoStage(s, 14);
      if Fits(s, 16) {
        WithinText(s, 16);
      }
    } else if ParseDigits(2, s[12..]).Malformed? {
      StopsLater(s, 14, 16);
    }
  }

  lemma DateStage(s: string)
    requires Fits(s, 5)
    ensures match ParseDate(s[5..])
            case Done(_, rest) => 16 <= |s| && Fits(s, 16) && rest == s[16..] && !HasNoSuchDate(s)
            case Panic => IsCutShort(s) || HasNoSuchDate(s)
            case Malformed => StopsBefore(s, 16)
  {
    hide Fits, IsCutShort, ParseDigits, ParseName, Discard, Two, IsDate, StopsBefore;
    WithinText(s, 5);
    TwoStage(s, 5);
    if ParseDigits(2, s[5..]).Done? {
      SeparatorStage(s, 7);
      if Discard(' ', s[7..]).Done? {
        MonthStage(s);
        if ParseName(MONTHS, s[8..]).Done? {
          MonthAndYearStage(s);
        }
      }
    }
    StopsEarly(s, 16);
  }

  lemma StopsEarly(s: string, end: nat)
    ensures forall n: nat | n <= end && !IsCutShort(s) && !Fits(s, n) :: StopsBefore(s, end)
  {
    hide Fits, IsCutShort;
    if Fits(s, end) {
      forall n: nat | n <= end
        ensures Fits(s, n)
      {
        FitsLess(s, end, n);
      }
    }
  }

  lemma MonthAndYearStage(s: string)
    requires Fits(s, 11) && ParseName(MONTHS, s[8..]).Done?
    ensures match ParseYear(Two(s, 5), ParseName(MONTHS, s[8..]).value + 1, s[11..])
            case Done(_, rest) => 16 <= |s| && Fits(s, 16) && rest == s[16..] && !HasNoSuchDate(s)
            case Panic => IsCutShort(s) || HasNoSuchDate(s)
            case Malformed => StopsBefore(s, 16)
  {
    hide Fits, IsCutShort, ParseDigits, ParseName, Discard, Two, IsDate;
    WithinText(s, 11);
    FitsLess(s, 11, 8);
    MonthStage(s);
    SeparatorStage(s, 11);
    if Discard(' ', s[11..]).Done? {
      YearStage(s);
      OneMonth(s, ParseName(MONTHS, s[8..]).value);
    } else {
      StopsLater(s, 12, 16);
    }
  }

  /** The name of a month names only that month. */
  lemma OneMonth(s: string, k: nat)
    requires Fits(s, 11) && k < 12 && MONTHS[k] == s[8..11]
    ensures HasNoSuchDate(s) <==> Fits(s, 16) && !IsDate(100 * Two(s, 12) + Two(s, 14), k + 1, Two(s, 5))
  {
    hide Two, IsDate, Fits;
    WithinText(s, 11);
    NamesAreDistinct();
    if Fits(s, 16) {
      WithinText(s, 16);
    }
  }

  lemma TimeStage(s: string)
    requires Fits(s, 17)
    ensures match ParseTime(s[17..])
            case Done(_, rest) => 25 <= |s| && Fits(s, 25) && rest == s[25..] && !HasNoSuchTime(s)
            case Panic => IsCutShort(s) || HasNoSuchTime(s)
            case Malformed => StopsBefore(s, 25)
  {
    hide Fits, IsCutShort, ParseDigits, Discard, Two, StopsBefore;
    WithinText(s, 17);
    TwoStage(s, 17);
    if ParseDigits(2, s[17..]).Done? {
      SeparatorStage(s, 19);
      if Discard(':', s[19..]).Done? {
        TwoStage(s, 20);
        if ParseDigits(2, s[20..]).Done? {
          SeparatorStage(s, 22);
          if Discard(':', s[22..]).Done? {
            TwoStage(s, 23);
          }
        }
      }
    }
    StopsEarly(s, 25);
  }

  lemma StoppedIsNoPanic(s: string, n: nat)
    requires StopsBefore(s, n) && n <= 25
    requires n <= 16 || !HasNoSuchDate(s)
    ensures !MakesPanic(s)
  {
    hide Fits, IsCutShort;
    StopsLater(s, n, 25);
    if n <= 16 {
      StopsLater(s, n, 16);
    }
  }

  lemma LongEnough(s: string)
    requires Fits(s, 25)
    ensures !IsCutShort(s)
  {
  }

  /** What becomes of the text behind the weekday. */
  lemma DateAndTimeStage(s: string)
    requires Fits(s, 5)
    ensures ParseDateAndTime(s[5..]).Panic? <==> MakesPanic(s)
  {
    hide Fits, IsCutShort, HasNoSuchDate, HasNoSuchTime, ParseDate, ParseTime, Discard, StopsBefore;
    WithinText(s, 5);
    DateStage(s);
    if ParseDate(s[5..]).Malformed? {
      StoppedIsNoPanic(s, 16);
    } else if ParseDate(s[5..]).Done? {
      SeparatorStage(s, 16);
      if Discard(' ', s[16..]).Done? {
        TimeStage(s);
        if ParseTime(s[17..]).Malformed? {
          StoppedIsNoPanic(s, 25);
        } else if ParseTime(s[17..]).Done? {
          LongEnough(s);
          NeverPanics(' ', s[25..]);
        }
      } else {
        assert StopsBefore(s, 17) by { StopsHere(s, 17); }
        StoppedIsNoPanic(s, 17);
      }
    }
  }

  lemma StopsHere(s: string, n: nat)
    requires !IsCutShort(s) && !Fits(s, n)
    ensures StopsBefore(s, n)
  {
  }

  lemma NeverPanics(c: char, s: string)
    ensures !Discard(c, s).Panic?
  {
  }

  /** The parser panics exactly when the text keeps to the layout up to where it ends too early, or gives a date or a
      time that does not exist. */
  lemma PanicsExactly(s: string)
    ensures ParseDate1123(s) == Panic <==> MakesPanic(s)
  {
    hide Fits, IsCutShort, ParseName, MakesPanic, ParseDateAndTime, Discard, StopsBefore;
    WeekdayStage(s);
    if ParseName(WEEKDAYS, s).Malformed? {
      StopsHere(s, 3);
      StoppedIsNoPanic(s, 3);
    } else if ParseName(WEEKDAYS, s).Panic? {
      CutShortPanics(s);
    } else {
      SeparatorStage(s, 3);
      if Discard(',', s[3..]).Done? {
        SeparatorStage(s, 4);
        if Discard(' ', s[4..]).Done? {
          DateAndTimeStage(s);
        } else {
          StopsHere(s, 5);
          StoppedIsNoPanic(s, 5);
        }
      } else {
        StopsHere(s, 4);
        StoppedIsNoPanic(s, 4);
      }
    }
  }

  lemma CutShortPanics(s: string)
    requires IsCutShort(s)
    ensures MakesPanic(s)
  {
  }

  const CUT_DATE := "Sun, 06 Nov 19"
  const NO_DATE := "Fri, 30 Feb 2024"
  const NO_TIME := "Sun, 06 Nov 1994 08:49:60"

  /** Texts that make it panic: hardly any text, a date that is cut off, the 30th of February, and a leap second. */
  lemma TextsThatPanic()
    ensures ParseDate1123("") == ParseDate1123("x") == ParseDate1123("Mon, ") == Panic
    ensures ParseDate1123(CUT_DATE) == ParseDate1123(NO_DATE) == ParseDate1123(NO_TIME) == Panic
  {
    hide ParseDate1123;
    ShortTextsPanic();
    CutDatePanics();
    NoDatePanics();
    NoTimePanics();
  }

  lemma ShortTextsPanic()
    ensures ParseDate1123("") == ParseDate1123("x") == ParseDate1123("Mon, ") == Panic
  {
    PanicsExactly("");
    PanicsExactly("x");
    PanicsExactly("Mon, ");
  }

  lemma CutDatePanics()
    ensures ParseDate1123(CUT_DATE) == Panic
  {
    hide ParseDate1123;
    PanicsExactly(CUT_DATE);
    assert CUT_DATE[..3] == WEEKDAYS[6] && CUT_DATE[8..11] == MONTHS[10];
  }

  lemma NoDatePanics()
    ensures ParseDate1123(NO_DATE) == Panic
  {
    hide ParseDate1123, IsCutShort;
    PanicsExactly(NO_DATE);
    assert NO_DATE[..3] == WEEKDAYS[4] && NO_DATE[8..11] == MONTHS[1];
    assert Fits(NO_DATE, 16) && Two(NO_DATE, 5) == 30;
    ThirtiethOfFebruary(NO_DATE);
  }

  lemma ThirtiethOfFebruary(s: string)
    requires Fits(s, 16) && MONTHS[1] == s[8..11] && Two(s, 5) == 30
    ensures HasNoSuchDate(s)
  {
    hide Two, Fits;
    WithinText(s, 16);
    var month := 1;
    assert MONTHS[month] == s[8..11] && !IsDate(100 * Two(s, 12) + Two(s, 14), month + 1, Two(s, 5));
  }

  lemma NoTimePanics()
    ensures ParseDate1123(NO_TIME) == Panic
  {
    hide ParseDate1123, IsCutShort, HasNoSuchDate;
    PanicsExactly(NO_TIME);
    assert NO_TIME[..3] == WEEKDAYS[6] && NO_TIME[8..11] == MONTHS[10];
    assert Fits(NO_TIME, 25) && Two(NO_TIME, 23) == 60;
  }
}

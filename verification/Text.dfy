/** Strings as the server's parsers use them: searching, splitting, trimming and number formats. */
module Text {

  datatype Option<+T> = None | Some(value: T)

  datatype Result<+T, +E> = Ok(value: T) | Err(error: E)

  const CRLF := "\r\n"

  /** What `str::trim` removes, restricted to ASCII. */
  const WHITESPACE := {'\t', '\n', '\U{0B}', '\U{0C}', '\r', ' '}

  // ---------- searching ----------

  predicate At(s: string, pat: string, i: nat) {
    i + |pat| <= |s| && s[i..i + |pat|] == pat
  }

  /** The first position of `pat` in `s` at or after `i`. */
  function FindFrom(s: string, pat: string, i: nat): (r: Option<nat>)
    requires i <= |s|
    ensures r.Some? ==> i <= r.value <= |s| - |pat|
    decreases |s| - i
  {
    if At(s, pat, i) then Some(i)
    else if i == |s| then None
    else FindFrom(s, pat, i + 1)
  }

  function Find(s: string, pat: string): (r: Option<nat>)
    ensures r.Some? ==> r.value + |pat| <= |s|
  {
    FindFrom(s, pat, 0)
  }

  /** `i` is the first place of `pat` in `s` at or after `from`. */
  predicate FirstAt(s: string, pat: string, from: nat, i: nat) {
    from <= i && At(s, pat, i) && forall j: nat | from <= j < i :: !At(s, pat, j)
  }

  lemma {:induction false} FindFromFirst(s: string, pat: string, i: nat)
    requires i <= |s|
    ensures match FindFrom(s, pat, i)
            case Some(k) => FirstAt(s, pat, i, k)
            case None => forall j: nat | i <= j :: !At(s, pat, j)
    decreases |s| - i
  {
    if At(s, pat, i) || i == |s| {
    } else {
      FindFromFirst(s, pat, i + 1);
    }
  }

  /** What is found is the first occurrence, and nothing is found only if there is none. */
  lemma FindFirst(s: string, pat: string)
    ensures match Find(s, pat)
            case Some(k) => FirstAt(s, pat, 0, k)
            case None => forall j: nat :: !At(s, pat, j)
  {
    FindFromFirst(s, pat, 0);
  }

  lemma FindIs(s: string, pat: string, i: nat)
    requires FirstAt(s, pat, 0, i)
    ensures Find(s, pat) == Some(i)
  {
    FindFirst(s, pat);
  }

  /** Text that arrives later does not move a match already found. */
  lemma FindAppend(a: string, b: string, pat: string)
    requires Find(a, pat).Some?
    ensures Find(a + b, pat) == Find(a, pat)
  {
    FindFirst(a, pat);
    var i := Find(a, pat).value;
    assert (a + b)[i..i + |pat|] == a[i..i + |pat|];
    forall j: nat | j < i
      ensures !At(a + b, pat, j)
    {
      assert !At(a, pat, j);
      assert (a + b)[j..j + |pat|] == a[j..j + |pat|];
    }
    FindIs(a + b, pat, i);
  }

  /** A line free of CRLF is ended by the first CRLF written after it, even when it ends in a lone CR. */
  lemma FindLineEnd(line: string, rest: string)
    requires Find(line, CRLF).None?
    ensures Find(line + CRLF + rest, CRLF) == Some(|line|)
  {
    var s := line + CRLF + rest;
    FindFirst(line, CRLF);
    forall j: nat | j < |line|
      ensures !At(s, CRLF, j)
    {
      if j + 1 < |line| {
        assert !At(line, CRLF, j);
        assert s[j..j + 2] == line[j..j + 2];
      } else {
        assert s[j..j + 2][1] == '\r';
      }
    }
    assert s[|line|..|line| + 2] == CRLF;
    FindIs(s, CRLF, |line|);
  }

  /** Everything before the first CRLF is a line free of CRLF. */
  lemma FindLineStart(s: string)
    requires Find(s, CRLF).Some?
    ensures var i := Find(s, CRLF).value;
            i + 2 <= |s| && Find(s[..i], CRLF).None? && s == s[..i] + CRLF + s[i + 2..]
  {
    FindFirst(s, CRLF);
    var i := Find(s, CRLF).value;
    var line := s[..i];
    FindFirst(line, CRLF);
    forall j: nat | At(line, CRLF, j)
      ensures At(s, CRLF, j)
    {
      assert line[j..j + 2] == s[j..j + 2];
    }
    assert s == s[..i] + s[i..i + 2] + s[i + 2..];
  }

  lemma CrlfHasCr(s: string, i: nat)
    requires At(s, CRLF, i)
    ensures s[i] == '\r'
  {
    assert s[i..i + 2][0] == s[i];
  }

  lemma NoCrNoCrlf(s: string)
    requires '\r' !in s
    ensures Find(s, CRLF).None?
  {
    FindFirst(s, CRLF);
    if Find(s, CRLF).Some? {
      CrlfHasCr(s, Find(s, CRLF).value);
    }
  }

  /** Behind text without a CR, a CRLF lies entirely in the rest. */
  lemma CrlfInTail(head: string, tail: string, i: nat)
    requires '\r' !in head && At(head + tail, CRLF, i)
    ensures |head| <= i && At(tail, CRLF, i - |head|)
  {
    var s := head + tail;
    CrlfHasCr(s, i);
    assert forall j | 0 <= j < |head| :: s[j] in head;
    assert tail[i - |head|..i - |head| + 2] == s[i..i + 2];
  }

  // ---------- splitting ----------

  /** The first place at or after `i` where `c` occurs in `s`, or the length of `s`. */
  function IndexFrom(s: string, c: char, i: nat): (k: nat)
    requires i <= |s|
    ensures i <= k <= |s| && (k < |s| ==> s[k] == c)
    ensures forall j | i <= j < k :: s[j] != c
    decreases |s| - i
  {
    if i == |s| || s[i] == c then i else IndexFrom(s, c, i + 1)
  }

  /** `str::split_once` with a one-character separator. */
  function SplitOnce(s: string, sep: char): Option<(string, string)> {
    var i := IndexFrom(s, sep, 0);
    if i == |s| then None else Some((s[..i], s[i + 1..]))
  }

  /** The parts and the separator make up the text again, and the separator is the first of its kind. */
  lemma SplitOnceParts(s: string, sep: char)
    ensures match SplitOnce(s, sep)
            case None => sep !in s
            case Some((a, b)) => sep !in a && s == a + [sep] + b
  {
  }

  lemma SplitOnceAt(a: string, sep: char, b: string)
    requires sep !in a
    ensures SplitOnce(a + [sep] + b, sep) == Some((a, b))
  {
    var s := a + [sep] + b;
    var i := IndexFrom(s, sep, 0);
    assert s[|a|] == sep;
    assert forall j | 0 <= j < |a| :: s[j] in a;
    assert s[..|a|] == a && s[|a| + 1..] == b;
  }

  // ---------- trimming ----------

  /** The first place at or after `i` that holds no whitespace, or the length of `s`. */
  function SkipFrom(s: string, ws: set<char>, i: nat): (k: nat)
    requires i <= |s|
    ensures i <= k <= |s| && (k < |s| ==> s[k] !in ws)
    ensures forall j | i <= j < k :: s[j] in ws
    decreases |s| - i
  {
    if i < |s| && s[i] in ws then SkipFrom(s, ws, i + 1) else i
  }

  /** The end of `s[..i]` without the whitespace at its end. */
  function SkipBack(s: string, ws: set<char>, i: nat): (k: nat)
    requires i <= |s|
    ensures k <= i && (k > 0 ==> s[k - 1] !in ws)
    ensures forall j | k <= j < i :: s[j] in ws
  {
    if i > 0 && s[i - 1] in ws then SkipBack(s, ws, i - 1) else i
  }

  function TrimStart(s: string, ws: set<char>): (r: string)
    ensures r == "" || r[0] !in ws
  {
    s[SkipFrom(s, ws, 0)..]
  }

  function TrimEnd(s: string, ws: set<char>): (r: string)
    ensures r == "" || r[|r| - 1] !in ws
    ensures |r| <= |s| && r == s[..|r|]
  {
    s[..SkipBack(s, ws, |s|)]
  }

  function TrimBy(s: string, ws: set<char>): (r: string)
    ensures IsTrimmed(r, ws)
  {
    TrimEnd(TrimStart(s, ws), ws)
  }

  function Trim(s: string): (r: string)
    ensures IsTrimmed(r, WHITESPACE)
  {
    TrimBy(s, WHITESPACE)
  }

  predicate IsTrimmed(s: string, ws: set<char>) {
    s == "" || (s[0] !in ws && s[|s| - 1] !in ws)
  }

  /** Trimming takes off exactly the padding in front of text that is itself trimmed. */
  lemma TrimPadded(pad: string, s: string, ws: set<char>)
    requires forall c | c in pad :: c in ws
    requires IsTrimmed(s, ws)
    ensures TrimBy(pad + s, ws) == s
  {
    assert forall j | 0 <= j < |pad| :: pad[j] in pad;
    assert (pad + s)[|pad|..] == s && s[..|s|] == s;
  }

  predicate AllIn(s: string, ws: set<char>) {
    forall i | 0 <= i < |s| :: s[i] in ws
  }

  lemma TrimAround(before: string, s: string, after: string, ws: set<char>)
    requires AllIn(before, ws) && AllIn(after, ws) && IsTrimmed(s, ws)
    ensures TrimBy(before + (s + after), ws) == s
  {
    var text := before + (s + after);
    var k := SkipFrom(text, ws, 0);
    assert forall i | 0 <= i < |before| :: text[i] == before[i];
    assert forall i | 0 <= i < |after| :: text[|before| + |s| + i] == after[i];
    if s == "" {
      assert k == |text|;
    } else {
      assert text[|before|] == s[0] && text[|before| + |s| - 1] == s[|s| - 1];
      assert k == |before| && TrimStart(text, ws) == s + after;
      TrimBehind(s, after, ws);
    }
  }

  lemma TrimBehind(s: string, after: string, ws: set<char>)
    requires AllIn(after, ws) && IsTrimmed(s, ws)
    ensures TrimEnd(s + after, ws) == s
  {
    var text := s + after;
    assert forall i | 0 <= i < |after| :: text[|s| + i] == after[i];
    assert s != "" ==> text[|s| - 1] == s[|s| - 1];
    assert SkipBack(text, ws, |text|) == |s|;
  }

  /** What trimming takes off is whitespace on either side. */
  lemma TrimParts(s: string, ws: set<char>) returns (before: string, after: string)
    ensures AllIn(before, ws) && AllIn(after, ws) && s == before + (TrimBy(s, ws) + after)
  {
    var i := SkipFrom(s, ws, 0);
    var text := s[i..];
    var k := SkipBack(text, ws, |text|);
    before, after := s[..i], text[k..];
    assert TrimStart(s, ws) == text && TrimBy(s, ws) == text[..k];
    assert s == before + (text[..k] + after);
  }

  // ---------- numbers ----------

  const DIGITS := "0123456789abcdef"

  function DigitChar(d: nat): char
    requires d < 16
  {
    DIGITS[d]
  }

  function DigitValue(c: char): Option<nat> {
    if '0' <= c <= '9' then Some((c - '0') as nat)
    else if 'a' <= c <= 'f' then Some((c - 'a') as nat + 10)
    else if 'A' <= c <= 'F' then Some((c - 'A') as nat + 10)
    else None
  }

  predicate IsDigit(c: char, base: nat) {
    DigitValue(c).Some? && DigitValue(c).value < base
  }

  predicate AreDigits(s: string, base: nat) {
    forall i | 0 <= i < |s| :: IsDigit(s[i], base)
  }

  predicate IsNumeral(s: string, base: nat) {
    s != "" && AreDigits(s, base)
  }

  /** Moves a number one digit to the left. */
  function Shift(n: nat, base: nat): nat {
    if base == 10 then n * 10 else n * 16
  }

  function ValueOf(s: string, base: nat): nat
    requires AreDigits(s, base)
  {
    if s == "" then 0
    else
      assert IsDigit(s[|s| - 1], base);
      Shift(ValueOf(s[..|s| - 1], base), base) + DigitValue(s[|s| - 1]).value
  }

  lemma ValueOfExtend(front: string, c: char, base: nat)
    requires AreDigits(front, base) && IsDigit(c, base)
    ensures AreDigits(front + [c], base)
    ensures ValueOf(front + [c], base) == Shift(ValueOf(front, base), base) + DigitValue(c).value
  {
    var s := front + [c];
    assert s[..|s| - 1] == front;
  }

  /** All but the last digit of a number, and the last digit. */
  function SplitLast(n: nat, base: nat): (r: (nat, nat))
    requires base == 10 || base == 16
    ensures n == Shift(r.0, base) + r.1 && r.1 < base
    ensures base <= n ==> r.0 < n
    ensures n < base ==> r.1 == n && r.0 == 0
  {
    if base == 10 then (n / 10, n % 10) else (n / 16, n % 16)
  }

  lemma NumeralExtend(front: string, q: nat, d: nat, base: nat)
    requires AreDigits(front, base) && ValueOf(front, base) == q
    requires d < base <= 16
    ensures AreDigits(front + [DigitChar(d)], base)
    ensures ValueOf(front + [DigitChar(d)], base) == Shift(q, base) + d
  {
    assert DigitValue(DigitChar(d)) == Some(d);
    ValueOfExtend(front, DigitChar(d), base);
  }

  /** Digits without a leading zero, as `{}` and `{:x}` print an unsigned number. */
  function Numeral(n: nat, base: nat): (s: string)
    requires base == 10 || base == 16
    ensures IsNumeral(s, base) && ValueOf(s, base) == n
    decreases n
  {
    var (q, d) := SplitLast(n, base);
    var front := if n < base then "" else Numeral(q, base);
    NumeralExtend(front, q, d, base);
    front + [DigitChar(d)]
  }

  function ParseNumeral(s: string, base: nat): Option<nat> {
    if IsNumeral(s, base) then Some(ValueOf(s, base)) else None
  }

  /** `from_str` of an unsigned integer type with values below `limit`: an optional plus sign, then decimal digits. */
  function ParseUnsigned(s: string, limit: nat): (r: Option<nat>)
    ensures r.Some? ==> r.value < limit
  {
    var digits := if s != "" && s[0] == '+' then s[1..] else s;
    match ParseNumeral(digits, 10)
    case None => None
    case Some(n) => if n < limit then Some(n) else None
  }

  /** A printed number parses back, unless it is beyond the type's range. */
  lemma DecimalRoundTrip(n: nat, limit: nat)
    ensures ParseUnsigned(Numeral(n, 10), limit) == if n < limit then Some(n) else None
  {
    hide Numeral, ValueOf;
    assert IsDigit(Numeral(n, 10)[0], 10);
  }

  // ---------- what these mean, character by character ----------

  /** The ASCII characters with the Unicode property White_Space: U+0009 to U+000D, and the space. */
  predicate IsSpace(c: char) {
    c == ' ' || '\U{09}' <= c <= '\U{0D}'
  }

  predicate AllSpace(s: string) {
    forall i | 0 <= i < |s| :: IsSpace(s[i])
  }

  lemma SpacesAre(s: string)
    ensures AllIn(s, WHITESPACE) <==> AllSpace(s)
    ensures IsTrimmed(s, WHITESPACE) <==> (s == "" || (!IsSpace(s[0]) && !IsSpace(s[|s| - 1])))
  {
    assert forall c :: c in WHITESPACE <==> IsSpace(c);
  }

  ghost predicate IsTrimOf(trimmed: string, s: string, before: string, after: string) {
    && AllSpace(before) && AllSpace(after) && s == before + (trimmed + after)
    && (trimmed == "" || (!IsSpace(trimmed[0]) && !IsSpace(trimmed[|trimmed| - 1])))
  }

  /** Trimming takes off all whitespace on either side, and nothing else. */
  lemma TrimExactly(s: string, trimmed: string)
    ensures Trim(s) == trimmed <==> exists before, after :: IsTrimOf(trimmed, s, before, after)
  {
    hide TrimBy, IsTrimmed;
    if Trim(s) == trimmed {
      var before, after := TrimParts(s, WHITESPACE);
      SpacesAre(before);
      SpacesAre(after);
      SpacesAre(trimmed);
      assert IsTrimOf(trimmed, s, before, after);
    }
    forall before, after | IsTrimOf(trimmed, s, before, after)
      ensures Trim(s) == trimmed
    {
      SpacesAre(before);
      SpacesAre(after);
      SpacesAre(trimmed);
      TrimAround(before, trimmed, after, WHITESPACE);
    }
  }

  /** What a digit is worth, by its character code; upper-case letters count too. */
  function Worth(c: char): nat {
    if '0' <= c <= '9' then c as nat - 48
    else if 'a' <= c <= 'f' then c as nat - 87
    else if 'A' <= c <= 'F' then c as nat - 55
    else 0
  }

  predicate IsDecimalDigit(c: char) {
    '0' <= c <= '9'
  }

  predicate IsHexDigit(c: char) {
    '0' <= c <= '9' || 'a' <= c <= 'f' || 'A' <= c <= 'F'
  }

  function TenTo(n: nat): nat {
    if n == 0 then 1 else 10 * TenTo(n - 1)
  }

  function SixteenTo(n: nat): nat {
    if n == 0 then 1 else 16 * SixteenTo(n - 1)
  }

  /** The number that decimal digits denote: each is worth ten times what it would be worth one place to the right. */
  function Decimal(s: string): nat {
    if s == "" then 0 else Worth(s[0]) * TenTo(|s| - 1) + Decimal(s[1..])
  }

  function Hexadecimal(s: string): nat {
    if s == "" then 0 else Worth(s[0]) * SixteenTo(|s| - 1) + Hexadecimal(s[1..])
  }

  lemma DigitsAreWorth(c: char)
    ensures IsDigit(c, 10) <==> IsDecimalDigit(c)
    ensures IsDigit(c, 16) <==> IsHexDigit(c)
    ensures IsDigit(c, 10) || IsDigit(c, 16) ==> DigitValue(c) == Some(Worth(c))
  {
  }

  lemma {:induction false} DecimalExtend(front: string, c: char)
    ensures Decimal(front + [c]) == 10 * Decimal(front) + Worth(c)
    decreases |front|
  {
    hide Worth;
    var s := front + [c];
    if front == "" {
      assert s[1..] == "" && TenTo(0) == 1;
    } else {
      assert s[1..] == front[1..] + [c];
      DecimalExtend(front[1..], c);
      Tenfold(Worth(front[0]), |front| - 1);
    }
  }

  lemma Tenfold(d: nat, n: nat)
    ensures d * TenTo(n + 1) == 10 * (d * TenTo(n))
  {
  }

  lemma {:induction false} HexadecimalExtend(front: string, c: char)
    ensures Hexadecimal(front + [c]) == 16 * Hexadecimal(front) + Worth(c)
    decreases |front|
  {
    hide Worth;
    var s := front + [c];
    if front == "" {
      assert s[1..] == "" && SixteenTo(0) == 1;
    } else {
      assert s[1..] == front[1..] + [c];
      HexadecimalExtend(front[1..], c);
      Sixteenfold(Worth(front[0]), |front| - 1);
    }
  }

  lemma Sixteenfold(d: nat, n: nat)
    ensures d * SixteenTo(n + 1) == 16 * (d * SixteenTo(n))
  {
  }

  lemma {:induction false} ValueIs(s: string, base: nat)
    requires (base == 10 || base == 16) && AreDigits(s, base)
    ensures ValueOf(s, base) == if base == 10 then Decimal(s) else Hexadecimal(s)
  {
    hide Worth, Decimal, Hexadecimal, DigitValue;
    if s == "" {
      assert Decimal("") == 0 && Hexadecimal("") == 0 by { NoDigits(); }
    } else {
      var front, last := s[..|s| - 1], s[|s| - 1];
      assert s == front + [last];
      assert IsDigit(last, base);
      ValueIs(front, base);
      DigitsAreWorth(last);
      DecimalExtend(front, last);
      HexadecimalExtend(front, last);
    }
  }

  lemma NoDigits()
    ensures Decimal("") == 0 && Hexadecimal("") == 0
  {
  }

  /** A plus sign if there is one, and at least one decimal digit. */
  ghost predicate Spells(text: string, n: nat) {
    exists digits: string ::
      && (text == digits || text == "+" + digits) && digits != ""
      && (forall i | 0 <= i < |digits| :: IsDecimalDigit(digits[i]))
      && Decimal(digits) == n
  }

  lemma NumeralsSpell(digits: string, n: nat)
    ensures ParseNumeral(digits, 10) == Some(n)
        <==> digits != "" && (forall i | 0 <= i < |digits| :: IsDecimalDigit(digits[i])) && Decimal(digits) == n
  {
    hide Decimal, ValueOf, IsDigit, IsDecimalDigit;
    forall i | 0 <= i < |digits|
      ensures IsDigit(digits[i], 10) <==> IsDecimalDigit(digits[i])
    {
      DigitsAreWorth(digits[i]);
    }
    if AreDigits(digits, 10) {
      ValueIs(digits, 10);
    }
  }

  /** The texts an unsigned integer type accepts, and as what. */
  lemma UnsignedExactly(s: string, limit: nat, n: nat)
    ensures ParseUnsigned(s, limit) == Some(n) <==> Spells(s, n) && n < limit
  {
    hide Decimal, ParseNumeral, IsDecimalDigit;
    var digits := if s != "" && s[0] == '+' then s[1..] else s;
    NumeralsSpell(digits, n);
    if ParseUnsigned(s, limit) == Some(n) {
      assert s == digits || s == "+" + digits;
    }
    if Spells(s, n) && n < limit {
      var d: string :| (s == d || s == "+" + d) && d != ""
        && (forall i | 0 <= i < |d| :: IsDecimalDigit(d[i])) && Decimal(d) == n;
      assert !IsDecimalDigit('+') by { PlusIsNoDigit(); }
      assert IsDecimalDigit(d[0]);
      assert ("+" + d)[1..] == d;
      assert d == digits;
    }
  }

  lemma PlusIsNoDigit()
    ensures !IsDecimalDigit('+')
  {
  }

  /** Numbers are printed with decimal or lower-case hexadecimal digits, in the right order, and no leading zero. */
  lemma {:induction false} NumeralIs(n: nat, base: nat)
    requires base == 10 || base == 16
    ensures var s := Numeral(n, base);
            && s != "" && (n > 0 ==> s[0] != '0')
            && (if base == 10 then Decimal(s) else Hexadecimal(s)) == n
            && forall i | 0 <= i < |s| :: IsDecimalDigit(s[i]) || (base == 16 && 'a' <= s[i] <= 'f')
    decreases n
  {
    hide Decimal, Hexadecimal, ValueOf;
    var s := Numeral(n, base);
    ValueIs(s, base);
    var (q, d) := SplitLast(n, base);
    PrintedDigit(d, base);
    if n < base {
      assert s == [DigitChar(d)];
    } else {
      NumeralIs(q, base);
      assert s == Numeral(q, base) + [DigitChar(d)];
    }
  }

  lemma PrintedDigit(d: nat, base: nat)
    requires d < base && (base == 10 || base == 16)
    ensures IsDecimalDigit(DigitChar(d)) || (base == 16 && 'a' <= DigitChar(d) <= 'f')
    ensures d > 0 ==> DigitChar(d) != '0'
  {
  }
}

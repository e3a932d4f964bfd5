/** Which byte strings the request parser accepts, stated without the parser's states: a request line,
    header lines, an empty line, and as many body bytes as the headers announce. */
module RequestGrammar {
  import opened Text
  import opened Requests

  predicate IsLine(s: string) {
    Find(s, CRLF).None?
  }

  function JoinLines(lines: seq<string>): string {
    if lines == [] then "" else lines[0] + CRLF + JoinLines(lines[1..])
  }

  predicate AreLines(lines: seq<string>) {
    forall i | 0 <= i < |lines| :: IsLine(lines[i])
  }

  /** Header lines collected over `headers`, later lines replacing earlier ones; None if one is malformed. */
  function Collect(headers: Headers, lines: seq<string>): Option<Headers>
    decreases |lines|
  {
    if lines == [] then Some(headers)
    else
      match ParseHeaderLine(lines[0])
      case Err(_) => None
      case Ok((field, value)) => Collect(headers[field := value], lines[1..])
  }

  /** `s` is the text of `r`: request line `first`, header lines `fields`, and `suffix` after the body. */
  ghost predicate Denotes(s: string, r: Request, first: string, fields: seq<string>, suffix: string) {
    && IsLine(first) && ParseRequestLine(first) == Ok(r.line)
    && fields != [] && AreLines(fields)
    && Collect(map[], fields) == Some(r.headers)
    && Announces(r.headers, |r.body|)
    && s == first + CRLF + (JoinLines(fields) + (CRLF + (r.body + suffix)))
  }

  // ---------- header maps ----------

  /** `field` is what line `i` names, and no later line names it again. */
  predicate LastNaming(lines: seq<string>, i: nat, field: Field, value: string) {
    && i < |lines| && ParseHeaderLine(lines[i]) == Ok((field, value))
    && forall j | i < j < |lines| :: !Names(lines[j], field)
  }

  predicate Names(line: string, field: Field) {
    ParseHeaderLine(line).Ok? && ParseHeaderLine(line).value.0 == field
  }

  /** A field some line names has the value of the last such line. */
  lemma {:induction false} LastValueWins(headers: Headers, lines: seq<string>, i: nat, field: Field, value: string)
    requires Collect(headers, lines).Some?
    requires LastNaming(lines, i, field, value)
    ensures field in Collect(headers, lines).value
    ensures Collect(headers, lines).value[field] == value
    decreases i
  {
    hide ParseHeaderLine;
    var (f, v) := ParseHeaderLine(lines[0]).value;
    var rest := lines[1..];
    assert forall j | 0 <= j < |rest| :: rest[j] == lines[j + 1];
    if i == 0 {
      UntouchedField(headers[f := v], rest, field);
    } else {
      LastValueWins(headers[f := v], rest, i - 1, field, value);
    }
  }

  /** A field no line names keeps whatever it had. */
  lemma {:induction false} UntouchedField(headers: Headers, lines: seq<string>, field: Field)
    requires Collect(headers, lines).Some?
    requires forall j | 0 <= j < |lines| :: !Names(lines[j], field)
    ensures field in Collect(headers, lines).value <==> field in headers
    ensures field in headers ==> Collect(headers, lines).value[field] == headers[field]
    decreases |lines|
  {
    hide ParseHeaderLine;
    if lines == [] {
    } else {
      assert !Names(lines[0], field);
      var (f, value) := ParseHeaderLine(lines[0]).value;
      var rest := lines[1..];
      assert forall j | 0 <= j < |rest| :: rest[j] == lines[j + 1];
      UntouchedField(headers[f := value], rest, field);
    }
  }

  // ---------- everything in the grammar is accepted ----------

  lemma ParseOneLine(state: Incremental, line: string, rest: string)
    requires AwaitsLine(state) && IsLine(line) && state.buf == line + CRLF + rest
    ensures var r := TakeLine(state, line, rest);
            ParseBuffer(state) == if r.Err? then r else ParseBuffer(r.value)
  {
    hide TakeLine, FindFrom;
    FindLineEnd(line, rest);
    assert state.buf[..|line|] == line && state.buf[|line| + 2..] == rest;
  }

  lemma {:induction false} ParseHeaders(line: RequestLine, headers: Headers, fields: seq<string>, rest: string)
    requires AreLines(fields) && Collect(headers, fields).Some?
    ensures ParseBuffer(HeadersRead(line, headers, JoinLines(fields) + rest))
         == ParseBuffer(HeadersRead(line, Collect(headers, fields).value, rest))
    decreases |fields|
  {
    hide ParseBuffer, ParseHeaderLine, IsLine;
    if fields == [] {
      assert JoinLines(fields) + rest == rest;
    } else {
      var (field, value) := ParseHeaderLine(fields[0]).value;
      var after := JoinLines(fields[1..]) + rest;
      assert JoinLines(fields) + rest == fields[0] + CRLF + after;
      ParseOneLine(HeadersRead(line, headers, JoinLines(fields) + rest), fields[0], after);
      HeaderLineNotEmpty(fields[0]);
      ParseHeaders(line, headers[field := value], fields[1..], rest);
    }
  }

  lemma HeaderLineNotEmpty(line: string)
    requires ParseHeaderLine(line).Ok?
    ensures line != ""
  {
  }

  lemma ParseEnd(line: RequestLine, headers: Headers, body: string, suffix: string)
    requires DeclaredLength(headers) == Ok(|body|)
    ensures ParseBuffer(HeadersRead(line, headers, CRLF + (body + suffix)))
         == Ok(FullRequest(Request(line, headers, body)))
  {
    hide DeclaredLength, FindFrom;
    assert CRLF + (body + suffix) == "" + CRLF + (body + suffix);
    ParseOneLine(HeadersRead(line, headers, CRLF + (body + suffix)), "", body + suffix);
    assert (body + suffix)[..|body|] == body && "" + body == body;
  }

  lemma GrammarAccepted(s: string, r: Request, first: string, fields: seq<string>, suffix: string)
    requires Denotes(s, r, first, fields, suffix)
    ensures TryParse(s, START) == Ok(FullRequest(r))
  {
    hide ParseBuffer, ParseHeaderLine, ParseRequestLine, DeclaredLength, Announces, IsLine;
    DeclaredLengthExactly(r.headers, |r.body|);
    var end := CRLF + (r.body + suffix);
    var rest := JoinLines(fields) + end;
    assert "" + s == s;
    ParseOneLine(Unread(s), first, rest);
    var after := JoinLines(fields[1..]) + end;
    assert rest == fields[0] + CRLF + after;
    ParseOneLine(LineRead(r.line, rest), fields[0], after);
    var (field, value) := ParseHeaderLine(fields[0]).value;
    ParseHeaders(r.line, map[field := value], fields[1..], end);
    ParseEnd(r.line, r.headers, r.body, suffix);
  }

  // ---------- everything accepted is in the grammar ----------

  /** If a state waiting for a line leads to a full request, its buffer starts with a line it can take. */
  lemma FirstLine(state: Incremental, r: Request) returns (line: string, rest: string)
    requires AwaitsLine(state) && ParseBuffer(state) == Ok(FullRequest(r))
    ensures IsLine(line) && state.buf == line + CRLF + rest
    ensures TakeLine(state, line, rest).Ok?
    ensures ParseBuffer(TakeLine(state, line, rest).value) == Ok(FullRequest(r))
  {
    hide TakeLine, FindFrom;
    FindLineStart(state.buf);
    var i := Find(state.buf, CRLF).value;
    line, rest := state.buf[..i], state.buf[i + 2..];
  }

  lemma BodySound(line: RequestLine, headers: Headers, n: nat, buf: string, r: Request) returns (suffix: string)
    requires ParseBuffer(BodyRead(line, headers, "", n, buf)) == Ok(FullRequest(r))
    ensures r.line == line && r.headers == headers && |r.body| == n && buf == r.body + suffix
  {
    assert n <= |buf|;
    suffix := buf[n..];
    assert "" + buf[..n] == buf[..n];
  }

  lemma {:induction false} HeadersSound(line: RequestLine, headers: Headers, buf: string, r: Request)
    returns (fields: seq<string>, suffix: string)
    requires ParseBuffer(HeadersRead(line, headers, buf)) == Ok(FullRequest(r))
    ensures r.line == line && AreLines(fields) && Collect(headers, fields) == Some(r.headers)
    ensures DeclaredLength(r.headers) == Ok(|r.body|)
    ensures buf == JoinLines(fields) + (CRLF + (r.body + suffix))
    decreases |buf|
  {
    hide ParseBuffer, ParseHeaderLine, DeclaredLength, IsLine;
    var state := HeadersRead(line, headers, buf);
    var text, rest := FirstLine(state, r);
    if text == "" {
      suffix := BodySound(line, headers, DeclaredLength(headers).value, rest, r);
      fields := [];
      assert buf == JoinLines(fields) + (CRLF + (r.body + suffix));
    } else {
      var (field, value) := ParseHeaderLine(text).value;
      var after;
      after, suffix := HeadersSound(line, headers[field := value], rest, r);
      fields := [text] + after;
      assert fields[1..] == after;
      assert buf == text + CRLF + JoinLines(after) + (CRLF + (r.body + suffix));
    }
  }

  lemma AcceptedInGrammar(s: string, r: Request)
    returns (first: string, fields: seq<string>, suffix: string)
    requires TryParse(s, START) == Ok(FullRequest(r))
    ensures Denotes(s, r, first, fields, suffix)
  {
    hide ParseBuffer, ParseHeaderLine, ParseRequestLine, DeclaredLength, Announces, IsLine;
    DeclaredLengthExactly(r.headers, |r.body|);
    assert "" + s == s;
    var rest, text, after;
    first, rest := FirstLine(Unread(s), r);
    var line := ParseRequestLine(first).value;
    text, rest := FirstLine(LineRead(line, rest), r);
    var (field, value) := ParseHeaderLine(text).value;
    after, suffix := HeadersSound(line, map[field := value], rest, r);
    fields := [text] + after;
    LineAhead(text, after, CRLF + (r.body + suffix));
  }

  lemma LineAhead(line: string, lines: seq<string>, end: string)
    ensures ([line] + lines)[1..] == lines
    ensures line + CRLF + (JoinLines(lines) + end) == JoinLines([line] + lines) + end
  {
  }

  /** The parser accepts exactly the texts of requests, and returns the request denoted. */
  lemma AcceptsExactlyTheGrammar(s: string, r: Request)
    ensures TryParse(s, START) == Ok(FullRequest(r))
        <==> exists first, fields, suffix :: Denotes(s, r, first, fields, suffix)
  {
    hide Denotes, TryParse;
    if TryParse(s, START) == Ok(FullRequest(r)) {
      var first, fields, suffix := AcceptedInGrammar(s, r);
    }
    forall first, fields, suffix | Denotes(s, r, first, fields, suffix)
      ensures TryParse(s, START) == Ok(FullRequest(r))
    {
      GrammarAccepted(s, r, first, fields, suffix);
    }
  }

  // ---------- what is refused ----------

  /** What makes the parser give up: a bad request line, a bad header line (an empty one, if it is the first), or a bad
      length at the end of the header. */
  datatype Fault = BadRequestLine | BadHeaderLine(line: string) | BadEnd

  /** `s` begins with the request line `first` and the header lines `fields`, and then has a fault. */
  ghost predicate Faulty(s: string, first: string, fields: seq<string>, fault: Fault, rest: string) {
    && IsLine(first)
    && match fault
       case BadRequestLine => ParseRequestLine(first).Err? && s == first + CRLF + rest
       case BadHeaderLine(line) =>
         && ParseRequestLine(first).Ok? && AreLines(fields) && Collect(map[], fields).Some?
         && IsLine(line) && ParseHeaderLine(line).Err? && (line == "" ==> fields == [])
         && s == first + CRLF + (JoinLines(fields) + (line + CRLF + rest))
       case BadEnd =>
         && ParseRequestLine(first).Ok? && fields != [] && AreLines(fields) && Collect(map[], fields).Some?
         && (forall n: nat :: !Announces(Collect(map[], fields).value, n))
         && s == first + CRLF + (JoinLines(fields) + ("" + CRLF + rest))
  }

  lemma FaultyHeaders(line: RequestLine, fields: seq<string>, bad: string, rest: string)
    requires AreLines(fields) && Collect(map[], fields).Some? && IsLine(bad)
    requires if bad == "" then fields == [] || DeclaredLength(Collect(map[], fields).value).Err?
             else ParseHeaderLine(bad).Err?
    ensures ParseBuffer(LineRead(line, JoinLines(fields) + (bad + CRLF + rest))).Err?
  {
    hide ParseBuffer, ParseHeaderLine, DeclaredLength, IsLine;
    var end := bad + CRLF + rest;
    EmptyIsNoHeader();
    if fields == [] {
      assert JoinLines(fields) + end == end;
      ParseOneLine(LineRead(line, end), bad, rest);
    } else {
      var after := JoinLines(fields[1..]) + end;
      assert JoinLines(fields) + end == fields[0] + CRLF + after;
      ParseOneLine(LineRead(line, JoinLines(fields) + end), fields[0], after);
      var (field, value) := ParseHeaderLine(fields[0]).value;
      ParseHeaders(line, map[field := value], fields[1..], end);
      ParseOneLine(HeadersRead(line, Collect(map[], fields).value, end), bad, rest);
    }
  }

  lemma EmptyIsLine()
    ensures IsLine("")
  {
    NoCrNoCrlf("");
  }

  lemma EmptyIsNoHeader()
    ensures ParseHeaderLine("") == Err(NoColon)
  {
    SplitOnceParts("", ':');
  }

  lemma FaultRefused(s: string, first: string, fields: seq<string>, fault: Fault, rest: string)
    requires Faulty(s, first, fields, fault, rest)
    ensures TryParse(s, START).Err?
  {
    hide ParseBuffer, ParseHeaderLine, ParseRequestLine, DeclaredLength, Announces, IsLine;
    assert "" + s == s;
    match fault
    case BadRequestLine => ParseOneLine(Unread(s), first, rest);
    case BadHeaderLine(line) =>
      ParseOneLine(Unread(s), first, JoinLines(fields) + (line + CRLF + rest));
      FaultyHeaders(ParseRequestLine(first).value, fields, line, rest);
    case BadEnd =>
      ParseOneLine(Unread(s), first, JoinLines(fields) + ("" + CRLF + rest));
      EmptyIsLine();
      NoLengthDeclared(Collect(map[], fields).value);
      FaultyHeaders(ParseRequestLine(first).value, fields, "", rest);
  }

  /** If a state waiting for a line leads to an error, its buffer starts with a line. */
  lemma FirstLineOf(state: Incremental) returns (line: string, rest: string)
    requires AwaitsLine(state) && ParseBuffer(state).Err?
    ensures IsLine(line) && state.buf == line + CRLF + rest
    ensures TakeLine(state, line, rest).Ok? ==> ParseBuffer(TakeLine(state, line, rest).value).Err?
  {
    hide TakeLine, FindFrom;
    FindLineStart(state.buf);
    var i := Find(state.buf, CRLF).value;
    line, rest := state.buf[..i], state.buf[i + 2..];
  }

  lemma {:induction false} HeaderFault(line: RequestLine, headers: Headers, buf: string)
    returns (fields: seq<string>, fault: Fault, rest: string)
    requires ParseBuffer(HeadersRead(line, headers, buf)).Err?
    ensures AreLines(fields) && Collect(headers, fields).Some?
    ensures match fault
            case BadRequestLine => false
            case BadHeaderLine(bad) =>
              bad != "" && IsLine(bad) && ParseHeaderLine(bad).Err?
              && buf == JoinLines(fields) + (bad + CRLF + rest)
            case BadEnd =>
              DeclaredLength(Collect(headers, fields).value).Err? && buf == JoinLines(fields) + ("" + CRLF + rest)
    decreases |buf|
  {
    hide ParseBuffer, ParseHeaderLine, DeclaredLength, IsLine;
    var text;
    text, rest := FirstLineOf(HeadersRead(line, headers, buf));
    if text == "" {
      fields, fault := [], BadEnd;
      BodyIsNoFault(line, headers, rest);
      assert buf == JoinLines(fields) + ("" + CRLF + rest);
    } else if ParseHeaderLine(text).Err? {
      fields, fault := [], BadHeaderLine(text);
      assert buf == JoinLines(fields) + (text + CRLF + rest);
    } else {
      var (field, value) := ParseHeaderLine(text).value;
      var after;
      after, fault, rest := HeaderFault(line, headers[field := value], rest);
      fields := [text] + after;
      assert fields[1..] == after;
      var bad := if fault.BadEnd? then "" else fault.line;
      assert buf == text + CRLF + JoinLines(after) + (bad + CRLF + rest);
    }
  }

  lemma BodyIsNoFault(line: RequestLine, headers: Headers, rest: string)
    ensures DeclaredLength(headers).Ok? ==>
              ParseBuffer(BodyRead(line, headers, "", DeclaredLength(headers).value, rest)).Ok?
  {
    hide DeclaredLength;
  }

  lemma FaultFound(s: string) returns (first: string, fields: seq<string>, fault: Fault, rest: string)
    requires TryParse(s, START).Err?
    ensures Faulty(s, first, fields, fault, rest)
  {
    hide ParseBuffer, ParseHeaderLine, ParseRequestLine, DeclaredLength, Announces, IsLine;
    assert "" + s == s;
    first, rest := FirstLineOf(Unread(s));
    fields := [];
    if ParseRequestLine(first).Err? {
      fault := BadRequestLine;
    } else {
      var line := ParseRequestLine(first).value;
      var text, more := FirstLineOf(LineRead(line, rest));
      EmptyIsNoHeader();
      if ParseHeaderLine(text).Err? {
        fault := BadHeaderLine(text);
        assert rest == JoinLines(fields) + (text + CRLF + more);
        rest := more;
      } else {
        var (field, value) := ParseHeaderLine(text).value;
        var after, end;
        after, fault, end := HeaderFault(line, map[field := value], more);
        fields := [text] + after;
        assert fields[1..] == after;
        var bad := if fault.BadEnd? then "" else fault.line;
        assert rest == JoinLines(fields) + (bad + CRLF + end);
        rest := end;
        NoLengthDeclared(Collect(map[], fields).value);
      }
    }
  }

  /** The parser refuses exactly the texts with a fault; any other that is not a request it waits to see the rest of. */
  lemma RefusesExactlyFaults(s: string)
    ensures TryParse(s, START).Err? <==> exists first, fields, fault, rest :: Faulty(s, first, fields, fault, rest)
  {
    hide Faulty, TryParse;
    if TryParse(s, START).Err? {
      var first, fields, fault, rest := FaultFound(s);
    }
    forall first, fields, fault, rest | Faulty(s, first, fields, fault, rest)
      ensures TryParse(s, START).Err?
    {
      FaultRefused(s, first, fields, fault, rest);
    }
  }

  /** A request without header lines is refused, whatever follows it. */
  lemma NoHeadersRefused(first: string, rest: string)
    requires IsLine(first) && ParseRequestLine(first).Ok?
    ensures TryParse(first + CRLF + (CRLF + rest), START) == Err(NoColon)
  {
    hide ParseBuffer, ParseHeaderLine, ParseRequestLine, IsLine;
    var s := first + CRLF + (CRLF + rest);
    assert "" + s == s;
    ParseOneLine(Unread(s), first, CRLF + rest);
    assert CRLF + rest == "" + CRLF + rest;
    EmptyIsLine();
    EmptyIsNoHeader();
    ParseOneLine(LineRead(ParseRequestLine(first).value, CRLF + rest), "", rest);
  }

  // ---------- lines, by their characters ----------

  function VerbText(verb: Method): string {
    match verb
    case Get => "GET"
    case Post => "POST"
  }

  /** A target is a path, or a path and a query behind the first question mark. */
  predicate IsTarget(target: string, path: string, query: string) {
    && '?' !in path
    && (target == path + ['?'] + query || (target == path && query == ""))
  }

  /** Method, target and version with single spaces between them; what follows a further space is ignored. */
  ghost predicate IsRequestLine(s: string, line: RequestLine, target: string, tail: string) {
    && ' ' !in target && IsTarget(target, line.path, line.query) && ' ' !in line.version
    && (tail == "" || tail[0] == ' ')
    && s == VerbText(line.verb) + [' '] + (target + [' '] + (line.version + tail))
  }

  lemma VerbsDiffer(word: string, verb: Method)
    ensures ParseMethod(word) == Some(verb) <==> word == VerbText(verb)
    ensures ' ' !in VerbText(verb)
  {
    assert GET[0] != POST[0];
  }

  lemma TargetSplits(target: string, path: string, query: string)
    ensures SplitTarget(target) == (path, query) <==> IsTarget(target, path, query)
  {
    SplitOnceParts(target, '?');
    if '?' !in path && target == path + ['?'] + query {
      SplitOnceAt(path, '?', query);
    }
  }

  lemma FirstWord(word: string, tail: string)
    requires ' ' !in word && (tail == "" || tail[0] == ' ')
    ensures NextWord(Some(word + tail)).Some? && NextWord(Some(word + tail)).value.0 == word
  {
    if tail == "" {
      assert word + tail == word;
      SplitOnceParts(word, ' ');
    } else {
      assert word + tail == word + [' '] + tail[1..];
      SplitOnceAt(word, ' ', tail[1..]);
    }
  }

  lemma FirstWordRead(s: string) returns (tail: string)
    ensures NextWord(Some(s)).Some?
    ensures var (word, rest) := NextWord(Some(s)).value;
            && ' ' !in word && s == word + tail
            && match rest case None => tail == "" case Some(more) => tail == [' '] + more
  {
    SplitOnceParts(s, ' ');
    match SplitOnce(s, ' ')
    case None => tail := "";
    case Some((word, more)) =>
      tail := [' '] + more;
      assert word + [' '] + more == word + ([' '] + more);
  }

  lemma RequestLineIs(s: string, line: RequestLine, target: string, tail: string)
    requires IsRequestLine(s, line, target, tail)
    ensures ParseRequestLine(s) == Ok(line)
  {
    hide SplitTarget, ParseMethod, IsTarget, VerbText;
    var words := target + [' '] + (line.version + tail);
    VerbsDiffer(VerbText(line.verb), line.verb);
    SplitOnceAt(VerbText(line.verb), ' ', words);
    SplitOnceAt(target, ' ', line.version + tail);
    FirstWord(line.version, tail);
    TargetSplits(target, line.path, line.query);
  }

  lemma RequestLineRead(s: string) returns (target: string, tail: string)
    requires ParseRequestLine(s).Ok?
    ensures IsRequestLine(s, ParseRequestLine(s).value, target, tail)
  {
    hide SplitTarget, ParseMethod, IsTarget, VerbText, SplitOnce;
    var line := ParseRequestLine(s).value;
    var first := FirstWordRead(s);
    var (verb, words) := NextWord(Some(s)).value;
    VerbsDiffer(verb, line.verb);
    var second := FirstWordRead(words.value);
    var (word, versions) := NextWord(words).value;
    target := word;
    TargetSplits(target, line.path, line.query);
    tail := FirstWordRead(versions.value);
    assert s == VerbText(line.verb) + [' '] + (target + [' '] + (line.version + tail));
  }

  /** The request lines the parser accepts, and what it makes of them. */
  lemma RequestLinesExactly(s: string, line: RequestLine)
    ensures ParseRequestLine(s) == Ok(line) <==> exists target, tail :: IsRequestLine(s, line, target, tail)
  {
    hide ParseRequestLine, IsRequestLine;
    if ParseRequestLine(s) == Ok(line) {
      var target, tail := RequestLineRead(s);
    }
    forall target, tail | IsRequestLine(s, line, target, tail)
      ensures ParseRequestLine(s) == Ok(line)
    {
      RequestLineIs(s, line, target, tail);
    }
  }

  /** `s` begins with the word `word`. */
  predicate StartsWithWord(s: string, word: string) {
    word <= s && (|s| > |word| ==> s[|word|] == ' ')
  }

  lemma FirstWordIs(s: string, word: string)
    requires ' ' !in word
    ensures NextWord(Some(s)).Some?
    ensures NextWord(Some(s)).value.0 == word <==> StartsWithWord(s, word)
    ensures NextWord(Some(s)).value.0 == word && s != word ==> NextWord(Some(s)).value.1 == Some(s[|word| + 1..])
    ensures NextWord(Some(s)).value.0 == word && s == word ==> NextWord(Some(s)).value.1 == None
  {
    SplitOnceParts(s, ' ');
    if StartsWithWord(s, word) && s != word {
      assert s == word + [' '] + s[|word| + 1..];
      SplitOnceAt(word, ' ', s[|word| + 1..]);
    }
  }

  lemma MethodsAre(word: string)
    ensures ParseMethod(word).Some? <==> word == "GET" || word == "POST"
  {
    VerbsDiffer(word, Get);
    VerbsDiffer(word, Post);
  }

  lemma BehindMethod(verb: Method, words: Option<string>)
    ensures match words
            case None => ParseTarget(verb, words) == Err(NoTarget)
            case Some(s) =>
              if ' ' in s then ParseTarget(verb, words).Ok? else ParseTarget(verb, words) == Err(NoVersion)
  {
    hide SplitTarget;
    if words.Some? {
      SplitOnceParts(words.value, ' ');
    }
  }

  /** What is reported when the first word is `word`, which is a method. */
  lemma ErrorsBehind(s: string, word: string)
    requires (word == "GET" || word == "POST") && StartsWithWord(s, word)
    ensures if s == word then ParseRequestLine(s) == Err(NoTarget)
            else if ' ' in s[|word| + 1..] then ParseRequestLine(s).Ok?
            else ParseRequestLine(s) == Err(NoVersion)
  {
    hide NextWord, ParseMethod, ParseTarget, StartsWithWord;
    assert ' ' !in word;
    FirstWordIs(s, word);
    MethodsAre(word);
    assert s != word ==> |word| + 1 <= |s| by { LongerThanWord(s, word); }
    BehindMethod(ParseMethod(word).value, NextWord(Some(s)).value.1);
  }

  lemma LongerThanWord(s: string, word: string)
    requires StartsWithWord(s, word)
    ensures s != word ==> |word| + 1 <= |s| && s == word + [' '] + s[|word| + 1..]
  {
  }

  /** Which part of a request line is reported missing: the method unless the first word is one, the target if nothing
      follows it, and the version if only one word follows. */
  lemma RequestLineErrors(s: string)
    ensures ParseRequestLine(s) == Err(NoMethod) <==> !StartsWithWord(s, "GET") && !StartsWithWord(s, "POST")
    ensures ParseRequestLine(s) == Err(NoTarget) <==> s == "GET" || s == "POST"
    ensures ParseRequestLine(s) == Err(NoVersion)
        <==> (StartsWithWord(s, "GET") && s != "GET" && ' ' !in s[4..])
             || (StartsWithWord(s, "POST") && s != "POST" && ' ' !in s[5..])
  {
    hide NextWord, ParseMethod, ParseTarget;
    FirstWordIs(s, "GET");
    FirstWordIs(s, "POST");
    MethodsAre(NextWord(Some(s)).value.0);
    if StartsWithWord(s, "GET") {
      ErrorsBehind(s, "GET");
    } else if StartsWithWord(s, "POST") {
      ErrorsBehind(s, "POST");
    } else {
      assert ParseRequestLine(s) == Err(NoMethod);
    }
  }

  /** The name under which a header is filed, exactly as written; any other is filed under `NotSupported`. */
  predicate IsFiledUnder(name: string, field: Field) {
    match field
    case ContentLength => name == "Content-Length"
    case IfModifiedSince => name == "If-Modified-Since"
    case Host => name == "Host"
    case UserAgent => name == "User-Agent"
    case NotSupported => name !in {"Content-Length", "If-Modified-Since", "Host", "User-Agent"}
  }

  /** A name, the first colon, and a value with whitespace around it. */
  ghost predicate IsHeaderLine(s: string, field: Field, value: string, name: string, before: string, after: string) {
    && ':' !in name && IsFiledUnder(name, field)
    && s == name + [':'] + (before + (value + after))
    && IsTrimOf(value, before + (value + after), before, after)
  }

  lemma FieldIsFiled(name: string, field: Field)
    ensures FieldOf(name) == field <==> IsFiledUnder(name, field)
  {
    assert |CONTENT_LENGTH| == 14 && |IF_MODIFIED_SINCE| == 17 && |HOST| == 4 && |USER_AGENT| == 10;
  }

  /** The header lines the parser accepts, and what it makes of them. */
  lemma HeaderLinesExactly(s: string, field: Field, value: string)
    ensures ParseHeaderLine(s) == Ok((field, value))
        <==> exists name, before, after :: IsHeaderLine(s, field, value, name, before, after)
  {
    hide SplitOnce, Trim, IsTrimOf, FieldOf, IsFiledUnder;
    SplitOnceParts(s, ':');
    if ParseHeaderLine(s) == Ok((field, value)) {
      var (name, padded) := SplitOnce(s, ':').value;
      TrimExactly(padded, value);
      var before, after :| IsTrimOf(value, padded, before, after);
      assert padded == before + (value + after) by { TrimOf(value, padded, before, after); }
      FieldIsFiled(name, field);
      assert IsHeaderLine(s, field, value, name, before, after);
    }
    forall name, before, after | IsHeaderLine(s, field, value, name, before, after)
      ensures ParseHeaderLine(s) == Ok((field, value))
    {
      SplitOnceAt(name, ':', before + (value + after));
      TrimExactly(before + (value + after), value);
      FieldIsFiled(name, field);
    }
  }

  lemma TrimOf(value: string, padded: string, before: string, after: string)
    requires IsTrimOf(value, padded, before, after)
    ensures padded == before + (value + after)
  {
  }

  // ---------- printing and reading back ----------

  /** The request line of section 3.1.1 of RFC 7230; an empty query is printed without its question mark. */
  function PrintRequestLine(line: RequestLine): string {
    VerbText(line.verb) + [' '] + (Target(line) + [' '] + line.version)
  }

  function Target(line: RequestLine): string {
    if line.query == "" then line.path else line.path + ['?'] + line.query
  }

  predicate Printable(line: RequestLine) {
    && ' ' !in line.path && '?' !in line.path && ' ' !in line.query && ' ' !in line.version
    && IsLine(PrintRequestLine(line))
  }

  lemma TargetRoundTrip(line: RequestLine)
    requires '?' !in line.path
    ensures SplitTarget(Target(line)) == (line.path, line.query)
  {
    if line.query != "" {
      SplitOnceAt(line.path, '?', line.query);
    }
  }

  lemma RequestLineRoundTrip(line: RequestLine)
    requires Printable(line)
    ensures ParseRequestLine(PrintRequestLine(line)) == Ok(line)
  {
    hide IsLine, SplitOnce, SplitTarget, Target;
    var target := Target(line);
    var words := target + [' '] + line.version;
    assert ' ' !in target && SplitOnce(line.version, ' ').None? by {
      TargetHasNoSpace(line);
    }
    SplitOnceAt(VerbText(line.verb), ' ', words);
    SplitOnceAt(target, ' ', line.version);
    assert NextWord(Some(PrintRequestLine(line))) == Some((VerbText(line.verb), Some(words)));
    assert NextWord(Some(words)) == Some((target, Some(line.version)));
    assert NextWord(Some(line.version)) == Some((line.version, None));
    TargetRoundTrip(line);
  }

  lemma TargetHasNoSpace(line: RequestLine)
    requires ' ' !in line.path && ' ' !in line.query && ' ' !in line.version
    ensures ' ' !in Target(line) && SplitOnce(line.version, ' ').None?
  {
  }

  /** So a printed request line by itself, which section 3 of RFC 7230 allows, is refused. */
  lemma LoneRequestLineRefused(line: RequestLine, rest: string)
    requires Printable(line)
    ensures TryParse(PrintRequestLine(line) + CRLF + (CRLF + rest), START) == Err(NoColon)
  {
    hide ParseRequestLine, PrintRequestLine, TryParse, IsLine;
    RequestLineRoundTrip(line);
    NoHeadersRefused(PrintRequestLine(line), rest);
  }

  /** A header field as section 3.2 of RFC 7230 writes it. */
  datatype HeaderField = HeaderField(name: string, value: string)

  function PrintHeader(h: HeaderField): string {
    h.name + [':'] + (" " + h.value)
  }

  predicate PrintableHeader(h: HeaderField) {
    ':' !in h.name && IsTrimmed(h.value, WHITESPACE) && IsLine(PrintHeader(h))
  }

  lemma HeaderRoundTrip(h: HeaderField)
    requires PrintableHeader(h)
    ensures ParseHeaderLine(PrintHeader(h)) == Ok((FieldOf(h.name), h.value))
  {
    SplitOnceAt(h.name, ':', " " + h.value);
    TrimPadded(" ", h.value, WHITESPACE);
  }

  function PrintHeaders(hs: seq<HeaderField>): seq<string> {
    seq(|hs|, i requires 0 <= i < |hs| => PrintHeader(hs[i]))
  }

  function HeaderMap(headers: Headers, hs: seq<HeaderField>): Headers
    decreases |hs|
  {
    if hs == [] then headers else HeaderMap(headers[FieldOf(hs[0].name) := hs[0].value], hs[1..])
  }

  function PrintRequest(line: RequestLine, hs: seq<HeaderField>, body: string): string {
    PrintRequestLine(line) + CRLF + (JoinLines(PrintHeaders(hs)) + (CRLF + body))
  }

  /** The value of the last Content-Length line. */
  function LastLength(hs: seq<HeaderField>): Option<string> {
    if hs == [] then None
    else if LastLength(hs[1..]).Some? then LastLength(hs[1..])
    else if hs[0].name == "Content-Length" then Some(hs[0].value)
    else None
  }

  /** The last Content-Length line gives the length of the body, or there is neither. */
  ghost predicate GivesLength(hs: seq<HeaderField>, body: string) {
    match LastLength(hs)
    case None => body == ""
    case Some(value) => Spells(value, |body|) && |body| < 18446744073709551616
  }

  lemma {:induction false} MapHasLastLength(headers: Headers, hs: seq<HeaderField>)
    ensures ContentLength in HeaderMap(headers, hs) <==> ContentLength in headers || LastLength(hs).Some?
    ensures LastLength(hs).Some? ==> HeaderMap(headers, hs)[ContentLength] == LastLength(hs).value
    ensures LastLength(hs).None? && ContentLength in headers ==>
              HeaderMap(headers, hs)[ContentLength] == headers[ContentLength]
    decreases |hs|
  {
    hide FieldOf, IsFiledUnder;
    if hs == [] {
    } else {
      FiledAsLength(hs[0].name);
      MapHasLastLength(headers[FieldOf(hs[0].name) := hs[0].value], hs[1..]);
    }
  }

  lemma FiledAsLength(name: string)
    ensures FieldOf(name) == ContentLength <==> name == "Content-Length"
  {
    FieldIsFiled(name, ContentLength);
  }

  lemma GivenIsAnnounced(hs: seq<HeaderField>, body: string)
    requires GivesLength(hs, body)
    ensures Announces(HeaderMap(map[], hs), |body|)
  {
    hide HeaderMap, LastLength, Spells;
    MapHasLastLength(map[], hs);
  }

  /** A length printed as a number is given. */
  lemma PrintedLengthIsGiven(n: nat)
    ensures Spells(Numeral(n, 10), n)
  {
    hide Decimal;
    NumeralIs(n, 10);
    assert Numeral(n, 10) == Numeral(n, 10);
  }

  lemma {:induction false} PrintedHeaders(headers: Headers, hs: seq<HeaderField>)
    requires forall i | 0 <= i < |hs| :: PrintableHeader(hs[i])
    ensures AreLines(PrintHeaders(hs))
    ensures Collect(headers, PrintHeaders(hs)) == Some(HeaderMap(headers, hs))
    decreases |hs|
  {
    hide ParseHeaderLine, IsLine, PrintHeader, FieldOf;
    var lines := PrintHeaders(hs);
    assert forall i | 0 <= i < |hs| :: PrintableHeader(hs[i]) ==> IsLine(lines[i]);
    if hs == [] {
    } else {
      HeaderRoundTrip(hs[0]);
      PrintedHeaders(headers[FieldOf(hs[0].name) := hs[0].value], hs[1..]);
      assert lines[1..] == PrintHeaders(hs[1..]);
    }
  }

  /** What is printed is in the grammar and denotes the request it was printed from. */
  lemma PrintedDenotes(line: RequestLine, hs: seq<HeaderField>, body: string, suffix: string)
    requires Printable(line)
    requires hs != [] && forall i | 0 <= i < |hs| :: PrintableHeader(hs[i])
    requires GivesLength(hs, body)
    ensures Denotes(PrintRequest(line, hs, body) + suffix, Request(line, HeaderMap(map[], hs), body),
                    PrintRequestLine(line), PrintHeaders(hs), suffix)
  {
    hide ParseHeaderLine, ParseRequestLine, IsLine, PrintRequestLine, PrintHeader, Announces, GivesLength, JoinLines,
         Collect, FindFrom, HeaderMap;
    GivenIsAnnounced(hs, body);
    RequestLineRoundTrip(line);
    PrintedHeaders(map[], hs);
    assert |PrintHeaders(hs)| == |hs|;
    SuffixLast(PrintRequestLine(line), JoinLines(PrintHeaders(hs)), body, suffix);
  }

  lemma SuffixLast(first: string, fields: string, body: string, suffix: string)
    ensures first + CRLF + (fields + (CRLF + body)) + suffix == first + CRLF + (fields + (CRLF + (body + suffix)))
  {
  }

  /** A printed request, followed by anything and cut anywhere into reads, reads back as itself. */
  lemma RequestRoundTrip(line: RequestLine, hs: seq<HeaderField>, body: string, suffix: string, pieces: seq<string>)
    requires Printable(line)
    requires hs != [] && forall i | 0 <= i < |hs| :: PrintableHeader(hs[i])
    requires GivesLength(hs, body)
    requires Flatten(pieces) == PrintRequest(line, hs, body) + suffix
    ensures Feed(pieces, START) == Ok(FullRequest(Request(line, HeaderMap(map[], hs), body)))
  {
    hide Denotes, PrintRequest, Printable, PrintableHeader, TryParse, Feed, Flatten, GivesLength,
         HeaderMap, FindFrom;
    PrintedDenotes(line, hs, body, suffix);
    GrammarAccepted(Flatten(pieces), Request(line, HeaderMap(map[], hs), body),
                    PrintRequestLine(line), PrintHeaders(hs), suffix);
    assert Stored(START);
    FragmentationIndependence(pieces, START);
  }
}

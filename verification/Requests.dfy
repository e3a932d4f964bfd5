/** The resumable request parser of src/http.rs, and what it accepts. */
module Requests {
  import opened Text

  datatype Method = Get | Post

  datatype RequestLine = RequestLine(verb: Method, path: string, query: string, version: string)

  /** The header names the server knows; every other name is filed under `NotSupported`. */
  datatype Field = ContentLength | Host | IfModifiedSince | UserAgent | NotSupported

  type Headers = map<Field, string>

  datatype Request = Request(line: RequestLine, headers: Headers, body: string)

  /** How far a request has been read; `buf` holds the bytes not yet understood. */
  datatype Incremental =
    | Unread(buf: string)
    | LineRead(line: RequestLine, buf: string)
    | HeadersRead(line: RequestLine, headers: Headers, buf: string)
    | BodyRead(line: RequestLine, headers: Headers, body: string, bytesLeft: nat, buf: string)
    | FullRequest(request: Request)

  datatype ParseError = NoMethod | NoTarget | NoVersion | NoColon | BadLength | AlreadyFull

  type Outcome = Result<Incremental, ParseError>

  const USIZE_LIMIT: nat := 0x1_0000_0000_0000_0000

  const START := Unread("")

  const GET := "GET"
  const POST := "POST"
  const CONTENT_LENGTH := "Content-Length"
  const IF_MODIFIED_SINCE := "If-Modified-Since"
  const HOST := "Host"
  const USER_AGENT := "User-Agent"

  // ---------- one line at a time ----------

  /** The next space-separated word and what follows it; None when the words have run out. */
  function NextWord(words: Option<string>): (r: Option<(string, Option<string>)>) {
    match words
    case None => None
    case Some(s) =>
      match SplitOnce(s, ' ')
      case None => Some((s, None))
      case Some((word, rest)) => Some((word, Some(rest)))
  }

  function ParseMethod(word: string): Option<Method> {
    if word == GET then Some(Get) else if word == POST then Some(Post) else None
  }

  function SplitTarget(target: string): (string, string) {
    match SplitOnce(target, '?')
    case None => (target, "")
    case Some((path, query)) => (path, query)
  }

  function ParseRequestLine(line: string): Result<RequestLine, ParseError> {
    match NextWord(Some(line))
    case None => Err(NoMethod)
    case Some((word, words)) =>
      match ParseMethod(word)
      case None => Err(NoMethod)
      case Some(verb) => ParseTarget(verb, words)
  }

  function ParseTarget(verb: Method, words: Option<string>): Result<RequestLine, ParseError> {
    match NextWord(words)
    case None => Err(NoTarget)
    case Some((target, words)) =>
      match NextWord(words)
      case None => Err(NoVersion)
      case Some((version, _)) =>
        var (path, query) := SplitTarget(target);
        Ok(RequestLine(verb, path, query, version))
  }

  function FieldOf(name: string): Field {
    if name == CONTENT_LENGTH then ContentLength
    else if name == IF_MODIFIED_SINCE then IfModifiedSince
    else if name == HOST then Host
    else if name == USER_AGENT then UserAgent
    else NotSupported
  }

  function ParseHeaderLine(line: string): Result<(Field, string), ParseError> {
    match SplitOnce(line, ':')
    case None => Err(NoColon)
    case Some((name, value)) => Ok((FieldOf(name), Trim(value)))
  }

  /** The body length the headers announce: none means zero. */
  function DeclaredLength(headers: Headers): Result<nat, ParseError> {
    if ContentLength !in headers then Ok(0)
    else
      match ParseUnsigned(headers[ContentLength], USIZE_LIMIT)
      case None => Err(BadLength)
      case Some(n) => Ok(n)
  }

  /** The headers announce a body of `n` bytes: by a Content-Length of so many in decimal, within 64 bits, or none. */
  ghost predicate Announces(headers: Headers, n: nat) {
    if ContentLength !in headers then n == 0
    else Spells(headers[ContentLength], n) && n < 18446744073709551616
  }

  lemma DeclaredLengthExactly(headers: Headers, n: nat)
    ensures DeclaredLength(headers) == Ok(n) <==> Announces(headers, n)
  {
    hide ParseUnsigned, Spells;
    if ContentLength in headers {
      UnsignedExactly(headers[ContentLength], USIZE_LIMIT, n);
    }
  }

  lemma NoLengthDeclared(headers: Headers)
    ensures DeclaredLength(headers).Err? <==> forall n: nat :: !Announces(headers, n)
  {
    hide DeclaredLength, Announces;
    forall n: nat
      ensures DeclaredLength(headers) == Ok(n) <==> Announces(headers, n)
    {
      DeclaredLengthExactly(headers, n);
    }
  }

  // ---------- the parser ----------

  predicate AwaitsLine(state: Incremental) {
    state.Unread? || state.LineRead? || state.HeadersRead?
  }

  /** Where one more complete line leads; `rest` is what was buffered behind it. */
  function TakeLine(state: Incremental, line: string, rest: string): (r: Outcome)
    requires AwaitsLine(state)
    ensures r.Ok? ==> !r.value.FullRequest? && r.value.buf == rest
  {
    match state
    case Unread(_) =>
      (match ParseRequestLine(line)
       case Err(e) => Err(e)
       case Ok(requestLine) => Ok(LineRead(requestLine, rest)))
    case LineRead(requestLine, _) => TakeHeader(requestLine, map[], line, rest)
    case HeadersRead(requestLine, headers, _) =>
      if line == "" then
        match DeclaredLength(headers)
        case Err(e) => Err(e)
        case Ok(n) => Ok(BodyRead(requestLine, headers, "", n, rest))
      else TakeHeader(requestLine, headers, line, rest)
  }

  function TakeHeader(requestLine: RequestLine, headers: Headers, line: string, rest: string): (r: Outcome)
    ensures r.Ok? ==> r.value.HeadersRead? && r.value.buf == rest
  {
    match ParseHeaderLine(line)
    case Err(e) => Err(e)
    case Ok((field, value)) => Ok(HeadersRead(requestLine, headers[field := value], rest))
  }

  /** Moves what the body still lacks from `s` into it. */
  function TakeBody(state: Incremental, s: string): Incremental
    requires state.BodyRead?
  {
    var n := if state.bytesLeft < |s| then state.bytesLeft else |s|;
    var body := state.body + s[..n];
    if state.bytesLeft == n then FullRequest(Request(state.line, state.headers, body))
    else BodyRead(state.line, state.headers, body, state.bytesLeft - n, s[n..])
  }

  /** The same state with `buf` as its unread bytes. */
  function WithBuffer(state: Incremental, buf: string): Incremental
    requires !state.FullRequest?
  {
    state.(buf := buf)
  }

  /** Parses as far as the buffer goes. */
  function ParseBuffer(state: Incremental): Outcome
    requires !state.FullRequest?
    decreases |state.buf|
  {
    if state.BodyRead? then Ok(TakeBody(state, state.buf))
    else
      match Find(state.buf, CRLF)
      case None => Ok(state)
      case Some(i) =>
        match TakeLine(state, state.buf[..i], state.buf[i + 2..])
        case Err(e) => Err(e)
        case Ok(next) => ParseBuffer(next)
  }

  function TryParse(latest: string, state: Incremental): Outcome {
    if state.FullRequest? then Err(AlreadyFull)
    else ParseBuffer(WithBuffer(state, state.buf + latest))
  }

  // ---------- what a stored state looks like ----------

  /** States the drivers keep between reads: nothing in the buffer could be parsed further, and a body
      under way accounts for every byte the headers announced. */
  predicate Stored(state: Incremental) {
    match state
    case Unread(buf) => Find(buf, CRLF).None?
    case LineRead(_, buf) => Find(buf, CRLF).None?
    case HeadersRead(_, _, buf) => Find(buf, CRLF).None?
    case BodyRead(_, headers, body, bytesLeft, buf) =>
      buf == "" && bytesLeft > 0 && DeclaredLength(headers) == Ok(|body| + bytesLeft)
    case FullRequest(_) => false
  }

  /** A body under way has so far taken exactly the bytes no longer owed. */
  predicate Accounted(state: Incremental) {
    match state
    case BodyRead(_, headers, body, bytesLeft, _) => DeclaredLength(headers) == Ok(|body| + bytesLeft)
    case FullRequest(request) => DeclaredLength(request.headers) == Ok(|request.body|)
    case _ => true
  }

  lemma TakeBodyAccounts(state: Incremental)
    requires state.BodyRead? && Accounted(state)
    ensures var next := TakeBody(state, state.buf);
            Accounted(next) && (next.FullRequest? || Stored(next))
  {
  }

  lemma TakeLineAccounts(state: Incremental, line: string, rest: string)
    requires AwaitsLine(state)
    ensures var r := TakeLine(state, line, rest);
            r != Err(AlreadyFull) && (r.Ok? ==> Accounted(r.value))
  {
    hide SplitOnce, Trim, FieldOf, ParseUnsigned, ParseMethod;
  }

  lemma {:induction false} BufferInvariant(state: Incremental)
    requires Accounted(state) && !state.FullRequest?
    ensures var r := ParseBuffer(state);
            r.Ok? ==> Accounted(r.value) && (r.value.FullRequest? || Stored(r.value))
    ensures ParseBuffer(state) != Err(AlreadyFull)
    decreases |state.buf|
  {
    hide TakeLine, TakeBody, DeclaredLength, FindFrom;
    var s := state.buf;
    if state.BodyRead? {
      TakeBodyAccounts(state);
    } else if Find(s, CRLF).Some? {
      var i := Find(s, CRLF).value;
      TakeLineAccounts(state, s[..i], s[i + 2..]);
      var next := TakeLine(state, s[..i], s[i + 2..]);
      if next.Ok? {
        BufferInvariant(next.value);
      }
    }
  }

  /** Whatever the parser returns may be stored, unless it is a full request of exactly the announced length. */
  lemma ParserInvariant(latest: string, state: Incremental)
    requires Accounted(state) && !state.FullRequest?
    ensures var r := TryParse(latest, state);
            r.Ok? ==> Accounted(r.value) && (r.value.FullRequest? || Stored(r.value))
    ensures TryParse(latest, state) != Err(AlreadyFull)
    ensures var r := TryParse(latest, state);
            r.Ok? ==>
              match r.value
              case FullRequest(request) => Announces(request.headers, |request.body|)
              case BodyRead(_, headers, body, bytesLeft, _) => Announces(headers, |body| + bytesLeft)
              case _ => true
  {
    BufferInvariant(WithBuffer(state, state.buf + latest));
    AnnouncedIsAccounted(TryParse(latest, state));
  }

  lemma AnnouncedIsAccounted(r: Outcome)
    requires r.Ok? ==> Accounted(r.value)
    ensures r.Ok? ==>
              match r.value
              case FullRequest(request) => Announces(request.headers, |request.body|)
              case BodyRead(_, headers, body, bytesLeft, _) => Announces(headers, |body| + bytesLeft)
              case _ => true
  {
    hide DeclaredLength, Announces;
    if r.Ok? && r.value.FullRequest? {
      DeclaredLengthExactly(r.value.request.headers, |r.value.request.body|);
    } else if r.Ok? && r.value.BodyRead? {
      DeclaredLengthExactly(r.value.headers, |r.value.body| + r.value.bytesLeft);
    }
  }

  // ---------- fragmentation ----------

  /** Goes on with `more` where `first` stopped, unless that was the end. */
  function Continue(first: Outcome, more: string): Outcome {
    if first.Err? || first.value.FullRequest? then first else TryParse(more, first.value)
  }

  /** Parsing what is there and then going on with `more` is parsing it all at once. */
  lemma {:induction false} Resume(state: Incremental, more: string)
    requires !state.FullRequest?
    ensures ParseBuffer(WithBuffer(state, state.buf + more)) == Continue(ParseBuffer(state), more)
    decreases |state.buf|
  {
    hide TakeLine, FindFrom;
    var s := state.buf;
    if state.BodyRead? {
      ResumeBody(state, more);
    } else if Find(s, CRLF).Some? {
      FindAppend(s, more, CRLF);
      var i := Find(s, CRLF).value;
      var rest := s[i + 2..];
      assert (s + more)[..i] == s[..i] && (s + more)[i + 2..] == rest + more;
      TakeLineRest(state, s[..i], rest, s + more, rest + more);
      if TakeLine(state, s[..i], rest).Ok? {
        Resume(TakeLine(state, s[..i], rest).value, more);
      }
    }
  }

  /** What is buffered around a line does not influence what the line means. */
  lemma TakeLineRest(state: Incremental, line: string, a: string, buf: string, b: string)
    requires AwaitsLine(state)
    ensures var r := TakeLine(state, line, a);
            TakeLine(WithBuffer(state, buf), line, b) == if r.Err? then r else Ok(WithBuffer(r.value, b))
  {
    hide ParseHeaderLine, ParseRequestLine, DeclaredLength;
  }

  lemma ResumeBody(state: Incremental, more: string)
    requires state.BodyRead?
    ensures ParseBuffer(WithBuffer(state, state.buf + more)) == Continue(ParseBuffer(state), more)
  {
    if state.bytesLeft <= |state.buf| {
      assert (state.buf + more)[..state.bytesLeft] == state.buf[..state.bytesLeft];
    } else {
      ResumeShortBody(state.line, state.headers, state.body, state.bytesLeft, state.buf, more);
    }
  }

  lemma ResumeShortBody(line: RequestLine, headers: Headers, body: string, left: nat, s: string, more: string)
    requires |s| < left
    ensures var first := ParseBuffer(BodyRead(line, headers, body, left, s));
            first == Ok(BodyRead(line, headers, body + s, left - |s|, ""))
            && ParseBuffer(BodyRead(line, headers, body, left, s + more)) == TryParse(more, first.value)
  {
    TakeBodyTwice(BodyRead(line, headers, body, left, s), s, more);
    assert s[..|s|] == s && s[|s|..] == "" && "" + more == more;
  }

  lemma TakeBodyTwice(state: Incremental, s: string, more: string)
    requires state.BodyRead? && |s| < state.bytesLeft
    ensures TakeBody(state, s + more)
         == TakeBody(BodyRead(state.line, state.headers, state.body + s, state.bytesLeft - |s|, ""), more)
  {
    var k := state.bytesLeft - |s|;
    var n := if k < |more| then k else |more|;
    assert (s + more)[..|s| + n] == s + more[..n];
    assert (state.body + s) + more[..n] == state.body + (s + more[..n]);
    assert (s + more)[|s| + n..] == more[n..];
  }

  lemma ResumeFrom(state: Incremental, a: string, b: string)
    requires !state.FullRequest?
    ensures TryParse(a + b, state) == Continue(TryParse(a, state), b)
  {
    assert (state.buf + a) + b == state.buf + (a + b);
    Resume(WithBuffer(state, state.buf + a), b);
  }

  function Flatten(pieces: seq<string>): string {
    if pieces == [] then "" else pieces[0] + Flatten(pieces[1..])
  }

  /** What both drivers do with the pieces they read: stop at a full request or at the first error. */
  function Feed(pieces: seq<string>, state: Incremental): Outcome {
    if pieces == [] then Ok(state)
    else
      match TryParse(pieces[0], state)
      case Err(e) => Err(e)
      case Ok(next) => if next.FullRequest? then Ok(next) else Feed(pieces[1..], next)
  }

  lemma StoredIsStuck(state: Incremental)
    requires Stored(state)
    ensures TryParse("", state) == Ok(state)
  {
    hide DeclaredLength, FindFrom;
    assert state.buf + "" == state.buf;
    if state.BodyRead? {
      assert state.body + "" == state.body;
    }
  }

  /** However the bytes are cut into reads, the outcome is that of parsing them all at once. */
  lemma {:induction false} FragmentationIndependence(pieces: seq<string>, state: Incremental)
    requires Stored(state)
    ensures Feed(pieces, state) == TryParse(Flatten(pieces), state)
  {
    hide ParseBuffer, DeclaredLength, FindFrom;
    if pieces == [] {
      StoredIsStuck(state);
    } else {
      ResumeFrom(state, pieces[0], Flatten(pieces[1..]));
      ParserInvariant(pieces[0], state);
      var first := TryParse(pieces[0], state);
      if first.Ok? && !first.value.FullRequest? {
        FragmentationIndependence(pieces[1..], first.value);
      }
    }
  }

  /** A request once complete does not depend on bytes that follow it. */
  lemma ParsePrefix(a: string, b: string)
    requires TryParse(a, START).Err? || TryParse(a, START).value.FullRequest?
    ensures TryParse(a + b, START) == TryParse(a, START)
  {
    ResumeFrom(START, a, b);
  }
}

/** The file server of src/files.rs, and how src/host.rs uses its dates to validate a client's copy. */
module Files {
  import opened Text
  import opened Calendar
  import opened Dates
  import opened DateGrammar
  import opened Responses
  import opened Framing

  const NANOS: nat := 1_000_000_000

  type Nanos = n: nat | n < NANOS

  /** A time since the Unix epoch. */
  datatype Duration = Duration(secs: nat, nanos: Nanos)

  // ---------- validators ----------

  /** Times whose date has a year of at most four digits. */
  predicate InRange(m: Duration) {
    DateTimeOf(m.secs + EPOCH).year < 10000
  }

  function DateOf(m: Duration): (d: DateTime)
    requires InRange(m)
    ensures Printable(d)
  {
    hide YearOf, MonthOf, DaysBeforeYear, DaysBeforeMonth;
    SecondsOfDateTime(m.secs + EPOCH);
    DateTimeOf(m.secs + EPOCH)
  }

  /** The Last-Modified date printed for a modification time; the fraction of a second is dropped. */
  function LastModifiedText(m: Duration): string
    requires InRange(m)
  {
    To1123(DateOf(m))
  }

  /** Subtraction of durations; None where it underflows. */
  function Minus(a: Duration, b: Duration): Option<Duration> {
    if a.secs < b.secs || (a.secs == b.secs && a.nanos < b.nanos) then None
    else if a.nanos >= b.nanos then Some(Duration(a.secs - b.secs, a.nanos - b.nanos))
    else Some(Duration(a.secs - b.secs - 1, a.nanos + NANOS - b.nanos))
  }

  /** None where the subtraction panics. */
  function ModifiedSince(disk: Duration, start: Duration): Option<bool> {
    match Minus(disk, start)
    case None => None
    case Some(d) => Some(d.secs > 0)
  }

  datatype Verdict = SendContent | NotModifiedReply | BadRequestReply | Panics

  lemma ParsedIsValid(s: string)
    ensures ParseDate1123(s).Done? ==> Valid(ParseDate1123(s).value)
  {
    hide ParseDigits, ParseName, Discard, MonthLength;
  }

  /** What a conditional GET does with the date it is given and the modification time on disk, if that can be read. */
  function Conditional(value: string, disk: Option<Duration>): Verdict {
    match ParseDate1123(value)
    case Malformed => BadRequestReply
    case Panic => Panics
    case Done(d, _) =>
      ParsedIsValid(value);
      if Seconds(d) < EPOCH then Panics
      else if disk.None? then SendContent
      else
        match ModifiedSince(disk.value, Duration(Seconds(d) - EPOCH, 0))
        case None => Panics
        case Some(modified) => if modified then SendContent else NotModifiedReply
  }

  /** A client that sends back the Last-Modified date it was given is told that nothing changed exactly while the file
      on disk stays within the same second; a later second sends the content; a file set back before it panics. */
  lemma ValidatorRoundTrip(m: Duration, disk: Duration)
    requires InRange(m)
    ensures Conditional(LastModifiedText(m), Some(disk))
         == if disk.secs < m.secs then Panics
            else if disk.secs == m.secs then NotModifiedReply
            else SendContent
  {
    hide ParseDate1123, To1123, Seconds, DateTimeOf, Valid;
    SecondsOfDateTime(m.secs + EPOCH);
    DateRoundTrip(DateOf(m));
  }

  /** A date that cannot be converted, or that of a file older than it; subtracting it panics. */
  predicate IsTooEarly(d: DateTime, disk: Option<Duration>)
    requires Valid(d)
  {
    d.year < 1970 || (disk.Some? && EPOCH + disk.value.secs < Seconds(d))
  }

  /** What a conditional request for an existing date amounts to. */
  function VerdictFor(d: DateTime, disk: Option<Duration>): Verdict
    requires Valid(d)
  {
    if IsTooEarly(d, disk) then Panics
    else if disk.Some? && EPOCH + disk.value.secs == Seconds(d) then NotModifiedReply
    else SendContent
  }

  lemma DatedVerdict(value: string, d: DateTime, disk: Option<Duration>)
    requires IsDated(value, d)
    ensures Valid(d) && Conditional(value, disk) == VerdictFor(d, disk)
  {
    hide ParseDate1123, Seconds, IsDated, IsDate, IsTime;
    AcceptsExactlyDates(value, d);
    ParsedIsValid(value);
    EpochIs1970(d);
  }

  /** The verdict on every text a client can send: whether it panics is a matter of its characters, of the year they
      give, and of the file; and what is neither a date nor makes the parser panic is a bad request. */
  lemma ConditionalPanics(value: string, disk: Option<Duration>)
    ensures Conditional(value, disk) == Panics
        <==> MakesPanic(value) || exists d :: IsDated(value, d) && IsTooEarly(d, disk)
    ensures Conditional(value, disk) == BadRequestReply
        <==> !MakesPanic(value) && forall d :: !IsDated(value, d)
  {
    hide ParseDate1123, Seconds, MakesPanic, Dated, IsDate, IsTime, IsTooEarly;
    PanicsExactly(value);
    var parsed := ParseDate1123(value);
    forall d | IsDated(value, d)
      ensures parsed.Done? && parsed.value == d && Conditional(value, disk) == VerdictFor(d, disk)
    {
      AcceptsExactlyDates(value, d);
      DatedVerdict(value, d, disk);
    }
    if parsed.Done? {
      AcceptsExactlyDates(value, parsed.value);
    }
  }

  /** The verdict on every date as it is printed. */
  lemma PrintedDateVerdict(d: DateTime, disk: Option<Duration>)
    requires Printable(d)
    ensures Conditional(To1123(d), disk) == VerdictFor(d, disk)
  {
    hide ParseDate1123, Seconds, VerdictFor, Conditional, IsDate, IsTime, To1123;
    DateRoundTrip(d);
    AcceptsExactlyDates(To1123(d), d);
    DatedVerdict(To1123(d), d, disk);
  }

  const TOO_SHORT := "x"

  /** Requests that panic whatever is on disk: with a text of one character, and with a date before 1970. */
  lemma RequestsThatPanic(d: DateTime, disk: Option<Duration>)
    requires Printable(d) && d.year < 1970
    ensures Conditional(TOO_SHORT, disk) == Panics
    ensures Conditional(To1123(d), disk) == Panics
  {
    hide Seconds, To1123, IsDate, IsTime;
    ShortTextsPanic();
    PrintedDateVerdict(d, disk);
  }

  // ---------- files and their responses ----------

  datatype File = File(content: string, modified: Duration)

  datatype DiskRead = Found(file: File) | Missing | Unreadable

  const HTTP_VERSION := "HTTP/1.1"
  const TXT := "txt"
  const HTML := "html"
  const JPG := "jpg"
  const TEXT_PLAIN := "text/plain"
  const TEXT_HTML := "text/html"
  const IMAGE_JPEG := "image/jpeg"

  function ContentTypeOf(extension: Option<string>): Option<string> {
    match extension
    case None => None
    case Some(e) =>
      if e == TXT then Some(TEXT_PLAIN)
      else if e == HTML then Some(TEXT_HTML)
      else if e == JPG then Some(IMAGE_JPEG)
      else None
  }

  /** The response with a file's content; the announced length counts the CRLF the writer adds. */
  function FileResponse(file: File, extension: Option<string>): Response
    requires InRange(file.modified)
  {
    var length := Numeral(|file.content| + 2, 10);
    var headers := map[ContentLength := length, LastModified := LastModifiedText(file.modified)];
    var contentType := ContentTypeOf(extension);
    Response(HTTP_VERSION, Success,
             if contentType.Some? then headers[ContentType := contentType.value] else headers, file.content)
  }

  lemma ContentTypesAre(extension: Option<string>)
    ensures ContentTypeOf(extension)
         == if extension == Some("txt") then Some("text/plain")
            else if extension == Some("html") then Some("text/html")
            else if extension == Some("jpg") then Some("image/jpeg")
            else None
  {
  }

  /** The length a file response announces is right exactly when the file is not empty: an empty file is announced
      with two bytes that are never sent. */
  lemma FileFraming(file: File, extension: Option<string>)
    requires InRange(file.modified)
    ensures Framed(FileResponse(file, extension)) <==> file.content != ""
  {
    hide LastModifiedText, Numeral, ContentTypeOf, ParseNumeral, SkipFrom, SkipBack;
    var n := |file.content| + 2;
    var length := Numeral(n, 10);
    assert FileResponse(file, extension).headers[ContentLength] == length;
    NumeralParses(n);
    DecimalRoundTrip(n, U32_LIMIT);
    if UsesChunks(FileResponse(file, extension).headers) {
      assert n > CHUNK_LENGTH;
    } else {
      assert ParseNumeral(Trim(length), 10) == Some(n);
    }
  }

  lemma NumeralParses(n: nat)
    ensures ParseNumeral(Trim(Numeral(n, 10)), 10) == Some(n)
    ensures '\r' !in Numeral(n, 10)
  {
    hide Numeral, TrimBy, ValueOf;
    var s := Numeral(n, 10);
    assert forall i | 0 <= i < |s| :: IsDigit(s[i], 10);
    assert IsTrimmed(s, WHITESPACE) by { DigitsAreTrimmed(s); }
    assert "" + s == s;
    TrimPadded("", s, WHITESPACE);
  }

  lemma DigitsAreTrimmed(s: string)
    requires IsNumeral(s, 10)
    ensures IsTrimmed(s, WHITESPACE)
  {
    assert IsDigit(s[0], 10) && IsDigit(s[|s| - 1], 10);
  }

  const SERVER_NAME := "Rust/0.1"

  /** Every response is stamped with the server's name and the date before it is sent. */
  function Stamped(response: Response, date: DateTime): Response
    requires Printable(date)
  {
    response.(headers := response.headers[Server := SERVER_NAME][Date := To1123(date)])
  }

  /** The response without content: errors, the heartbeat, and that nothing was modified. */
  function EmptyResponse(status: Status): Response {
    Response(HTTP_VERSION, status, map[ContentLength := Numeral(0, 10)], "")
  }

  lemma DateHasNoCr(d: DateTime)
    requires Printable(d)
    ensures '\r' !in To1123(d)
  {
    hide Weekday, DateText, TimeText, To1123, Valid;
    Shape1123(d);
    assert forall i | 0 <= i < 7 :: '\r' !in WEEKDAYS[i];
    assert '\r' !in DateText(d) by { DateTextHasNoCr(d); }
    assert '\r' !in TimeText(d) by { TimeTextHasNoCr(d); }
  }

  lemma DateTextHasNoCr(d: DateTime)
    requires Printable(d)
    ensures '\r' !in DateText(d)
  {
    hide TwoDigits;
    assert forall i | 0 <= i < 12 :: '\r' !in MONTHS[i];
    DaysAreFew(d);
    TwoDigitsHaveNoCr(d.day);
    TwoDigitsHaveNoCr(d.year / 100);
    TwoDigitsHaveNoCr(d.year % 100);
  }

  lemma TimeTextHasNoCr(d: DateTime)
    requires Printable(d)
    ensures '\r' !in TimeText(d)
  {
    hide TwoDigits, MonthLength;
    TwoDigitsHaveNoCr(d.hour);
    TwoDigitsHaveNoCr(d.minute);
    TwoDigitsHaveNoCr(d.second);
  }

  lemma TwoDigitsHaveNoCr(n: nat)
    requires n < 100
    ensures '\r' !in TwoDigits(n)
  {
    assert forall d: nat | d < 16 :: DIGITS[d] != '\r';
  }

  lemma TrimmedHasNoCrlf(s: string)
    requires '\r' !in s
    ensures Find(Trim(s), CRLF).None?
  {
    NoCrNoCrlf(Trim(s));
  }

  predicate NoCr(s: string) {
    '\r' !in s
  }

  predicate PlainValues(headers: Headers) {
    TransferEncoding !in headers && forall f | f in headers :: NoCr(headers[f])
  }

  lemma PlainIsWellFormed(response: Response)
    requires response.version == HTTP_VERSION && PlainValues(response.headers)
    ensures WellFormed(response)
  {
    hide Trim;
    forall f | f in response.headers
      ensures Find(Trim(response.headers[f]), CRLF).None?
    {
      TrimmedHasNoCrlf(response.headers[f]);
    }
  }

  lemma FileHeadersArePlain(file: File, extension: Option<string>)
    requires InRange(file.modified)
    ensures PlainValues(FileResponse(file, extension).headers)
  {
    hide Numeral, LastModifiedText, ContentTypeOf, InRange, NoCr;
    assert NoCr(Numeral(|file.content| + 2, 10)) by { NumeralHasNoCr(|file.content| + 2); }
    LastModifiedHasNoCr(file.modified);
    ContentTypeHasNoCr(extension);
    var headers := FileResponse(file, extension).headers;
    forall f | f in headers
      ensures NoCr(headers[f])
    {
      if f == ContentLength {
        assert headers[f] == Numeral(|file.content| + 2, 10);
      } else if f == LastModified {
        assert headers[f] == LastModifiedText(file.modified);
      } else {
        assert f == ContentType && headers[f] == ContentTypeOf(extension).value;
      }
    }
  }

  lemma NumeralHasNoCr(n: nat)
    ensures NoCr(Numeral(n, 10))
  {
    NumeralParses(n);
  }

  lemma LastModifiedHasNoCr(m: Duration)
    requires InRange(m)
    ensures NoCr(LastModifiedText(m))
  {
    hide To1123, DateTimeOf, Valid;
    DateHasNoCr(DateOf(m));
  }

  lemma ContentTypeHasNoCr(extension: Option<string>)
    ensures ContentTypeOf(extension).Some? ==> NoCr(ContentTypeOf(extension).value)
  {
    assert '\r' !in TEXT_PLAIN && '\r' !in TEXT_HTML && '\r' !in IMAGE_JPEG;
  }

  lemma StampingKeepsPlain(response: Response, date: DateTime)
    requires Printable(date) && PlainValues(response.headers)
    ensures PlainValues(Stamped(response, date).headers)
    ensures ContentLength in response.headers ==> (Framed(Stamped(response, date)) <==> Framed(response))
  {
    hide To1123, Trim, ParseNumeral;
    DateHasNoCr(date);
  }

  /** What the server sends for a file, small or large, is read back whole by an RFC 7230 reader exactly when the file
      is not empty; and then so it is whatever follows on the connection. */
  lemma ServedFileReadsBack(file: File, extension: Option<string>, date: DateTime, order: Order, suffix: string)
    requires InRange(file.modified) && Printable(date)
    requires var sent := Sent(Stamped(FileResponse(file, extension), date)).headers; Enumerates(order(sent), sent)
    ensures ReadsBack(Stamped(FileResponse(file, extension), date), order, "") <==> file.content != ""
    ensures file.content != "" ==> ReadsBack(Stamped(FileResponse(file, extension), date), order, suffix)
  {
    hide ReadsBack, Enumerates, Sent, Framed, PlainValues, WellFormed, LastModifiedText, Numeral, To1123;
    var response := FileResponse(file, extension);
    FileFraming(file, extension);
    FileHeadersArePlain(file, extension);
    StampingKeepsPlain(response, date);
    PlainIsWellFormed(Stamped(response, date));
    SelfDelimitingOnlyIfFramed(Stamped(response, date), order);
    if file.content != "" {
      SelfDelimiting(Stamped(response, date), order, suffix);
    }
  }

  lemma EmptyIsFramed(status: Status)
    ensures Framed(EmptyResponse(status)) && PlainValues(EmptyResponse(status).headers)
  {
    hide Numeral, Trim, ParseNumeral, ParseUnsigned;
    NumeralParses(0);
    DecimalRoundTrip(0, U32_LIMIT);
  }

  /** So is every response without content. */
  lemma EmptyResponseReadsBack(status: Status, date: DateTime, order: Order, suffix: string)
    requires Printable(date)
    requires var sent := Sent(Stamped(EmptyResponse(status), date)).headers; Enumerates(order(sent), sent)
    ensures ReadsBack(Stamped(EmptyResponse(status), date), order, suffix)
  {
    hide ReadsBack, Enumerates, Sent, Framed, PlainValues, WellFormed, Numeral, To1123;
    var response := EmptyResponse(status);
    EmptyIsFramed(status);
    StampingKeepsPlain(response, date);
    PlainIsWellFormed(Stamped(response, date));
    SelfDelimiting(Stamped(response, date), order, suffix);
  }

  /** The answer to a request for the load: a code for "overloaded" or for "fine", and no content. */
  function Heartbeat(overloaded: bool): Response {
    EmptyResponse(if overloaded then ServiceUnavailable else Success)
  }

  // ---------- the cache ----------

  type Cache = map<string, File>

  /** What is served for a path: the first copy ever read, or what is on disk now. */
  function Served(cache: Cache, path: string, disk: DiskRead): Result<File, Status> {
    if path in cache then Ok(cache[path])
    else
      match disk
      case Found(file) => Ok(file)
      case Missing => Err(NotFound)
      case Unreadable => Err(InternalServerError)
  }

  function CacheAfter(cache: Cache, path: string, disk: DiskRead): Cache {
    if path !in cache && disk.Found? then cache[path := disk.file] else cache
  }

  class FileServer {
    var cache: Cache

    predicate Valid()
      reads this
    {
      forall path | path in cache :: InRange(cache[path].modified)
    }

    constructor ()
      ensures Valid() && cache == map[]
    {
      cache := map[];
    }

    method GetContent(path: string, extension: Option<string>, disk: DiskRead)
      returns (response: Result<Response, Status>)
      requires Valid() && (disk.Found? ==> InRange(disk.file.modified))
      modifies this
      ensures Valid() && cache == CacheAfter(old(cache), path, disk)
      ensures match Served(old(cache), path, disk)
              case Ok(file) => InRange(file.modified) && response == Ok(FileResponse(file, extension))
              case Err(status) => response == Err(status)
      ensures response == Err(NotFound) <==> path !in old(cache) && disk == Missing
      ensures response == Err(InternalServerError) <==> path !in old(cache) && disk == Unreadable
      ensures response.Ok? ==>
                && response.value.body == (if path in old(cache) then old(cache)[path] else disk.file).content
                && (ContentType in response.value.headers <==> extension in {Some("txt"), Some("html"), Some("jpg")})
                && (extension == Some("txt") ==> response.value.headers[ContentType] == "text/plain")
                && (extension == Some("html") ==> response.value.headers[ContentType] == "text/html")
                && (extension == Some("jpg") ==> response.value.headers[ContentType] == "image/jpeg")
    {
      hide InRange, LastModifiedText, Numeral, ContentTypeOf;
      ContentTypesAre(extension);
      var file;
      if path in cache {
        file := cache[path];
      } else {
        match disk {
          case Found(f) =>
            cache := cache[path := f];
            file := f;
          case Missing =>
            return Err(NotFound);
          case Unreadable =>
            return Err(InternalServerError);
        }
      }
      response := Ok(FileResponse(file, extension));
    }
  }

  /** Requests for any paths, with whatever the disk holds each time. */
  function CacheAfterAll(cache: Cache, requests: seq<(string, DiskRead)>): Cache
    decreases |requests|
  {
    if requests == [] then cache
    else CacheAfterAll(CacheAfter(cache, requests[0].0, requests[0].1), requests[1..])
  }

  /** What the first successful read of `path` found. */
  function FirstFound(requests: seq<(string, DiskRead)>, path: string): Option<File> {
    if requests == [] then None
    else if requests[0].0 == path && requests[0].1.Found? then Some(requests[0].1.file)
    else FirstFound(requests[1..], path)
  }

  /** The cache holds for every path what its first successful read found, and nothing else. */
  lemma {:induction false} CacheHoldsFirst(cache: Cache, requests: seq<(string, DiskRead)>, path: string)
    ensures var later := CacheAfterAll(cache, requests);
            && (path in later <==> path in cache || FirstFound(requests, path).Some?)
            && (path in later ==>
                  later[path] == if path in cache then cache[path] else FirstFound(requests, path).value)
    decreases |requests|
  {
    if requests == [] {
    } else {
      CacheHoldsFirst(CacheAfter(cache, requests[0].0, requests[0].1), requests[1..], path);
    }
  }

  /** After any requests, what is served for a path is what a server without a cache would serve exactly when no earlier
      read of the path succeeded, or the file is still what the first of them found. */
  lemma ServedIsCurrent(requests: seq<(string, DiskRead)>, path: string, disk: DiskRead)
    ensures Served(CacheAfterAll(map[], requests), path, disk) == Served(map[], path, disk)
        <==> match FirstFound(requests, path)
             case None => true
             case Some(first) => disk == Found(first)
  {
    CacheHoldsFirst(map[], requests, path);
  }

  /** Once a file has been served it is never refreshed: a client that validates its copy is sent the old content under
      the old date again, exactly when the file on disk has changed in a later second. */
  lemma ChangedFileIsServedStale(requests: seq<(string, DiskRead)>, path: string, first: File, now: File)
    requires FirstFound(requests, path) == Some(first) && InRange(first.modified)
    ensures Served(CacheAfterAll(map[], requests), path, Found(now)) == Ok(first)
    ensures Conditional(LastModifiedText(first.modified), Some(now.modified)) == SendContent
        <==> now.modified.secs > first.modified.secs
  {
    hide Conditional, LastModifiedText, InRange;
    CacheHoldsFirst(map[], requests, path);
    ValidatorRoundTrip(first.modified, now.modified);
  }
}

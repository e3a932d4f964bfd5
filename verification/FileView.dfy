/** What a client reads of the responses of src/files.rs and src/host.rs. */
module FileView {
  import opened Text
  import opened Calendar
  import opened Dates
  import opened Responses
  import opened Framing
  import opened ClientView
  import opened Files
  import Rfc7230

  // ---------- values that are read as they are ----------

  lemma Unpadded(s: string)
    requires s == "" || (!IsSpace(s[0]) && !IsSpace(s[|s| - 1]))
    ensures Trim(s) == s
  {
    hide Trim;
    assert s == "" + (s + "");
    assert IsTrimOf(s, s, "", "");
    TrimExactly(s, s);
  }

  lemma NumeralUnpadded(n: nat)
    ensures Trim(Numeral(n, 10)) == Numeral(n, 10)
  {
    hide Trim, Numeral;
    NumeralIs(n, 10);
    Unpadded(Numeral(n, 10));
  }

  lemma DateUnpadded(d: DateTime)
    requires Printable(d)
    ensures Trim(To1123(d)) == To1123(d)
  {
    hide Trim, To1123, DateText, TimeText, Weekday, Valid;
    Shape1123(d);
    var s := To1123(d);
    assert forall w | 0 <= w < 7 :: !IsSpace(WEEKDAYS[w][0]);
    assert s[0] == WEEKDAYS[Weekday(d)][0] && s[|s| - 1] == GMT[2];
    Unpadded(s);
  }

  lemma TypesUnpadded()
    ensures Trim("text/plain") == "text/plain" && Trim("text/html") == "text/html"
    ensures Trim("image/jpeg") == "image/jpeg" && Trim("Rust/0.1") == "Rust/0.1"
  {
    hide Trim;
    Unpadded("text/plain");
    Unpadded("text/html");
    Unpadded("image/jpeg");
    Unpadded("Rust/0.1");
  }

  lemma PrintedIsShort(headers: Headers, n: nat)
    requires ContentLength in headers && headers[ContentLength] == Numeral(n, 10)
    ensures IsShort(headers) <==> n <= 1024
  {
    hide Numeral, ParseUnsigned, IsShort;
    ChunkedUnlessShort(headers);
    DecimalRoundTrip(n, U32_LIMIT);
  }

  // ---------- files ----------

  function TypeFor(extension: Option<string>): seq<string> {
    if extension == Some("txt") then ["text/plain"]
    else if extension == Some("html") then ["text/html"]
    else if extension == Some("jpg") then ["image/jpeg"]
    else []
  }

  /** What a client reads of a file: its content, type and date, and its length if that is short. */
  ghost predicate ShowsFile(message: Rfc7230.Message, file: File, extension: Option<string>, date: DateTime)
    requires InRange(file.modified) && Printable(date)
  {
    var n := |file.content| + 2;
    && message.version == "HTTP/1.1" && message.status == "200 OK"
    && message.body == (if n <= 1024 then file.content + "\r\n" else file.content)
    && Rfc7230.Values(message.fields, "Content-Length") == (if n <= 1024 then [Numeral(n, 10)] else [])
    && Rfc7230.Values(message.fields, "Transfer-Encoding") == (if n <= 1024 then [] else ["chunked"])
    && Rfc7230.Values(message.fields, "Content-Type") == TypeFor(extension)
    && Rfc7230.Values(message.fields, "Last-Modified") == [To1123(DateOf(file.modified))]
    && Rfc7230.Values(message.fields, "Server") == ["Rust/0.1"]
    && Rfc7230.Values(message.fields, "Date") == [To1123(date)]
  }

  lemma StampedFile(file: File, extension: Option<string>, date: DateTime)
    requires InRange(file.modified) && Printable(date) && file.content != ""
    ensures var response, n := Stamped(FileResponse(file, extension), date), |file.content| + 2;
            && response.version == "HTTP/1.1" && response.status == Success && response.body == file.content
            && (IsShort(response.headers) <==> n <= 1024)
            && ValuesShown(response, ContentLength) == (if n <= 1024 then [Numeral(n, 10)] else [])
            && ValuesShown(response, TransferEncoding) == (if n <= 1024 then [] else ["chunked"])
            && ValuesShown(response, ContentType) == TypeFor(extension)
            && ValuesShown(response, LastModified) == [To1123(DateOf(file.modified))]
            && ValuesShown(response, Server) == ["Rust/0.1"]
            && ValuesShown(response, Field.Date) == [To1123(date)]
  {
    hide Trim, Numeral, To1123, DateOf, InRange, Printable, ContentTypeOf, IsShort;
    var response, n := Stamped(FileResponse(file, extension), date), |file.content| + 2;
    PrintedIsShort(response.headers, n);
    ContentTypesAre(extension);
    NumeralUnpadded(n);
    TypesUnpadded();
    DateUnpadded(date);
    DateUnpadded(DateOf(file.modified));
  }

  /** A client that asks for a file that is not empty reads it, with the right type, length and dates. */
  lemma ServedFileIsRead(file: File, extension: Option<string>, date: DateTime, order: Order, suffix: string)
    requires InRange(file.modified) && Printable(date) && file.content != ""
    requires var sent := Sent(Stamped(FileResponse(file, extension), date)).headers; Enumerates(order(sent), sent)
    ensures var bytes := ResponseText(Stamped(FileResponse(file, extension), date), order);
            var read := Rfc7230.ReadMessage(bytes + suffix);
            read.Some? && read.value.1 == suffix && ShowsFile(read.value.0, file, extension, date)
  {
    hide Enumerates, Sent, Framed, PlainValues, WellFormed, ResponseText, Rfc7230.ReadMessage, Rfc7230.Values, InRange,
         Printable, Stamped, FileResponse, ValuesShown, IsShort, TypeFor, To1123, DateOf, Numeral;
    var response := FileResponse(file, extension);
    var stamped := Stamped(response, date);
    FileIsWellFramed(file, extension, date);
    ClientReads(stamped, order, suffix);
    StampedFile(file, extension, date);
    var message := Rfc7230.ReadMessage(ResponseText(stamped, order) + suffix).value.0;
    assert forall field :: Rfc7230.Values(message.fields, FieldName(field)) == ValuesShown(stamped, field);
    assert Rfc7230.Values(message.fields, FieldName(ContentLength)) == ValuesShown(stamped, ContentLength);
    assert Rfc7230.Values(message.fields, FieldName(TransferEncoding)) == ValuesShown(stamped, TransferEncoding);
    assert Rfc7230.Values(message.fields, FieldName(ContentType)) == ValuesShown(stamped, ContentType);
    assert Rfc7230.Values(message.fields, FieldName(LastModified)) == ValuesShown(stamped, LastModified);
    assert Rfc7230.Values(message.fields, FieldName(Server)) == ValuesShown(stamped, Server);
    assert Rfc7230.Values(message.fields, FieldName(Field.Date)) == ValuesShown(stamped, Field.Date);
  }

  lemma FileIsWellFramed(file: File, extension: Option<string>, date: DateTime)
    requires InRange(file.modified) && Printable(date) && file.content != ""
    ensures var stamped := Stamped(FileResponse(file, extension), date); WellFormed(stamped) && Framed(stamped)
  {
    hide Framed, PlainValues, WellFormed, LastModifiedText, Numeral, To1123;
    FileFraming(file, extension);
    FileHeadersArePlain(file, extension);
    StampingKeepsPlain(FileResponse(file, extension), date);
    PlainIsWellFormed(Stamped(FileResponse(file, extension), date));
  }

  // ---------- responses without content ----------

  /** What a client reads of a response without content: the code asked for, and that nothing follows. */
  ghost predicate ShowsNothing(message: Rfc7230.Message, status: Status, date: DateTime)
    requires Printable(date)
  {
    && message.version == "HTTP/1.1" && message.status == Registered(status) && message.body == ""
    && Rfc7230.Values(message.fields, "Content-Length") == ["0"]
    && Rfc7230.Values(message.fields, "Server") == ["Rust/0.1"]
    && Rfc7230.Values(message.fields, "Date") == [To1123(date)]
  }

  lemma ZeroIs()
    ensures Numeral(0, 10) == "0"
  {
    assert SplitLast(0, 10) == (0, 0);
    assert "" + [DigitChar(0)] == "0";
  }

  lemma StampedEmpty(status: Status, date: DateTime)
    requires Printable(date)
    ensures var response := Stamped(EmptyResponse(status), date);
            && response.version == "HTTP/1.1" && response.status == status && response.body == ""
            && IsShort(response.headers)
            && ValuesShown(response, ContentLength) == ["0"]
            && ValuesShown(response, Server) == ["Rust/0.1"]
            && ValuesShown(response, Field.Date) == [To1123(date)]
  {
    hide Trim, Numeral, To1123, Printable, IsShort;
    PrintedIsShort(Stamped(EmptyResponse(status), date).headers, 0);
    ZeroIs();
    NumeralUnpadded(0);
    TypesUnpadded();
    DateUnpadded(date);
  }

  /** Every response without content is read as that, under the code it was made for. */
  lemma EmptyResponseIsRead(status: Status, date: DateTime, order: Order, suffix: string)
    requires Printable(date)
    requires var sent := Sent(Stamped(EmptyResponse(status), date)).headers; Enumerates(order(sent), sent)
    ensures var read := Rfc7230.ReadMessage(ResponseText(Stamped(EmptyResponse(status), date), order) + suffix);
            read.Some? && read.value.1 == suffix && ShowsNothing(read.value.0, status, date)
  {
    hide Enumerates, Sent, Framed, PlainValues, WellFormed, ResponseText, Rfc7230.ReadMessage, Rfc7230.Values,
         Printable, Stamped, EmptyResponse, ValuesShown, IsShort, To1123, Registered;
    var stamped := Stamped(EmptyResponse(status), date);
    EmptyIsWellFramed(status, date);
    ClientReads(stamped, order, suffix);
    StampedEmpty(status, date);
    var message := Rfc7230.ReadMessage(ResponseText(stamped, order) + suffix).value.0;
    assert Rfc7230.Values(message.fields, FieldName(ContentLength)) == ValuesShown(stamped, ContentLength);
    assert Rfc7230.Values(message.fields, FieldName(Server)) == ValuesShown(stamped, Server);
    assert Rfc7230.Values(message.fields, FieldName(Field.Date)) == ValuesShown(stamped, Field.Date);
  }

  lemma EmptyIsWellFramed(status: Status, date: DateTime)
    requires Printable(date)
    ensures var stamped := Stamped(EmptyResponse(status), date); WellFormed(stamped) && Framed(stamped)
  {
    hide Framed, PlainValues, WellFormed, Numeral, To1123;
    EmptyIsFramed(status);
    StampingKeepsPlain(EmptyResponse(status), date);
    PlainIsWellFormed(Stamped(EmptyResponse(status), date));
  }

  /** A client that asks for the load reads 503 exactly when the load flag was up, and 200 otherwise. */
  lemma HeartbeatIsRead(overloaded: bool, date: DateTime, order: Order, suffix: string)
    requires Printable(date)
    requires var sent := Sent(Stamped(Heartbeat(overloaded), date)).headers; Enumerates(order(sent), sent)
    ensures var read := Rfc7230.ReadMessage(ResponseText(Stamped(Heartbeat(overloaded), date), order) + suffix);
            && read.Some?
            && read.value.0.status == if overloaded then "503 Service Unavailable" else "200 OK"
  {
    hide Enumerates, Sent, ResponseText, Rfc7230.ReadMessage, Printable, Stamped, EmptyResponse, To1123;
    EmptyResponseIsRead(if overloaded then ServiceUnavailable else Success, date, order, suffix);
  }
}

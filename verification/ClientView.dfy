/** What a client reads of a response, by the names and codes that are registered for HTTP. */
module ClientView {
  import opened Text
  import opened Responses
  import opened Framing
  import Rfc7230

  /** Status codes and reason phrases, as in section 6.1 of RFC 7231. */
  function Registered(status: Status): string {
    match status
    case Success => "200 OK"
    case NotModified => "304 Not Modified"
    case BadRequest => "400 Bad Request"
    case Forbidden => "403 Forbidden"
    case NotFound => "404 Not Found"
    case InternalServerError => "500 Internal Server Error"
    case ServiceUnavailable => "503 Service Unavailable"
  }

  /** Header field names, as in section 8.3.1 of RFC 7231, section 4.1 of RFC 7232 and section 8.1 of RFC 7230. */
  function FieldName(field: Field): string {
    match field
    case ContentLength => "Content-Length"
    case ContentType => "Content-Type"
    case Date => "Date"
    case LastModified => "Last-Modified"
    case Server => "Server"
    case TransferEncoding => "Transfer-Encoding"
  }

  lemma StatusesAreRegistered(status: Status)
    ensures StatusText(status) == Registered(status)
  {
  }

  lemma NamesAreRegistered(field: Field)
    ensures NameOf(field) == FieldName(field)
  {
  }

  /** The headers announce at most 1024 bytes. */
  ghost predicate IsShort(headers: Headers) {
    ContentLength in headers && exists n: nat :: n <= 1024 && Spells(headers[ContentLength], n)
  }

  /** The body is chunked unless it is announced to be short. */
  lemma ChunkedUnlessShort(headers: Headers)
    ensures UsesChunks(headers) <==> !IsShort(headers)
  {
    hide ParseUnsigned, Spells;
    if ContentLength in headers {
      var parsed := ParseUnsigned(headers[ContentLength], U32_LIMIT);
      forall n: nat
        ensures parsed == Some(n) <==> Spells(headers[ContentLength], n) && n < U32_LIMIT
      {
        UnsignedExactly(headers[ContentLength], U32_LIMIT, n);
      }
    }
  }

  /** The values a client finds for a field: the header's own, but a chunked body comes with its coding in place of its
      length. */
  ghost function ValuesShown(response: Response, field: Field): seq<string> {
    if field == TransferEncoding then (if IsShort(response.headers) then [] else ["chunked"])
    else if field == ContentLength && !IsShort(response.headers) then []
    else if field in response.headers then [Trim(response.headers[field])]
    else []
  }

  /** The body a client finds: a short one that is not empty has a line end behind it. */
  ghost function BodyShown(response: Response): string {
    if !IsShort(response.headers) then response.body
    else if response.body == "" then ""
    else response.body + "\r\n"
  }

  ghost predicate IsFieldName(name: string) {
    exists field :: name == FieldName(field)
  }

  /** The message is the response, by registered codes and names, with no field besides. */
  ghost predicate Conveys(message: Rfc7230.Message, response: Response) {
    && message.version == response.version
    && message.status == Registered(response.status)
    && (forall field :: Rfc7230.Values(message.fields, FieldName(field)) == ValuesShown(response, field))
    && (forall i | 0 <= i < |message.fields| :: IsFieldName(message.fields[i].0))
    && message.body == BodyShown(response)
  }

  lemma FieldsFound(response: Response, order: seq<Field>, field: Field)
    requires WellFormed(response) && Enumerates(order, Sent(response).headers)
    ensures Rfc7230.Values(Fields(order, Sent(response).headers), FieldName(field)) == ValuesShown(response, field)
  {
    hide Trim, Fields, Rfc7230.Values, UsesChunks, IsShort, NameOf, FieldName;
    ChunkedUnlessShort(response.headers);
    NamesAreRegistered(field);
    assert field in order <==> field in Sent(response).headers;
    LookUp(order, Sent(response).headers, field);
    TrimChunked();
  }

  lemma OnlyNames(order: seq<Field>, headers: Headers)
    requires forall i | 0 <= i < |order| :: order[i] in headers
    ensures var fields := Fields(order, headers);
            forall i | 0 <= i < |fields| :: IsFieldName(fields[i].0)
  {
    hide NameOf, FieldName, Trim;
    var fields := Fields(order, headers);
    forall i | 0 <= i < |fields|
      ensures IsFieldName(fields[i].0)
    {
      NamesAreRegistered(order[i]);
      assert fields[i].0 == FieldName(order[i]);
    }
  }

  lemma SentIsConveyed(response: Response, order: Order)
    requires WellFormed(response) && Enumerates(order(Sent(response).headers), Sent(response).headers)
    ensures Conveys(AsMessage(response, order), response)
  {
    hide WellFormed, Sent, Fields, StatusText, Registered, FieldName, ValuesShown, IsShort, UsesChunks, Rfc7230.Values;
    StatusesAreRegistered(response.status);
    ChunkedUnlessShort(response.headers);
    OnlyNames(order(Sent(response).headers), Sent(response).headers);
    forall field
      ensures Rfc7230.Values(AsMessage(response, order).fields, FieldName(field)) == ValuesShown(response, field)
    {
      FieldsFound(response, order(Sent(response).headers), field);
    }
  }

  /** From what is written for a well-framed response, whatever its header order and whatever follows, a client reads
      the registered code of its status, its headers under their registered names, and its body. */
  lemma ClientReads(response: Response, order: Order, suffix: string)
    requires WellFormed(response) && Framed(response)
    requires Enumerates(order(Sent(response).headers), Sent(response).headers)
    ensures var read := Rfc7230.ReadMessage(ResponseText(response, order) + suffix);
            read.Some? && read.value.1 == suffix && Conveys(read.value.0, response)
  {
    hide WellFormed, Framed, Enumerates, Sent, ResponseText, AsMessage, Conveys, Rfc7230.ReadMessage;
    SelfDelimiting(response, order, suffix);
    SentIsConveyed(response, order);
  }

  // ---------- chunks ----------

  lemma SizeOfOneChunk(data: string, rest: string)
    requires data != ""
    ensures Rfc7230.ReadSizes(Chunk(data) + rest)
         == match Rfc7230.ReadSizes(rest)
            case None => None
            case Some(sizes) => Some([|data|] + sizes)
  {
    hide Numeral, Rfc7230.ChunkSize, FindFrom, Find;
    var behind := data + CRLF + rest;
    var s := Numeral(|data|, 16) + CRLF + behind;
    assert Chunk(data) + rest == s;
    ReadSize(|data|, behind);
    assert behind[|data|..|data| + 2] == CRLF;
    assert behind[|data| + 2..] == rest;
  }

  lemma NoSizeOfLastChunk(suffix: string)
    ensures Rfc7230.ReadSizes(Chunk("") + suffix) == Some([])
  {
    hide Numeral, Rfc7230.ChunkSize, FindFrom, Find;
    var behind := CRLF + suffix;
    assert Chunk("") + suffix == Numeral(0, 16) + CRLF + behind;
    ReadSize(0, behind);
  }

  /** As many chunks of 1024 bytes as there are, and one with what remains, if anything does. */
  function SizesFor(n: nat): seq<nat> {
    seq(n / 1024, _ => 1024) + if n % 1024 == 0 then [] else [n % 1024]
  }

  lemma SizesForMore(n: nat)
    ensures SizesFor(n + 1024) == [1024] + SizesFor(n)
  {
    assert (n + 1024) / 1024 == n / 1024 + 1 && (n + 1024) % 1024 == n % 1024;
  }

  lemma {:induction false} ChunksAreFull(body: string, suffix: string)
    ensures Rfc7230.ReadSizes(ChunkedBody(body) + suffix) == Some(SizesFor(|body|))
    decreases |body|
  {
    hide Rfc7230.ReadSizes, Chunk, SizesFor;
    if |body| < 1024 {
      NoSizeOfLastChunk(suffix);
      ShortSizes(|body|);
      if body != "" {
        assert ChunkedBody(body) + suffix == Chunk(body) + (Chunk("") + suffix);
        SizeOfOneChunk(body, Chunk("") + suffix);
        assert [|body|] + [] == [|body|];
      }
    } else {
      var data, rest := body[..1024], body[1024..];
      assert ChunkedBody(body) + suffix == Chunk(data) + (ChunkedBody(rest) + suffix);
      SizeOfOneChunk(data, ChunkedBody(rest) + suffix);
      ChunksAreFull(rest, suffix);
      SizesForMore(|rest|);
    }
  }

  lemma ShortSizes(n: nat)
    requires n < 1024
    ensures SizesFor(n) == if n == 0 then [] else [n]
  {
  }

  // ---------- the bytes themselves ----------

  /** Field lines with one space behind the colon. */
  function Lines(fields: seq<(string, string)>): string {
    if fields == [] then "" else fields[0].0 + ": " + fields[0].1 + "\r\n" + Lines(fields[1..])
  }

  lemma {:induction false} LinesAre(fields: seq<(string, string)>)
    ensures FieldLines(fields) == Lines(fields)
  {
    if fields == [] {
    } else {
      LinesAre(fields[1..]);
      assert FieldLine(fields[0]) == fields[0].0 + ": " + fields[0].1;
    }
  }

  /** The header block byte for byte: version, a space, the registered status, and a line for each field. */
  lemma HeaderBytes(response: Response, order: seq<Field>)
    requires Enumerates(order, response.headers)
    ensures HeaderText(response, order)
         == response.version + " " + Registered(response.status) + "\r\n" + Lines(Fields(order, response.headers))
    ensures forall i | 0 <= i < |order| ::
              Fields(order, response.headers)[i] == (FieldName(order[i]), Trim(response.headers[order[i]]))
  {
    hide StatusText, Registered, NameOf, FieldName, FieldLines, Lines, Trim;
    StatusesAreRegistered(response.status);
    LinesAre(Fields(order, response.headers));
    forall i | 0 <= i < |order|
      ensures Fields(order, response.headers)[i] == (FieldName(order[i]), Trim(response.headers[order[i]]))
    {
      NamesAreRegistered(order[i]);
    }
  }
}

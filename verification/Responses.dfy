/** The response writer of src/http.rs: plain or chunked framing, headers in whatever order the map yields. */
module Responses {
  import opened Text

  datatype Status =
    | Success | NotModified | BadRequest | Forbidden | NotFound | InternalServerError | ServiceUnavailable

  datatype Field = ContentLength | ContentType | Date | LastModified | Server | TransferEncoding

  type Headers = map<Field, string>

  datatype Response = Response(version: string, status: Status, headers: Headers, body: string)

  /** The order in which iterating over a hash map yields its keys. */
  type Order = Headers -> seq<Field>

  const CHUNK_LENGTH: nat := 1024
  const U32_LIMIT: nat := 0x1_0000_0000

  const OK := "200 OK"
  const NOT_MODIFIED := "304 Not Modified"
  const BAD_REQUEST := "400 Bad Request"
  const FORBIDDEN := "403 Forbidden"
  const NOT_FOUND := "404 Not Found"
  const INTERNAL_SERVER_ERROR := "500 Internal Server Error"
  const SERVICE_UNAVAILABLE := "503 Service Unavailable"

  const CONTENT_LENGTH := "Content-Length"
  const CONTENT_TYPE := "Content-Type"
  const DATE := "Date"
  const LAST_MODIFIED := "Last-Modified"
  const SERVER := "Server"
  const TRANSFER_ENCODING := "Transfer-Encoding"

  const CHUNKED := "chunked"

  function StatusText(status: Status): string {
    match status
    case Success => OK
    case NotModified => NOT_MODIFIED
    case BadRequest => BAD_REQUEST
    case Forbidden => FORBIDDEN
    case NotFound => NOT_FOUND
    case InternalServerError => INTERNAL_SERVER_ERROR
    case ServiceUnavailable => SERVICE_UNAVAILABLE
  }

  function NameOf(field: Field): string {
    match field
    case ContentLength => CONTENT_LENGTH
    case ContentType => CONTENT_TYPE
    case Date => DATE
    case LastModified => LAST_MODIFIED
    case Server => SERVER
    case TransferEncoding => TRANSFER_ENCODING
  }

  /** `order` lists the keys of `headers`, each once. */
  predicate Enumerates(order: seq<Field>, headers: Headers) {
    && (forall i | 0 <= i < |order| :: order[i] in headers)
    && (forall field | field in headers :: field in order)
    && (forall i, j | 0 <= i < j < |order| :: order[i] != order[j])
  }

  ghost predicate IsOrder(order: Order) {
    forall headers :: Enumerates(order(headers), headers)
  }

  // ---------- what is written ----------

  /** Header fields as names and trimmed values, in the order they are written. */
  function Fields(order: seq<Field>, headers: Headers): seq<(string, string)>
    requires forall i | 0 <= i < |order| :: order[i] in headers
  {
    seq(|order|, i requires 0 <= i < |order| => (NameOf(order[i]), Trim(headers[order[i]])))
  }

  function FieldLine(field: (string, string)): string {
    field.0 + [':'] + (" " + field.1)
  }

  function FieldLines(fields: seq<(string, string)>): string {
    if fields == [] then "" else FieldLine(fields[0]) + CRLF + FieldLines(fields[1..])
  }

  function StatusLine(response: Response): string {
    response.version + [' '] + StatusText(response.status)
  }

  function HeaderText(response: Response, order: seq<Field>): string
    requires Enumerates(order, response.headers)
  {
    StatusLine(response) + CRLF + FieldLines(Fields(order, response.headers))
  }

  function Chunk(data: string): string {
    Numeral(|data|, 16) + CRLF + (data + CRLF)
  }

  /** Full-length chunks, the remainder if there is one, and the empty last chunk. */
  function ChunkedBody(body: string): string {
    if |body| >= CHUNK_LENGTH then Chunk(body[..CHUNK_LENGTH]) + ChunkedBody(body[CHUNK_LENGTH..])
    else if body != "" then Chunk(body) + Chunk("")
    else Chunk("")
  }

  function PlainBody(body: string): string {
    if body == "" then "" else body + CRLF
  }

  /** Chunks are used unless the headers announce, readably, at most `CHUNK_LENGTH` bytes. */
  predicate UsesChunks(headers: Headers) {
    if ContentLength !in headers then true
    else
      match ParseUnsigned(headers[ContentLength], U32_LIMIT)
      case None => true
      case Some(n) => n > CHUNK_LENGTH
  }

  function ChunkedHeaders(headers: Headers): Headers {
    (headers - {ContentLength})[TransferEncoding := CHUNKED]
  }

  function ResponseText(response: Response, order: Order): string
    requires Enumerates(order(Sent(response).headers), Sent(response).headers)
  {
    HeaderText(Sent(response), order(Sent(response).headers)) + (CRLF + BodyText(response))
  }

  /** The response with the header map that is actually written. */
  function Sent(response: Response): Response {
    if UsesChunks(response.headers) then response.(headers := ChunkedHeaders(response.headers)) else response
  }

  function BodyText(response: Response): string {
    if UsesChunks(response.headers) then ChunkedBody(response.body) else PlainBody(response.body)
  }

  // ---------- the writer ----------

  method WriteResponse(response: Response, order: Order) returns (bytes: string)
    requires Enumerates(order(Sent(response).headers), Sent(response).headers)
    ensures bytes == ResponseText(response, order)
  {
    hide UsesChunks, Enumerates, HeaderText;
    if UsesChunks(response.headers) {
      bytes := WriteChunked(response, order);
    } else {
      bytes := PrintHeader(response, order(response.headers));
      ghost var header := bytes;
      bytes := bytes + CRLF;
      if response.body != "" {
        bytes := bytes + response.body;
        bytes := bytes + CRLF;
      }
      assert bytes == header + (CRLF + PlainBody(response.body));
    }
  }

  /** The header block; one line for each header, as the map yields them. */
  method PrintHeader(response: Response, order: seq<Field>) returns (text: string)
    requires Enumerates(order, response.headers)
    ensures text == HeaderText(response, order)
  {
    hide Trim, NameOf, StatusText;
    ghost var fields := Fields(order, response.headers);
    text := response.version + " " + StatusText(response.status) + CRLF;
    assert text == StatusLine(response) + CRLF;
    for i := 0 to |order|
      invariant text + FieldLines(fields[i..]) == HeaderText(response, order)
    {
      ghost var before := text;
      text := text + NameOf(order[i]) + ": " + Trim(response.headers[order[i]]) + CRLF;
      PrintedField(before, fields, i, text);
    }
    assert fields[|order|..] == [] && text + "" == text;
  }

  lemma PrintedField(before: string, fields: seq<(string, string)>, i: nat, text: string)
    requires i < |fields|
    requires text == before + fields[i].0 + ": " + fields[i].1 + CRLF
    ensures text + FieldLines(fields[i + 1..]) == before + FieldLines(fields[i..])
  {
    assert text == before + (FieldLine(fields[i]) + CRLF);
    assert fields[i..][1..] == fields[i + 1..];
  }

  method WriteChunked(response: Response, order: Order) returns (bytes: string)
    requires UsesChunks(response.headers)
    requires Enumerates(order(Sent(response).headers), Sent(response).headers)
    ensures bytes == ResponseText(response, order)
  {
    hide UsesChunks, Enumerates, HeaderText, Chunk;
    var headers := ChunkedHeaders(response.headers);
    bytes := PrintHeader(response.(headers := headers), order(headers));
    bytes := bytes + CRLF;
    ghost var head := bytes;
    var rest := response.body;
    while |rest| >= CHUNK_LENGTH
      invariant bytes + ChunkedBody(rest) == head + ChunkedBody(response.body)
    {
      bytes := WriteChunk(rest[..CHUNK_LENGTH], CHUNK_LENGTH, bytes);
      rest := rest[CHUNK_LENGTH..];
    }
    if |rest| > 0 {
      bytes := WriteChunk(rest, |rest|, bytes);
    }
    bytes := WriteChunk("", 0, bytes);
    assert bytes == head + ChunkedBody(response.body);
  }

  method WriteChunk(chunk: string, length: nat, bytes: string) returns (r: string)
    requires length == |chunk|
    ensures r == bytes + Chunk(chunk)
  {
    r := bytes + Numeral(length, 16);
    r := r + CRLF;
    r := r + chunk;
    r := r + CRLF;
  }
}

/** What the response writer sends, an RFC 7230 reader reads back. */
module Framing {
  import opened Text
  import opened Responses
  import Rfc7230

  // ---------- chunked coding ----------

  lemma NumeralIsLine(s: string, base: nat)
    requires IsNumeral(s, base)
    ensures Find(s, CRLF).None? && ';' !in s
  {
    assert forall i | 0 <= i < |s| :: IsDigit(s[i], base);
    NoCrNoCrlf(s);
  }

  lemma ReadSize(n: nat, rest: string)
    ensures var s := Numeral(n, 16) + CRLF + rest;
            Find(s, CRLF) == Some(|Numeral(n, 16)|)
            && Rfc7230.ChunkSize(s[..|Numeral(n, 16)|]) == Some(n)
            && s[|Numeral(n, 16)| + 2..] == rest
  {
    hide FindFrom;
    var size := Numeral(n, 16);
    NumeralIsLine(size, 16);
    FindLineEnd(size, rest);
    assert (size + CRLF + rest)[..|size|] == size;
  }

  lemma ReadOneChunk(data: string, rest: string)
    requires data != ""
    ensures Rfc7230.ReadChunks(Chunk(data) + rest)
         == match Rfc7230.ReadChunks(rest)
            case None => None
            case Some((body, after)) => Some((data + body, after))
  {
    hide Numeral, Rfc7230.ChunkSize, FindFrom, Find;
    var behind := data + CRLF + rest;
    var s := Numeral(|data|, 16) + CRLF + behind;
    assert Chunk(data) + rest == s;
    ReadSize(|data|, behind);
    assert behind[|data|..|data| + 2] == CRLF;
    assert behind[..|data|] == data && behind[|data| + 2..] == rest;
    assert Rfc7230.ReadChunks(s) == Rfc7230.ReadChunkData(|data|, behind, s);
  }

  lemma ReadLastChunk(suffix: string)
    ensures Rfc7230.ReadChunks(Chunk("") + suffix) == Some(("", suffix))
  {
    hide Numeral, Rfc7230.ChunkSize, FindFrom;
    var behind := CRLF + suffix;
    var s := Numeral(0, 16) + CRLF + behind;
    assert Chunk("") + suffix == s;
    ReadSize(0, behind);
    FindLineEnd("", suffix);
    assert "" + CRLF + suffix == behind && behind[2..] == suffix;
    assert Rfc7230.ReadFields(behind) == Some(([], suffix));
    assert Rfc7230.ReadChunks(s) == Rfc7230.ReadTrailer(behind);
  }

  /** Decoding what was chunked gives back the body, and leaves exactly what was sent after it. */
  lemma {:induction false} ChunkedRoundTrip(body: string, suffix: string)
    ensures Rfc7230.ReadChunks(ChunkedBody(body) + suffix) == Some((body, suffix))
    decreases |body|
  {
    hide Rfc7230.ReadChunks, Chunk;
    if |body| >= CHUNK_LENGTH {
      var data, rest := body[..CHUNK_LENGTH], body[CHUNK_LENGTH..];
      assert ChunkedBody(body) + suffix == Chunk(data) + (ChunkedBody(rest) + suffix);
      ReadOneChunk(data, ChunkedBody(rest) + suffix);
      ChunkedRoundTrip(rest, suffix);
      assert data + rest == body;
    } else {
      ReadLastChunk(suffix);
      if body != "" {
        assert ChunkedBody(body) + suffix == Chunk(body) + (Chunk("") + suffix);
        ReadOneChunk(body, Chunk("") + suffix);
        assert body + "" == body;
      }
    }
  }

  // ---------- header block ----------

  predicate Readable(field: (string, string)) {
    && field.0 != "" && ':' !in field.0 && '\r' !in field.0
    && Find(field.1, CRLF).None? && IsTrimmed(field.1, Rfc7230.OWS)
  }

  lemma FieldLineIsLine(field: (string, string))
    requires Readable(field)
    ensures Find(FieldLine(field), CRLF).None?
  {
    hide FindFrom;
    var head := field.0 + ": ";
    assert FieldLine(field) == head + field.1;
    FindFirst(FieldLine(field), CRLF);
    FindFirst(field.1, CRLF);
    if Find(FieldLine(field), CRLF).Some? {
      CrlfInTail(head, field.1, Find(FieldLine(field), CRLF).value);
    }
  }

  lemma {:induction false} ReadPrintedFields(fields: seq<(string, string)>, rest: string)
    requires forall i | 0 <= i < |fields| :: Readable(fields[i])
    ensures Rfc7230.ReadFields(FieldLines(fields) + (CRLF + rest)) == Some((fields, rest))
    decreases |fields|
  {
    hide FindFrom, Find, Readable, TrimBy, FieldLine;
    var s := FieldLines(fields) + (CRLF + rest);
    if fields == [] {
      NoFields(rest);
      assert s == CRLF + rest;
    } else {
      var line := FieldLine(fields[0]);
      var behind := FieldLines(fields[1..]) + (CRLF + rest);
      assert s == line + CRLF + behind;
      FieldLineIsLine(fields[0]);
      FindLineEnd(line, behind);
      assert s[..|line|] == line && s[|line| + 2..] == behind;
      ReadFieldLine(fields[0]);
      ReadPrintedFields(fields[1..], rest);
      assert [fields[0]] + fields[1..] == fields;
    }
  }

  lemma NoFields(rest: string)
    ensures Rfc7230.ReadFields(CRLF + rest) == Some(([], rest))
  {
    FindLineEnd("", rest);
    assert "" + CRLF + rest == CRLF + rest;
  }

  lemma ReadFieldLine(field: (string, string))
    requires Readable(field)
    ensures FieldLine(field) != ""
    ensures SplitOnce(FieldLine(field), ':') == Some((field.0, " " + field.1))
    ensures TrimBy(" " + field.1, Rfc7230.OWS) == field.1
  {
    SplitOnceAt(field.0, ':', " " + field.1);
    TrimPadded(" ", field.1, Rfc7230.OWS);
  }

  // ---------- looking fields up ----------

  lemma NamesDiffer(f: Field, g: Field)
    ensures Rfc7230.Lower(NameOf(f)) == Rfc7230.Lower(NameOf(g)) <==> f == g
    ensures NameOf(f) != "" && ':' !in NameOf(f) && '\r' !in NameOf(f)
  {
  }

  /** Looking a name up in the printed fields finds its one value, in whatever order they were printed. */
  lemma {:induction false} LookUp(order: seq<Field>, headers: Headers, f: Field)
    requires forall i | 0 <= i < |order| :: order[i] in headers
    requires forall i, j | 0 <= i < j < |order| :: order[i] != order[j]
    ensures Rfc7230.Values(Fields(order, headers), NameOf(f))
         == if f in order then [Trim(headers[f])] else []
    decreases |order|
  {
    hide NameOf, Rfc7230.Lower, Trim;
    if order == [] {
    } else {
      var fields := Fields(order, headers);
      assert fields[1..] == Fields(order[1..], headers);
      LookUp(order[1..], headers, f);
      NamesDiffer(order[0], f);
      assert order == [order[0]] + order[1..];
    }
  }

  // ---------- whole messages ----------

  /** What a reader needs of the parts the server fills in: no space or CR in the version, no CRLF inside a value,
      and no transfer coding that is sent with a plain body (the chunked branch replaces it). */
  predicate WellFormed(response: Response) {
    && ' ' !in response.version && '\r' !in response.version
    && (TransferEncoding in response.headers ==> UsesChunks(response.headers))
    && forall f | f in response.headers :: Find(Trim(response.headers[f]), CRLF).None?
  }

  /** The body as the reader sees it; a plain body is sent with a CRLF behind it. */
  function BodyOnTheWire(response: Response): string {
    if UsesChunks(response.headers) then response.body else PlainBody(response.body)
  }

  /** The headers give a reader the right idea of where the response ends. */
  predicate Framed(response: Response) {
    if UsesChunks(response.headers) then response.status != NotModified
    else if response.status == NotModified then response.body == ""
    else ParseNumeral(Trim(response.headers[ContentLength]), 10) == Some(|PlainBody(response.body)|)
  }

  function AsMessage(response: Response, order: Order): Rfc7230.Message
    requires Enumerates(order(Sent(response).headers), Sent(response).headers)
  {
    Rfc7230.Message(response.version, StatusText(response.status),
                    Fields(order(Sent(response).headers), Sent(response).headers), BodyOnTheWire(response))
  }

  /** The reader recovers the response and consumes exactly its bytes. */
  predicate ReadsBack(response: Response, order: Order, suffix: string)
    requires Enumerates(order(Sent(response).headers), Sent(response).headers)
  {
    Rfc7230.ReadMessage(ResponseText(response, order) + suffix) == Some((AsMessage(response, order), suffix))
  }

  lemma StatusTexts(status: Status)
    ensures '\r' !in StatusText(status) && |StatusText(status)| >= 3
    ensures Rfc7230.HasNoBody(StatusText(status)) <==> status == NotModified
  {
    var text := StatusText(status);
    assert text[..3] == [text[0], text[1], text[2]];
    if status == NotModified {
      assert text[..3] == Rfc7230.NOT_MODIFIED;
    } else {
      assert text[0] != '3' && (text[0] == '2' ==> text[2] == '0');
      assert Rfc7230.NO_CONTENT[2] == '4' && Rfc7230.NOT_MODIFIED[0] == '3';
    }
  }

  lemma ReadStatusLine(response: Response, rest: string)
    requires ' ' !in response.version && '\r' !in response.version
    ensures var line := StatusLine(response);
            var s := line + CRLF + rest;
            Find(s, CRLF) == Some(|line|) && s[..|line|] == line && s[|line| + 2..] == rest
            && SplitOnce(line, ' ') == Some((response.version, StatusText(response.status)))
  {
    hide FindFrom, Find;
    var line := StatusLine(response);
    StatusTexts(response.status);
    NoCrNoCrlf(line);
    FindLineEnd(line, rest);
    SplitOnceAt(response.version, ' ', StatusText(response.status));
  }

  lemma SentIsReadable(response: Response, order: seq<Field>)
    requires WellFormed(response) && Enumerates(order, Sent(response).headers)
    ensures var fields := Fields(order, Sent(response).headers);
            forall i | 0 <= i < |fields| :: Readable(fields[i])
  {
    hide NameOf, FindFrom, UsesChunks, SkipFrom, SkipBack;
    var sent := Sent(response).headers;
    forall i | 0 <= i < |order|
      ensures Readable(Fields(order, sent)[i])
    {
      NamesDiffer(order[i], order[i]);
      if order[i] == TransferEncoding {
        assert sent[order[i]] == CHUNKED;
        TrimChunked();
      } else {
        assert sent[order[i]] == response.headers[order[i]];
      }
    }
  }

  lemma TrimChunked()
    ensures Trim(CHUNKED) == CHUNKED && Find(CHUNKED, CRLF).None?
  {
    hide TrimBy;
    assert "" + CHUNKED == CHUNKED;
    TrimPadded("", CHUNKED, WHITESPACE);
    NoCrNoCrlf(CHUNKED);
  }

  /** The message made of a header block and what was read of the body. */
  function Assemble(response: Response, fields: Rfc7230.FieldList, body: Option<(string, string)>)
    : Option<(Rfc7230.Message, string)>
  {
    match body
    case None => None
    case Some((text, rest)) =>
      Some((Rfc7230.Message(response.version, StatusText(response.status), fields, text), rest))
  }

  /** Reading the whole message comes down to finding where the body ends. */
  lemma ReadHeaderBlock(response: Response, order: Order, suffix: string)
    requires WellFormed(response)
    requires Enumerates(order(Sent(response).headers), Sent(response).headers)
    ensures var fields := Fields(order(Sent(response).headers), Sent(response).headers);
            var body := Rfc7230.ReadBody(StatusText(response.status), fields, BodyText(response) + suffix);
            Rfc7230.ReadMessage(ResponseText(response, order) + suffix) == Assemble(response, fields, body)
  {
    hide Find, FindFrom, SplitOnce, UsesChunks, StatusText, Rfc7230.ReadBody, Rfc7230.ReadFields,
         FieldLines, Fields, BodyText, Readable;
    var sent := Sent(response).headers;
    var fields := Fields(order(sent), sent);
    var rest := BodyText(response) + suffix;
    var block := FieldLines(fields) + (CRLF + rest);
    assert ResponseText(response, order) + suffix == StatusLine(response) + CRLF + block;
    ReadStatusLine(response, block);
    SentIsReadable(response, order(sent));
    ReadPrintedFields(fields, rest);
  }

  /** Where the body ends by the framing the writer chose. */
  function ReadByFraming(response: Response, s: string): Option<(string, string)> {
    if response.status == NotModified then Some(("", s))
    else if UsesChunks(response.headers) then Rfc7230.ReadChunks(s)
    else Rfc7230.ReadCounted([Trim(response.headers[ContentLength])], s)
  }

  /** What the reader finds out about the body from the fields that were written. */
  lemma ReadFraming(response: Response, order: Order, s: string)
    requires WellFormed(response)
    requires Enumerates(order(Sent(response).headers), Sent(response).headers)
    ensures var fields := Fields(order(Sent(response).headers), Sent(response).headers);
            Rfc7230.ReadBody(StatusText(response.status), fields, s) == ReadByFraming(response, s)
  {
    hide Fields, Trim, Rfc7230.ReadChunks, Rfc7230.HasNoBody, Rfc7230.Lower, Rfc7230.ReadCounted, ParseUnsigned;
    var sent := Sent(response).headers;
    StatusTexts(response.status);
    LookUp(order(sent), sent, TransferEncoding);
    LookUp(order(sent), sent, ContentLength);
    TrimChunked();
  }

  lemma ReadBodyBack(response: Response, suffix: string)
    requires Framed(response)
    ensures ReadByFraming(response, BodyText(response) + suffix) == Some((BodyOnTheWire(response), suffix))
  {
    hide Rfc7230.ReadChunks, ChunkedBody, Trim, ParseNumeral, ParseUnsigned;
    if response.status == NotModified {
      assert BodyText(response) == "" && "" + suffix == suffix;
    } else if UsesChunks(response.headers) {
      ChunkedRoundTrip(response.body, suffix);
    } else {
      var body := PlainBody(response.body);
      assert (body + suffix)[..|body|] == body && (body + suffix)[|body|..] == suffix;
    }
  }

  /** A well-framed response is self-delimiting: whatever follows it, and whatever order its headers were
      written in, a reader gets back its status, its headers and its body, and no byte more. */
  lemma SelfDelimiting(response: Response, order: Order, suffix: string)
    requires WellFormed(response) && Framed(response)
    requires Enumerates(order(Sent(response).headers), Sent(response).headers)
    ensures ReadsBack(response, order, suffix)
  {
    hide Rfc7230.ReadMessage, Rfc7230.ReadChunks, Rfc7230.ReadCounted, Rfc7230.ReadBody, ResponseText, UsesChunks,
         Enumerates, WellFormed, Framed, ReadByFraming, Fields;
    ReadHeaderBlock(response, order, suffix);
    ReadFraming(response, order, BodyText(response) + suffix);
    ReadBodyBack(response, suffix);
  }

  /** And only a well-framed one is: otherwise the reader fails or stops short even with nothing behind it. */
  lemma SelfDelimitingOnlyIfFramed(response: Response, order: Order)
    requires WellFormed(response)
    requires Enumerates(order(Sent(response).headers), Sent(response).headers)
    ensures ReadsBack(response, order, "") <==> Framed(response)
  {
    hide Rfc7230.ReadMessage, Rfc7230.ReadChunks, Rfc7230.ReadBody, ResponseText, UsesChunks,
         Enumerates, WellFormed, Trim, ParseNumeral, Fields, Chunk;
    if Framed(response) {
      SelfDelimiting(response, order, "");
    } else {
      ReadHeaderBlock(response, order, "");
      ReadFraming(response, order, BodyText(response) + "");
      assert BodyText(response) + "" == BodyText(response);
      ChunksNotEmpty(response.body);
    }
  }

  lemma ChunksNotEmpty(body: string)
    ensures ChunkedBody(body) != ""
  {
  }
}

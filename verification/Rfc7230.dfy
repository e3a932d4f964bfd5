/** A reader of HTTP responses, written from RFC 7230 alone: sections 3.1.2 and 3.2 for the header block,
    3.3.3 for how long the body is, and 4.1 for the chunked coding. */
module Rfc7230 {
  import opened Text

  type FieldList = seq<(string, string)>

  datatype Message = Message(version: string, status: string, fields: FieldList, body: string)

  /** Optional whitespace around a field value (section 3.2.3). */
  const OWS := {' ', '\t'}

  const TRANSFER_ENCODING := "Transfer-Encoding"
  const CONTENT_LENGTH := "Content-Length"
  const CHUNKED := "chunked"
  const NO_CONTENT := "204"
  const NOT_MODIFIED := "304"

  function LowerChar(c: char): char {
    if 'A' <= c <= 'Z' then c - 'A' + 'a' else c
  }

  /** Field names are compared without regard to case. */
  function Lower(s: string): string {
    seq(|s|, i requires 0 <= i < |s| => LowerChar(s[i]))
  }

  /** Field lines up to and including the empty line; what follows is returned too. */
  function ReadFields(s: string): (r: Option<(FieldList, string)>)
    ensures r.Some? ==> |r.value.1| < |s|
    decreases |s|
  {
    match Find(s, CRLF)
    case None => None
    case Some(i) =>
      if i == 0 then Some(([], s[2..]))
      else
        match SplitOnce(s[..i], ':')
        case None => None
        case Some((name, value)) =>
          match ReadFields(s[i + 2..])
          case None => None
          case Some((fields, rest)) => Some(([(name, TrimBy(value, OWS))] + fields, rest))
  }

  /** The values given for a field name, in order. */
  function Values(fields: FieldList, name: string): seq<string> {
    if fields == [] then []
    else (if Lower(fields[0].0) == Lower(name) then [fields[0].1] else []) + Values(fields[1..], name)
  }

  /** The size on a chunk's first line, chunk extensions ignored (section 4.1.1). */
  function ChunkSize(line: string): Option<nat> {
    match SplitOnce(line, ';')
    case None => ParseNumeral(line, 16)
    case Some((size, _)) => ParseNumeral(size, 16)
  }

  /** Decodes chunks up to the last one and skips the trailer (section 4.1.3). */
  function ReadChunks(s: string): Option<(string, string)>
    decreases |s|
  {
    match Find(s, CRLF)
    case None => None
    case Some(i) =>
      match ChunkSize(s[..i])
      case None => None
      case Some(n) =>
        if n == 0 then ReadTrailer(s[i + 2..])
        else ReadChunkData(n, s[i + 2..], s)
  }

  function ReadTrailer(s: string): Option<(string, string)> {
    match ReadFields(s)
    case None => None
    case Some((_, rest)) => Some(("", rest))
  }

  /** Chunk data of `n` bytes, the CRLF behind it, and the chunks that follow. */
  function ReadChunkData(n: nat, data: string, whole: string): Option<(string, string)>
    requires |data| < |whole|
    decreases |whole|, 0
  {
    if !At(data, CRLF, n) then None
    else
      match ReadChunks(data[n + 2..])
      case None => None
      case Some((body, rest)) => Some((data[..n] + body, rest))
  }

  /** The sizes on the first lines of the chunks before the last one. */
  function ReadSizes(s: string): Option<seq<nat>>
    decreases |s|
  {
    match Find(s, CRLF)
    case None => None
    case Some(i) =>
      match ChunkSize(s[..i])
      case None => None
      case Some(n) =>
        var data := s[i + 2..];
        if n == 0 then Some([])
        else if !At(data, CRLF, n) then None
        else
          match ReadSizes(data[n + 2..])
          case None => None
          case Some(sizes) => Some([n] + sizes)
  }

  predicate HasNoBody(status: string) {
    |status| >= 3 && (status[0] == '1' || status[..3] == NO_CONTENT || status[..3] == NOT_MODIFIED)
  }

  /** The message body length rules for a response to a GET or POST, in the order of section 3.3.3. */
  function ReadBody(status: string, fields: FieldList, s: string): Option<(string, string)> {
    var codings := Values(fields, TRANSFER_ENCODING);
    var lengths := Values(fields, CONTENT_LENGTH);
    if HasNoBody(status) then Some(("", s))
    else if codings != [] then
      if Lower(codings[|codings| - 1]) == Lower(CHUNKED) then ReadChunks(s) else Some((s, ""))
    else if lengths != [] then ReadCounted(lengths, s)
    else Some((s, ""))
  }

  function ReadCounted(lengths: seq<string>, s: string): Option<(string, string)>
    requires lengths != []
  {
    if exists i | 0 <= i < |lengths| :: lengths[i] != lengths[0] then None
    else
      match ParseNumeral(lengths[0], 10)
      case None => None
      case Some(n) => if n <= |s| then Some((s[..n], s[n..])) else None
  }

  /** One response from the front of `s`, and the bytes it leaves. */
  function ReadMessage(s: string): Option<(Message, string)> {
    match Find(s, CRLF)
    case None => None
    case Some(i) =>
      match SplitOnce(s[..i], ' ')
      case None => None
      case Some((version, status)) =>
        match ReadFields(s[i + 2..])
        case None => None
        case Some((fields, rest)) =>
          match ReadBody(status, fields, rest)
          case None => None
          case Some((body, rest)) => Some((Message(version, status, fields, body), rest))
  }
}

/** The blocking driver of src/seq.rs: read until a request is complete, answer it, stop. */
module Sequential {
  import opened Text
  import opened Requests
  import Responses
  import Framing
  import ClientView
  import Rfc7230

  /** The request handler as a function of the request and the load flag, and the order in which the header
      maps of its responses are iterated. */
  datatype Host = Host(handle: (Request, bool) -> Responses.Response, order: Responses.Order)

  ghost predicate ValidHost(host: Host) {
    Responses.IsOrder(host.order)
  }

  /** What one `read` on a socket yields; no bytes mean the peer has closed its side. */
  datatype ReadOutcome = Got(bytes: string) | NoData | ReadFailed

  predicate IsData(read: ReadOutcome) {
    read.Got? && read.bytes != ""
  }

  /** The pieces delivered before the stream ends or fails. */
  function Pieces(script: seq<ReadOutcome>): (pieces: seq<string>)
    ensures |pieces| <= |script|
    ensures forall i | 0 <= i < |pieces| :: script[i] == Got(pieces[i]) && pieces[i] != ""
    ensures |pieces| < |script| ==> !IsData(script[|pieces|])
  {
    if script == [] || !IsData(script[0]) then [] else [script[0].bytes] + Pieces(script[1..])
  }

  function Received(script: seq<ReadOutcome>): string {
    Flatten(Pieces(script))
  }

  /** The bytes that answer what has been received, if that holds a full request. */
  function Answer(host: Host, received: string, overloaded: bool): Option<string>
    requires ValidHost(host)
  {
    match TryParse(received, START)
    case Err(_) => None
    case Ok(state) =>
      if state.FullRequest? then Some(Reply(host, state.request, overloaded)) else None
  }

  function Reply(host: Host, request: Request, overloaded: bool): string
    requires ValidHost(host)
  {
    Responses.ResponseText(host.handle(request, overloaded), host.order)
  }

  /** How the peer fares once its request is complete: its address may be gone, or writing to it may fail
      after some bytes. */
  datatype Peer = NoAddress | Open | BreaksAfter(count: nat)

  /** What reaches the peer of an answer. */
  function Delivered(bytes: string, peer: Peer): string {
    match peer
    case NoAddress => ""
    case Open => bytes
    case BreaksAfter(count) => if count < |bytes| then bytes[..count] else bytes
  }

  /** Answers a stream and succeeds exactly when all of the answer was delivered; without a full request it fails and
      sends nothing. What is sent depends only on the bytes received and not on how they were cut. */
  method Process(host: Host, script: seq<ReadOutcome>, overloaded: bool, peer: Peer) returns (ok: bool, sent: string)
    requires ValidHost(host)
    ensures match Answer(host, Received(script), overloaded)
            case Some(bytes) =>
              sent == Delivered(bytes, peer)
              && (ok <==> peer.Open? || (peer.BreaksAfter? && |bytes| <= peer.count))
            case None => !ok && sent == ""
    ensures forall r :: TryParse(Received(script), START) == Ok(FullRequest(r)) && peer.Open? ==>
              sent == Responses.ResponseText(host.handle(r, overloaded), host.order)
  {
    hide TryParse, Stored, Responses.ResponseText, Responses.IsOrder;
    ghost var pieces := Pieces(script);
    var state := START;
    sent := "";
    var i := 0;
    assert Stored(START) && pieces[0..] == pieces by { StartIsStored(); }
    while true
      invariant 0 <= i <= |pieces| && Stored(state) && sent == ""
      invariant TryParse(Flatten(pieces[i..]), state) == TryParse(Received(script), START)
      decreases |pieces| - i
    {
      StoredNotFull(state);
      ParserInvariantOfStored(Flatten(pieces[i..]), state);
      if i == |script| || !IsData(script[i]) {
        assert i == |pieces|;
        StoredIsStuck(state);
        return false, "";
      }
      assert Flatten(pieces[i..]) == pieces[i] + Flatten(pieces[i + 1..]) by {
        assert pieces[i..][1..] == pieces[i + 1..];
      }
      ResumeFrom(state, pieces[i], Flatten(pieces[i + 1..]));
      ParserInvariantOfStored(pieces[i], state);
      match TryParse(script[i].bytes, state) {
        case Err(_) =>
          return false, "";
        case Ok(next) =>
          state := next;
      }
      i := i + 1;
      if state.FullRequest? {
        if peer.NoAddress? {
          return false, "";
        }
        var response := host.handle(state.request, overloaded);
        HostEnumerates(host, response);
        var bytes := Responses.WriteResponse(response, host.order);
        return peer.Open? || |bytes| <= peer.count, Delivered(bytes, peer);
      }
    }
  }

  lemma StartIsStored()
    ensures Stored(START)
  {
  }

  lemma StoredNotFull(state: Incremental)
    requires Stored(state)
    ensures !state.FullRequest?
  {
  }

  lemma ParserInvariantOfStored(latest: string, state: Incremental)
    requires Stored(state)
    ensures var r := TryParse(latest, state);
            r.Ok? ==> r.value.FullRequest? || Stored(r.value)
  {
    ParserInvariant(latest, state);
  }

  lemma HostEnumerates(host: Host, response: Responses.Response)
    requires ValidHost(host)
    ensures var headers := Responses.Sent(response).headers;
            Responses.Enumerates(host.order(headers), headers)
  {
  }

  /** Bytes behind a complete request do not change the answer. */
  lemma AnswerIgnoresSuffix(host: Host, received: string, more: string, overloaded: bool)
    requires ValidHost(host)
    requires Answer(host, received, overloaded).Some?
    ensures Answer(host, received + more, overloaded) == Answer(host, received, overloaded)
  {
    hide TryParse, Reply;
    ParsePrefix(received, more);
  }

  /** What answers a full request is the handler's response to it under the load flag it was given. */
  lemma AnswerIs(host: Host, received: string, overloaded: bool, r: Request)
    requires ValidHost(host) && TryParse(received, START) == Ok(FullRequest(r))
    ensures Answer(host, received, overloaded)
         == Some(Responses.ResponseText(host.handle(r, overloaded), host.order))
  {
    hide TryParse, Responses.ResponseText;
  }

  /** A client reads from what it is sent just that response. */
  lemma ClientReadsAnswer(host: Host, received: string, overloaded: bool, r: Request)
    requires ValidHost(host) && TryParse(received, START) == Ok(FullRequest(r))
    requires var response := host.handle(r, overloaded); Framing.WellFormed(response) && Framing.Framed(response)
    ensures Answer(host, received, overloaded).Some?
    ensures var read := Rfc7230.ReadMessage(Answer(host, received, overloaded).value);
            read.Some? && read.value.1 == "" && ClientView.Conveys(read.value.0, host.handle(r, overloaded))
  {
    hide TryParse, Responses.ResponseText, Answer, Framing.WellFormed, Framing.Framed, ClientView.Conveys,
         Rfc7230.ReadMessage;
    var response := host.handle(r, overloaded);
    AnswerIs(host, received, overloaded, r);
    HostEnumerates(host, response);
    ClientView.ClientReads(response, host.order, "");
    var bytes := Responses.ResponseText(response, host.order);
    assert bytes + "" == bytes;
  }
}

/** What the event loop keeps between the structures it updates, at every point of every iteration. */
module SelectorInvariant {
  import opened Text
  import opened Requests
  import opened Sequential
  import opened Selector

  /** The two commands `select_multiplex` sends while the loop is running. */
  const ADD_LISTENER := Respond(NewSource(LISTENER_TOKEN, Listener(1), Readable))
  const ADD_STDIN := Respond(NewSource(STDIN_TOKEN, Stdin(LISTENER_TOKEN), Readable))

  // ---------- one connection ----------

  /** The stored parse state is what parsing everything received so far yields. */
  predicate Parsed(wire: Wire, request: Incremental) {
    Stored(request) && TryParse(wire.received, START) == Ok(request)
  }

  /** Nothing was sent and the handler was not called. */
  predicate Untouched(wire: Wire) {
    wire.sent == "" && wire.handled == []
  }

  predicate Complete(wire: Wire) {
    TryParse(wire.received, START).Ok? && TryParse(wire.received, START).value.FullRequest?
  }

  /** A full request was received and handled once, and its answer lacks only `rest`. */
  predicate Owes(host: Host, wire: Wire, rest: string)
    requires ValidHost(host)
  {
    && Complete(wire)
    && wire.handled == [TryParse(wire.received, START).value.request]
    && Answer(host, wire.received, false) == Some(wire.sent + rest)
  }

  /** What holds of every connection, open or closed: it is silent while it reads, which is while no request is
      complete, partly answered while it writes, and completely answered when it asked to be closed. */
  predicate Truthful(host: Host, stream: EventSource)
    requires ValidHost(host) && stream.Stream?
  {
    match stream.state
    case Read(_) => Untouched(stream.wire) && !Complete(stream.wire)
    case Write(response) => Owes(host, stream.wire, Remaining(host, response))
    case Close => Owes(host, stream.wire, "")
  }

  /** A stream with nothing left to do: it has answered, or what it received cannot become a request. */
  predicate Doomed(stream: EventSource)
    requires stream.Stream?
  {
    stream.state.Close? || TryParse(stream.wire.received, START).Err?
  }

  /** A write that is offered bytes takes at least one. */
  predicate WritesProgress(event: Event) {
    forall i | 0 <= i < |event.output| :: event.output[i].Took? ==> event.output[i].count > 0
  }

  lemma {:induction false} ReadAllSound(request: Incremental, wire: Wire, input: seq<ReadOutcome>)
    requires Parsed(wire, request)
    ensures match ReadAll(request, wire, input)
            case Blocked(r, w) => Parsed(w, r) && w == wire.(received := w.received)
            case Broken(r, w) => Parsed(w, r) && w == wire.(received := w.received)
            case Malformed(w) => TryParse(w.received, START).Err? && w == wire.(received := w.received)
            case Ended(r, w) =>
              w == wire.(received := w.received)
              && if r.FullRequest? then TryParse(w.received, START) == Ok(r) else Parsed(w, r)
    decreases |input|
  {
    hide TryParse, Stored;
    if input != [] && input[0].Got? && input[0].bytes != "" {
      var bytes := input[0].bytes;
      ResumeFrom(START, wire.received, bytes);
      StoredNotFull(request);
      ParserInvariantOfStored(bytes, request);
      var next := TryParse(bytes, request);
      if next.Ok? && !next.value.FullRequest? {
        ReadAllSound(next.value, wire.(received := wire.received + bytes), input[1..]);
      }
    } else if input != [] && input[0].Got? {
      StoredNotFull(request);
    }
  }

  lemma {:induction false} WriteAllSound(host: Host, bytes: string, wire: Wire, output: seq<WriteOutcome>)
    requires ValidHost(host) && Owes(host, wire, bytes)
    requires forall i | 0 <= i < |output| :: output[i].Took? ==> output[i].count > 0
    ensures match WriteAll(bytes, wire, output)
            case Stalled(r, w) => r.Bytes? && Owes(host, w, r.bytes)
            case Severed(r, w) => r.Bytes? && Owes(host, w, r.bytes)
            case Finished(w) => Owes(host, w, "")
    decreases |output|
  {
    hide Answer, TryParse, ValidHost;
    if output == [] || !output[0].Took? {
    } else {
      var n := Accepts(output[0].count, bytes);
      var rest := output[1..];
      assert forall i | 0 <= i < |rest| :: rest[i] == output[i + 1];
      if n == 0 {
        assert bytes == "";
      } else {
        assert (wire.sent + bytes[..n]) + bytes[n..] == wire.sent + bytes;
        WriteAllSound(host, bytes[n..], wire.(sent := wire.sent + bytes[..n]), rest);
      }
    }
  }

  /** Enough writes that each take something send everything, whatever their sizes. */
  lemma {:induction false} WriteAllFinishes(bytes: string, wire: Wire, output: seq<WriteOutcome>)
    requires |output| > |bytes|
    requires forall i | 0 <= i < |output| :: output[i].Took? && output[i].count > 0
    ensures WriteAll(bytes, wire, output) == Finished(wire.(sent := wire.sent + bytes))
    decreases |output|
  {
    var n := Accepts(output[0].count, bytes);
    if n == 0 {
      assert bytes == "" && wire.sent + "" == wire.sent;
    } else {
      assert (wire.sent + bytes[..n]) + bytes[n..] == wire.sent + bytes;
      WriteAllFinishes(bytes[n..], wire.(sent := wire.sent + bytes[..n]), output[1..]);
    }
  }

  /** What handling an event makes of a stream that reads: it goes on, is doomed, or has been handled. */
  lemma ReadEvent(host: Host, token: Token, stream: EventSource, event: Event)
    requires ValidHost(host) && stream.Stream? && stream.state.Read?
    requires Untouched(stream.wire) && Parsed(stream.wire, stream.state.request)
    ensures var handled := HandleRead(host, token, stream, event);
            && handled.source.Stream? && handled.source.acceptTime == stream.acceptTime
            && Truthful(host, handled.source)
            && match handled
               case Dropped(s) => s.state.Read?
               case Kept(s, commands) =>
                 || (commands == [] && s.state.Read? && Parsed(s.wire, s.state.request))
                 || (commands == [Respond(CloseSource(token))] && s.state == Read(START) && Doomed(s))
                 || (commands == [Respond(ModifyInterests(token, Writable))] && s.state.Write?)
  {
    hide TryParse, Stored, Reply, ValidHost, Responses.ResponseText;
    if event.readable {
      ReadAllSound(stream.state.request, stream.wire, event.input);
      var reading := ReadAll(stream.state.request, stream.wire, event.input);
      if reading.Ended? && reading.request.FullRequest? {
        HandledIsOwed(host, reading.wire, reading.request.request);
      } else if !reading.Malformed? {
        StoredNotFull(reading.request);
      }
    } else {
      StoredNotFull(stream.state.request);
    }
  }

  lemma HandledIsOwed(host: Host, wire: Wire, request: Request)
    requires ValidHost(host) && Untouched(wire)
    requires TryParse(wire.received, START) == Ok(FullRequest(request))
    ensures Owes(host, wire.(handled := wire.handled + [request]),
                 Remaining(host, Unrendered(host.handle(request, false))))
  {
    hide TryParse, ValidHost, Responses.ResponseText;
    assert wire.sent + Reply(host, request, false) == Reply(host, request, false);
  }

  lemma WriteEvent(host: Host, token: Token, stream: EventSource, event: Event)
    requires ValidHost(host) && stream.Stream? && stream.state.Write?
    requires Truthful(host, stream) && WritesProgress(event)
    ensures var handled := HandleWrite(host, token, stream, event);
            && handled.source.Stream? && handled.source.acceptTime == stream.acceptTime
            && Truthful(host, handled.source)
            && match handled
               case Dropped(s) => s.state.Write?
               case Kept(s, commands) =>
                 || (commands == [] && s.state.Write?)
                 || (commands == [Respond(CloseSource(token))] && s.state.Close?)
  {
    hide Owes, ValidHost, Responses.ResponseText;
    if event.writable && !stream.state.response.Done? {
      WriteAllSound(host, Remaining(host, stream.state.response), stream.wire, event.output);
    }
  }

  // ---------- the loop's structures ----------

  /** How many checks of a token's timeout are waiting, on the queue or to be queued again. */
  function Pending(token: Token, queue: seq<Command>, again: seq<Command>): nat {
    multiset(queue)[CheckTimeout(token)] + multiset(again)[CheckTimeout(token)]
  }

  /** The highest token given out, as long as more can be: the listener's counter, or 1 before it is installed. */
  function High(loop: Loop, startup: seq<Command>): Option<Token> {
    if LISTENER_TOKEN in loop.sources && loop.sources[LISTENER_TOKEN].Listener? then
      Some(loop.sources[LISTENER_TOKEN].counter)
    else if ADD_LISTENER in loop.queue || ADD_LISTENER in startup then Some(1)
    else None
  }

  predicate Below(token: Token, high: Option<Token>) {
    high.Some? ==> token <= high.value
  }

  /** A stream token that has been given out. */
  predicate IsStreamToken(token: Token, high: Option<Token>) {
    2 <= token && Below(token, high)
  }

  /** A registered stream, with the commands still to come that complete its state. */
  predicate StreamFits(host: Host, token: Token, stream: EventSource, interest: Interest, queue: seq<Command>,
                       again: seq<Command>, from: Time)
    requires ValidHost(host) && stream.Stream?
  {
    && Truthful(host, stream)
    && match stream.state
       case Read(request) =>
         && interest.Readable? && Pending(token, queue, again) == 1
         && (CheckTimeout(token) in again ==> from < stream.acceptTime + STREAM_TIMEOUT)
         && (Parsed(stream.wire, request) || (request == START && Respond(CloseSource(token)) in queue))
       case Write(_) => interest.Writable? || Respond(ModifyInterests(token, Writable)) in queue
       case Close => Respond(CloseSource(token)) in queue
  }

  predicate SourceFits(host: Host, token: Token, source: EventSource, interest: Interest, queue: seq<Command>,
                       again: seq<Command>, from: Time, high: Option<Token>)
    requires ValidHost(host)
  {
    match source
    case Listener(counter) => token == LISTENER_TOKEN && interest.Readable? && counter >= 1
    case Stdin(listener) => token == STDIN_TOKEN && interest.Readable? && listener == LISTENER_TOKEN
    case Stream(_, _, _) =>
      IsStreamToken(token, high) && StreamFits(host, token, source, interest, queue, again, from)
  }

  /** The queue holds a stream's first two commands at `i`. */
  predicate BornAt(queue: seq<Command>, i: nat) {
    && i + 1 < |queue| && queue[i].Respond? && queue[i].response.NewSource? && queue[i].response.source.Stream?
    && queue[i..i + 2] == Birth(queue[i].response.token, queue[i].response.source.acceptTime)
  }

  predicate CommandFits(loop: Loop, i: nat, high: Option<Token>)
    requires i < |loop.queue|
  {
    match loop.queue[i]
    case CheckTimeout(token) => IsStreamToken(token, high)
    case Respond(NewSource(token, source, interest)) =>
      && token !in loop.sources && token !in loop.retired
      && (loop.queue[i] == ADD_LISTENER || loop.queue[i] == ADD_STDIN
          || (IsStreamToken(token, high) && BornAt(loop.queue, i)))
    case Respond(ModifyInterests(token, interest)) =>
      && interest.Writable? && 2 <= token && (token in loop.sources || token in loop.retired)
      && (token in loop.sources ==> loop.sources[token].Stream? && !loop.sources[token].state.Read?)
    case Respond(CloseSource(token)) =>
      token == LISTENER_TOKEN
      || (2 <= token && (token in loop.sources || token in loop.retired)
          && (token in loop.sources ==> loop.sources[token].Stream? && Doomed(loop.sources[token])))
    case Respond(SubmitCommand(_)) => false
  }

  predicate StartupFits(loop: Loop, startup: seq<Command>) {
    && (forall i | 0 <= i < |startup| :: startup[i] == ADD_LISTENER || startup[i] == ADD_STDIN)
    && multiset(loop.queue)[ADD_LISTENER] + multiset(startup)[ADD_LISTENER] <= 1
    && multiset(loop.queue)[ADD_STDIN] + multiset(startup)[ADD_STDIN] <= 1
    && (ADD_LISTENER in startup ==> LISTENER_TOKEN !in loop.sources && LISTENER_TOKEN !in loop.retired)
    && (ADD_STDIN in startup ==> STDIN_TOKEN !in loop.sources && STDIN_TOKEN !in loop.retired)
  }

  predicate RetiredFits(host: Host, token: Token, source: EventSource, high: Option<Token>)
    requires ValidHost(host)
  {
    if source.Stream? then IsStreamToken(token, high) && Truthful(host, source) else token < 2
  }

  ghost predicate SourcesFit(host: Host, loop: Loop, again: seq<Command>, from: Time, high: Option<Token>)
    requires ValidHost(host) && loop.sources.Keys == loop.interests.Keys
  {
    forall token | token in loop.sources ::
      SourceFits(host, token, loop.sources[token], loop.interests[token], loop.queue, again, from, high)
  }

  ghost predicate QueueFits(loop: Loop, again: seq<Command>, high: Option<Token>) {
    && (forall i | 0 <= i < |loop.queue| :: CommandFits(loop, i, high))
    && (forall i | 0 <= i < |again| :: again[i].CheckTimeout? && IsStreamToken(again[i].token, high))
    && (forall token :: Pending(token, loop.queue, again) <= 1)
  }

  ghost predicate RetiredFit(host: Host, loop: Loop, high: Option<Token>)
    requires ValidHost(host)
  {
    && loop.retired.Keys !! loop.sources.Keys
    && forall token | token in loop.retired :: RetiredFits(host, token, loop.retired[token], high)
  }

  /** Holds at every point of an iteration: `again` is what will be queued when the queue is empty, `startup` what
      the main thread has still to send, and no command has been carried out before the time `from`. */
  ghost predicate Sound(host: Host, loop: Loop, again: seq<Command>, startup: seq<Command>, from: Time)
    requires ValidHost(host)
  {
    && loop.sources.Keys == loop.interests.Keys
    && SourcesFit(host, loop, again, from, High(loop, startup))
    && QueueFits(loop, again, High(loop, startup))
    && RetiredFit(host, loop, High(loop, startup))
    && StartupFits(loop, startup)
  }

  // ---------- popping the queue ----------

  lemma Popped(queue: seq<Command>)
    requires queue != []
    ensures multiset(queue) == multiset{queue[0]} + multiset(queue[1..])
    ensures forall c | c in queue && c != queue[0] :: c in queue[1..]
    ensures forall c | c in queue[1..] :: c in queue && c in multiset(queue[1..])
  {
    assert queue == [queue[0]] + queue[1..];
  }

  lemma Occurs(queue: seq<Command>, i: nat)
    requires i < |queue|
    ensures multiset(queue)[queue[i]] >= 1
  {
    assert queue[i] in queue;
  }

  lemma OccursTwice(queue: seq<Command>, i: nat, j: nat)
    requires i < j < |queue| && queue[i] == queue[j]
    ensures multiset(queue)[queue[i]] >= 2
  {
    assert queue == queue[..j] + queue[j..];
    assert queue[..j][i] == queue[i] && queue[j..][0] == queue[i];
    Occurs(queue[..j], i);
    Occurs(queue[j..], 0);
  }
}

/** How connections get on: what brings a request brings its answer, over however many polls. */
module SelectorProgress {
  import opened Text
  import opened Requests
  import opened Sequential
  import Responses
  import opened Selector
  import opened SelectorInvariant
  import opened SelectorCommands
  import opened SelectorEvents
  import opened SelectorRuns
  import opened SelectorEvolution
  import opened SelectorEndings
  import opened SelectorTheorems

  // ---------- in one iteration ----------

  /** A writable event whose writes all take something, in pieces of any size, and are enough for `bytes`. */
  predicate TakesAll(event: Event, bytes: string) {
    && event.writable && |event.output| > |bytes|
    && forall i | 0 <= i < |event.output| :: event.output[i].Took? && event.output[i].count > 0
  }

  lemma FinishesWriting(host: Host, token: Token, stream: EventSource, event: Event)
    requires ValidHost(host) && stream.Stream? && stream.state.Write? && Truthful(host, stream)
    requires TakesAll(event, Remaining(host, stream.state.response))
    ensures var handled := HandleWrite(host, token, stream, event);
            && handled.Kept? && handled.source.Stream? && handled.source.state.Close? && Truthful(host, handled.source)
            && handled.source.wire.received == stream.wire.received
  {
    hide ValidHost, Truthful, Owes, Remaining;
    var response := stream.state.response;
    WriteEvent(host, token, stream, event);
    WriteAllExtends(Remaining(host, response), stream.wire, event.output);
    if !response.Done? {
      WriteAllFinishes(Remaining(host, response), stream.wire, event.output);
    }
  }

  lemma StreamOfSettled(host: Host, loop: Loop, startup: seq<Command>, t: Token)
    requires ValidHost(host) && Settled(host, loop, startup) && t in loop.sources && loop.sources[t].Stream?
    ensures var stream := loop.sources[t];
            && Truthful(host, stream) && !stream.state.Close?
            && (stream.state.Read? ==> Parsed(stream.wire, stream.state.request) && Untouched(stream.wire))
  {
    hide ValidHost, Parsed, QueueFits, StartupFits, RetiredFit, Pending, Remaining, Owes;
    assert SourceFits(host, t, loop.sources[t], loop.interests[t], loop.queue, [], 0, High(loop, startup));
    assert Respond(CloseSource(t)) !in loop.queue;
  }

  /** An answer under way is finished in one iteration if the socket takes enough: the connection is then closed, with
      the whole answer sent. */
  lemma AnswerIsFinished(host: Host, loop: Loop, startup: seq<Command>, events: seq<Event>, clock: nat -> Time,
                         t: Token, event: Event)
    requires ValidHost(host) && Settled(host, loop, startup) && Reports(loop, events)
    requires t in loop.sources && loop.sources[t].Stream? && loop.sources[t].state.Write?
    requires event in events && event.token == t && TakesAll(event, Remaining(host, loop.sources[t].state.response))
    ensures Iterate(host, loop, events, clock).Some?
    ensures var next := Iterate(host, loop, events, clock).value;
            && t !in next.sources && t in next.retired && next.retired[t].Stream? && next.retired[t].state.Close?
            && var wire := next.retired[t].wire;
               wire.received == loop.sources[t].wire.received
               && Answer(host, wire.received, false) == Some(wire.sent)
  {
    hide ValidHost, Settled, Iterate, Truthful, TakesAll, Remaining, HandleWrite, WritesProgress, TryParse;
    EventForIs(events, event);
    IterationDecides(host, loop, startup, events, clock, t, 0);
    StreamOfSettled(host, loop, startup, t);
    FinishesWriting(host, t, loop.sources[t], event);
    ClosedHasSent(host, Iterate(host, loop, events, clock).value.retired[t]);
  }

  lemma ClosedHasSent(host: Host, stream: EventSource)
    requires ValidHost(host) && stream.Stream? && stream.state.Close? && Truthful(host, stream)
    ensures Answer(host, stream.wire.received, false) == Some(stream.wire.sent)
  {
    hide ValidHost, Answer, TryParse;
    assert stream.wire.sent + "" == stream.wire.sent;
  }

  /** Reading on until the request is full stops there, with that request. */
  lemma {:induction false} ReadsUpToRequest(request: Incremental, wire: Wire, input: seq<ReadOutcome>, full: Request)
    requires Parsed(wire, request)
    requires TryParse(wire.received + Received(input), START) == Ok(FullRequest(full))
    ensures var reading := ReadAll(request, wire, input);
            && reading.Ended? && reading.request == FullRequest(full)
            && TryParse(reading.wire.received, START) == Ok(FullRequest(full))
            && reading.wire.received <= wire.received + Received(input)
            && reading.wire.sent == wire.sent && reading.wire.handled == wire.handled
    decreases |input|
  {
    hide TryParse, Stored;
    StoredNotFull(request);
    assert wire.received + "" == wire.received;
    if input == [] || !IsData(input[0]) {
    } else {
      var bytes := input[0].bytes;
      var received := wire.received + bytes;
      assert wire.received + Received(input) == received + Received(input[1..]);
      ResumeFrom(START, wire.received, bytes);
      ParserInvariantOfStored(bytes, request);
      var next := TryParse(bytes, request);
      assert TryParse(received, START) == next;
      if next.Err? || next.value.FullRequest? {
        ParsePrefix(received, Received(input[1..]));
      } else {
        ReadsUpToRequest(next.value, wire.(received := received), input[1..], full);
      }
    }
  }

  lemma HandsOver(host: Host, token: Token, stream: EventSource, event: Event, full: Request)
    requires ValidHost(host) && stream.Stream? && stream.state.Read? && event.readable
    requires Untouched(stream.wire) && Parsed(stream.wire, stream.state.request)
    requires TryParse(stream.wire.received + Received(event.input), START) == Ok(FullRequest(full))
    ensures var handled := HandleRead(host, token, stream, event);
            && handled.Kept? && handled.source.Stream?
            && handled.source.state == Write(Unrendered(host.handle(full, false)))
            && var wire := handled.source.wire;
               wire.sent == "" && wire.handled == [full] && TryParse(wire.received, START) == Ok(FullRequest(full))
               && wire.received <= stream.wire.received + Received(event.input)
  {
    hide ValidHost, TryParse, Parsed, ReadAll, Pieces;
    ReadsUpToRequest(stream.state.request, stream.wire, event.input, full);
  }

  /** A reading connection whose event brings the rest of a request goes on to write the handler's answer to it, even
      when it has reached its timeout in the same iteration. */
  lemma RequestIsHandled(host: Host, loop: Loop, startup: seq<Command>, events: seq<Event>, clock: nat -> Time,
                         t: Token, event: Event, full: Request)
    requires ValidHost(host) && Settled(host, loop, startup) && Reports(loop, events) && IsReading(loop, t)
    requires event in events && event.token == t && event.readable
    requires TryParse(loop.sources[t].wire.received + Received(event.input), START) == Ok(FullRequest(full))
    ensures Iterate(host, loop, events, clock).Some?
    ensures var next := Iterate(host, loop, events, clock).value;
            && t in next.sources && next.sources[t].Stream?
            && next.sources[t].state == Write(Unrendered(host.handle(full, false)))
            && var wire := next.sources[t].wire;
               wire.sent == "" && wire.handled == [full] && TryParse(wire.received, START) == Ok(FullRequest(full))
               && wire.received <= loop.sources[t].wire.received + Received(event.input)
  {
    hide ValidHost, Settled, Iterate, TryParse, Truthful, Pieces, HandleRead, WritesProgress, Parsed;
    EventForIs(events, event);
    var k := CheckIsQueued(host, loop, startup, t);
    IterationDecides(host, loop, startup, events, clock, t, k);
    StreamOfSettled(host, loop, startup, t);
    HandsOver(host, t, loop.sources[t], event, full);
  }

  /** Two polls serve a connection: one event that brings the rest of its request, however it is cut, and one that lets
      everything be written, however little each write takes. It is then closed, having sent the answer. */
  lemma TwoPollsServe(host: Host, loop: Loop, startup: seq<Command>, t: Token,
                      first: seq<Event>, clock1: nat -> Time, asks: Event, full: Request,
                      second: seq<Event>, clock2: nat -> Time, takes: Event)
    requires ValidHost(host) && Settled(host, loop, startup) && Reports(loop, first) && IsReading(loop, t)
    requires asks in first && asks.token == t && asks.readable
    requires TryParse(loop.sources[t].wire.received + Received(asks.input), START) == Ok(FullRequest(full))
    requires Iterate(host, loop, first, clock1).Some? ==> Reports(Iterate(host, loop, first, clock1).value, second)
    requires takes in second && takes.token == t && TakesAll(takes, Reply(host, full, false))
    ensures Iterate(host, loop, first, clock1).Some?
    ensures var next := Iterate(host, Iterate(host, loop, first, clock1).value, second, clock2);
            && next.Some? && t in next.value.retired && next.value.retired[t].Stream?
            && next.value.retired[t].state.Close?
            && next.value.retired[t].wire.sent == Reply(host, full, false)
  {
    hide ValidHost, Settled, Iterate, TryParse, Pieces, TakesAll, Reports, Responses.ResponseText;
    RequestIsHandled(host, loop, startup, first, clock1, t, asks, full);
    IterationKeeps(host, loop, startup, first, clock1, 0);
    AnswerIsFinished(host, Iterate(host, loop, first, clock1).value, startup, second, clock2, t, takes);
  }

  // ---------- over a run ----------

  /** How many writes in a row take something before one would block. */
  function Takes(output: seq<WriteOutcome>): nat {
    if output == [] || !output[0].Took? then 0 else 1 + Takes(output[1..])
  }

  function TakesIn(events: seq<Event>, t: Token): nat {
    match EventFor(events, t)
    case None => 0
    case Some(event) => if event.writable then Takes(event.output) else 0
  }

  /** How many writes of the connection `t` take something in all. */
  function TakesOver(steps: seq<Step>, t: Token): nat {
    if steps == [] then 0
    else (if steps[0].Poll? then TakesIn(steps[0].events, t) else 0) + TakesOver(steps[1..], t)
  }

  lemma {:induction false} WriteAllProgresses(bytes: string, wire: Wire, output: seq<WriteOutcome>)
    requires WriteFailed !in output
    requires forall i | 0 <= i < |output| :: output[i].Took? ==> output[i].count > 0
    ensures match WriteAll(bytes, wire, output)
            case Stalled(r, _) => r.Bytes? && |r.bytes| + Takes(output) <= |bytes|
            case Finished(_) => true
            case Severed(_, _) => false
    decreases |output|
  {
    if output == [] || !output[0].Took? {
    } else {
      var n := Accepts(output[0].count, bytes);
      var rest := output[1..];
      assert forall i | 0 <= i < |rest| :: rest[i] == output[i + 1];
      if n > 0 {
        WriteAllProgresses(bytes[n..], wire.(sent := wire.sent + bytes[..n]), rest);
      }
    }
  }

  /** A poll without a failed write finishes the answer, or leaves less of it by every write that took something. */
  lemma WritesOn(host: Host, stream: EventSource, events: seq<Event>, t: Token)
    requires ValidHost(host) && stream.Stream? && stream.state.Write? && Truthful(host, stream)
    requires !WriteFails(events, t)
    requires EventFor(events, t).Some? ==> WritesProgress(EventFor(events, t).value)
    ensures var handled := Polled(host, stream, events, t);
            && handled.Kept? && handled.source.Stream?
            && handled.source.wire.received == stream.wire.received
            && match handled.source.state
               case Read(_) => false
               case Write(response) =>
                 |Remaining(host, response)| + TakesIn(events, t) <= |Remaining(host, stream.state.response)|
               case Close => true
  {
    hide ValidHost, Truthful, Responses.ResponseText;
    if EventFor(events, t).Some? {
      var event := EventFor(events, t).value;
      WriteAllProgresses(Remaining(host, stream.state.response), stream.wire, event.output);
      WriteAllExtends(Remaining(host, stream.state.response), stream.wire, event.output);
    }
  }

  lemma LaterSteps(steps: seq<Step>, t: Token, limit: Time)
    requires steps != []
    ensures !SomeWriteFails(steps, t) ==> !SomeWriteFails(steps[1..], t)
    ensures !SomeReadFails(steps, t) ==> !SomeReadFails(steps[1..], t)
    ensures !SomeTimeReaches(steps, limit) ==> !SomeTimeReaches(steps[1..], limit)
  {
    hide ReadFails, WriteFails, Reaches;
    assert forall i | 0 <= i < |steps[1..]| :: steps[1..][i] == steps[i + 1];
  }

  lemma EventProgresses(loop: Loop, events: seq<Event>, t: Token)
    requires Reports(loop, events)
    ensures EventFor(events, t).Some? ==> WritesProgress(EventFor(events, t).value)
  {
    hide WritesProgress;
    EventForIsReported(events, t);
  }

  /** Closed, with the whole answer sent to what it had received. */
  ghost predicate HasAnswered(host: Host, loop: Loop, t: Token, received: string)
    requires ValidHost(host)
  {
    && t in loop.retired && loop.retired[t].Stream? && loop.retired[t].state.Close?
    && loop.retired[t].wire.received == received
    && Answer(host, received, false) == Some(loop.retired[t].wire.sent)
  }

  /** One iteration of a connection that writes. */
  lemma WritesOneStep(host: Host, loop: Loop, startup: seq<Command>, events: seq<Event>, clock: nat -> Time, t: Token)
    requires ValidHost(host) && Settled(host, loop, startup) && Reports(loop, events)
    requires t in loop.sources && loop.sources[t].Stream? && loop.sources[t].state.Write?
    requires !WriteFails(events, t)
    ensures Iterate(host, loop, events, clock).Some?
    ensures var stream, next := loop.sources[t], Iterate(host, loop, events, clock).value;
            || HasAnswered(host, next, t, stream.wire.received)
            || (t in next.sources && next.sources[t].Stream? && next.sources[t].state.Write?
                && next.sources[t].wire.received == stream.wire.received
                && |Remaining(host, next.sources[t].state.response)| + TakesIn(events, t)
                   <= |Remaining(host, stream.state.response)|)
  {
    hide ValidHost, Settled, Iterate, Truthful, Remaining, HandleEvent, WritesProgress, EventFor, Reports, TakesIn;
    var stream := loop.sources[t];
    IterationDecides(host, loop, startup, events, clock, t, 0);
    IterationKeeps(host, loop, startup, events, clock, 0);
    StreamOfSettled(host, loop, startup, t);
    EventProgresses(loop, events, t);
    WritesOn(host, stream, events, t);
    var handled := Polled(host, stream, events, t);
    PolledIsTruthful(host, stream, events, t);
    if handled.source.state.Close? {
      ClosedHasSent(host, handled.source);
    } else {
      WritingIsNotDoomed(host, handled.source);
    }
  }

  lemma PolledIsTruthful(host: Host, stream: EventSource, events: seq<Event>, t: Token)
    requires ValidHost(host) && stream.Stream? && stream.state.Write? && Truthful(host, stream)
    requires EventFor(events, t).Some? ==> WritesProgress(EventFor(events, t).value)
    ensures Polled(host, stream, events, t).source.Stream? && Truthful(host, Polled(host, stream, events, t).source)
  {
    hide ValidHost, Truthful, Remaining, WritesProgress, HandleWrite;
    if EventFor(events, t).Some? {
      WriteEvent(host, EventFor(events, t).value.token, stream, EventFor(events, t).value);
    }
  }

  lemma WritingIsNotDoomed(host: Host, stream: EventSource)
    requires ValidHost(host) && stream.Stream? && stream.state.Write? && Truthful(host, stream)
    ensures !Doomed(stream)
  {
    hide ValidHost, Remaining, TryParse, Answer;
  }

  lemma AnsweredStays(host: Host, world: World, steps: seq<Step>, t: Token, received: string)
    requires ValidHost(host) && Settled(host, world.loop, world.startup) && Legal(host, world, steps)
    requires HasAnswered(host, world.loop, t, received)
    ensures Run(host, world, steps).Some? && HasAnswered(host, Run(host, world, steps).value.loop, t, received)
  {
    hide ValidHost, Settled, Legal, Run, Answer;
    RunEvolves(host, world, steps);
  }

  /** In every run, a connection that writes and has no failed write ends closed with its whole answer sent once more
      writes have taken something than it had bytes to send, over however many polls and blocked writes. */
  lemma {:induction false} AnswersAreFinished(host: Host, world: World, steps: seq<Step>, t: Token)
    requires ValidHost(host) && Settled(host, world.loop, world.startup) && Legal(host, world, steps)
    requires t in world.loop.sources && world.loop.sources[t].Stream? && world.loop.sources[t].state.Write?
    requires !SomeWriteFails(steps, t)
    requires TakesOver(steps, t) > |Remaining(host, world.loop.sources[t].state.response)|
    ensures Run(host, world, steps).Some?
    ensures HasAnswered(host, Run(host, world, steps).value.loop, t, world.loop.sources[t].wire.received)
    decreases |steps|
  {
    hide ValidHost, Settled, Reports, Iterate, Remaining, HasAnswered, TakesIn, SomeWriteFails, WriteFails;
    if steps == [] {
      assert false;
    } else {
      LaterSteps(steps, t, 0);
      match steps[0] {
        case MainSends =>
          if world.startup != [] {
            SendingKeeps(host, world);
          }
          AnswersAreFinished(host, Take(host, world, steps[0]).value, steps[1..], t);
        case Poll(events, clock) =>
          assert !WriteFails(events, t) by { NoWriteFailsNow(steps, t); }
          IterationKeeps(host, world.loop, world.startup, events, clock, 0);
          WritesOneStep(host, world.loop, world.startup, events, clock, t);
          var next := Take(host, world, steps[0]).value;
          if HasAnswered(host, next.loop, t, world.loop.sources[t].wire.received) {
            AnsweredStays(host, next, steps[1..], t, world.loop.sources[t].wire.received);
          } else {
            AnswersAreFinished(host, next, steps[1..], t);
          }
      }
    }
  }

  lemma NoWriteFailsNow(steps: seq<Step>, t: Token)
    requires steps != [] && steps[0].Poll? && !SomeWriteFails(steps, t)
    ensures !WriteFails(steps[0].events, t)
  {
    hide WriteFails;
  }

  /** What a poll delivers to the connection `t`. */
  function BytesIn(events: seq<Event>, t: Token): string {
    match EventFor(events, t)
    case None => ""
    case Some(event) => if event.readable then Received(event.input) else ""
  }

  /** What the polls of a run deliver to the connection `t` one after the other, as long as it reads. */
  function BytesOver(steps: seq<Step>, t: Token): string {
    if steps == [] then ""
    else (if steps[0].Poll? then BytesIn(steps[0].events, t) else "") + BytesOver(steps[1..], t)
  }

  /** Reading on without reaching the end of a request takes in all there is. */
  lemma {:induction false} ReadsAllThereIs(request: Incremental, wire: Wire, input: seq<ReadOutcome>)
    requires Parsed(wire, request) && ReadFailed !in input
    requires var all := TryParse(wire.received + Received(input), START); all.Ok? && !all.value.FullRequest?
    ensures var reading := ReadAll(request, wire, input);
            && (reading.Blocked? || reading.Ended?) && !reading.request.FullRequest?
            && reading.wire == wire.(received := wire.received + Received(input))
            && Parsed(reading.wire, reading.request)
    decreases |input|
  {
    hide TryParse, Stored;
    StoredNotFull(request);
    assert wire.received + "" == wire.received;
    if input == [] || !IsData(input[0]) {
    } else {
      var bytes := input[0].bytes;
      var received := wire.received + bytes;
      assert wire.received + Received(input) == received + Received(input[1..]);
      ResumeFrom(START, wire.received, bytes);
      ParserInvariantOfStored(bytes, request);
      var next := TryParse(bytes, request);
      if next.Err? || next.value.FullRequest? {
        ParsePrefix(received, Received(input[1..]));
      } else {
        ReadsAllThereIs(next.value, wire.(received := received), input[1..]);
      }
    }
  }

  /** A poll without a failed read that does not complete the request leaves the connection reading, with its bytes. */
  lemma ReadsOn(host: Host, stream: EventSource, events: seq<Event>, t: Token)
    requires ValidHost(host) && stream.Stream? && stream.state.Read?
    requires Parsed(stream.wire, stream.state.request) && !ReadFails(events, t)
    requires var all := TryParse(stream.wire.received + BytesIn(events, t), START);
             all.Ok? && !all.value.FullRequest?
    ensures var handled := Polled(host, stream, events, t);
            && handled.Kept? && handled.source.Stream? && handled.source.state.Read? && !Doomed(handled.source)
            && handled.source.acceptTime == stream.acceptTime
            && handled.source.wire == stream.wire.(received := stream.wire.received + BytesIn(events, t))
  {
    hide ValidHost, TryParse, Pieces, ReadAll, Stored;
    assert stream.wire.received + "" == stream.wire.received;
    if EventFor(events, t).Some? && EventFor(events, t).value.readable {
      ReadsAllThereIs(stream.state.request, stream.wire, EventFor(events, t).value.input);
    }
  }

  /** The handler was called once, with the request `full`. */
  ghost predicate HasHandled(loop: Loop, t: Token, full: Request) {
    || (t in loop.sources && loop.sources[t].Stream? && !loop.sources[t].state.Read?
        && loop.sources[t].wire.handled == [full])
    || (t in loop.retired && loop.retired[t].Stream? && !loop.retired[t].state.Read?
        && loop.retired[t].wire.handled == [full])
  }

  lemma HandledStays(host: Host, world: World, steps: seq<Step>, t: Token, full: Request)
    requires ValidHost(host) && Settled(host, world.loop, world.startup) && Legal(host, world, steps)
    requires HasHandled(world.loop, t, full)
    ensures Run(host, world, steps).Some? && HasHandled(Run(host, world, steps).value.loop, t, full)
  {
    hide ValidHost, Settled, Legal, Run;
    RunEvolves(host, world, steps);
  }

  lemma ReadsOneStep(host: Host, loop: Loop, startup: seq<Command>, events: seq<Event>, clock: nat -> Time, t: Token)
    requires ValidHost(host) && Settled(host, loop, startup) && Reports(loop, events) && IsReading(loop, t)
    requires !ReadFails(events, t) && !Reaches(clock, loop.sources[t].acceptTime + 60_000_000_000)
    requires var all := TryParse(loop.sources[t].wire.received + BytesIn(events, t), START);
             all.Ok? && !all.value.FullRequest?
    ensures Iterate(host, loop, events, clock).Some?
    ensures var next := Iterate(host, loop, events, clock).value;
            && IsReading(next, t) && next.sources[t].acceptTime == loop.sources[t].acceptTime
            && next.sources[t].wire.received == loop.sources[t].wire.received + BytesIn(events, t)
  {
    hide ValidHost, Settled, Iterate, TryParse, Truthful, Parsed, HandleEvent, EventFor, Reports, BytesIn, Doomed,
         ReadFails, Reaches;
    var k := CheckIsQueued(host, loop, startup, t);
    IterationDecides(host, loop, startup, events, clock, t, k);
    StreamOfSettled(host, loop, startup, t);
    ReadsOn(host, loop.sources[t], events, t);
    NotReached(clock, loop.sources[t].acceptTime + 60_000_000_000, k);
  }

  lemma CompletesOneStep(host: Host, loop: Loop, startup: seq<Command>, events: seq<Event>, clock: nat -> Time,
                         t: Token, full: Request)
    requires ValidHost(host) && Settled(host, loop, startup) && Reports(loop, events) && IsReading(loop, t)
    requires TryParse(loop.sources[t].wire.received + BytesIn(events, t), START) == Ok(FullRequest(full))
    ensures Iterate(host, loop, events, clock).Some?
    ensures HasHandled(Iterate(host, loop, events, clock).value, t, full)
  {
    hide ValidHost, Settled, Iterate, TryParse, Pieces, Reports;
    StreamOfSettled(host, loop, startup, t);
    IncompleteYet(loop.sources[t]);
    assert loop.sources[t].wire.received + "" == loop.sources[t].wire.received;
    EventForIsReported(events, t);
    RequestIsHandled(host, loop, startup, events, clock, t, EventFor(events, t).value, full);
  }

  lemma IncompleteYet(stream: EventSource)
    requires stream.Stream? && stream.state.Read? && Parsed(stream.wire, stream.state.request)
    ensures !Complete(stream.wire) && TryParse(stream.wire.received, START).Ok?
  {
    hide TryParse;
    StoredNotFull(stream.state.request);
  }

  lemma NothingFailsNow(steps: seq<Step>, t: Token, limit: Time)
    requires steps != [] && steps[0].Poll? && !SomeReadFails(steps, t) && !SomeTimeReaches(steps, limit)
    ensures !ReadFails(steps[0].events, t) && !Reaches(steps[0].clock, limit)
  {
    hide ReadFails, Reaches;
  }

  /** In every run, a reading connection to which the polls deliver a full request in any portions, without a failed
      read and before its timeout, has that request handled. */
  lemma {:induction false} RequestsAreHandled(host: Host, world: World, steps: seq<Step>, t: Token, full: Request)
    requires ValidHost(host) && Settled(host, world.loop, world.startup) && Legal(host, world, steps)
    requires IsReading(world.loop, t) && !SomeReadFails(steps, t)
    requires !SomeTimeReaches(steps, world.loop.sources[t].acceptTime + 60_000_000_000)
    requires TryParse(world.loop.sources[t].wire.received + BytesOver(steps, t), START) == Ok(FullRequest(full))
    ensures Run(host, world, steps).Some? && HasHandled(Run(host, world, steps).value.loop, t, full)
    decreases |steps|
  {
    hide ValidHost, Settled, Reports, Iterate, TryParse, BytesIn, HasHandled, SomeReadFails, SomeTimeReaches, ReadFails,
         Reaches;
    var stream := world.loop.sources[t];
    assert stream.wire.received + "" == stream.wire.received;
    if steps == [] {
      StreamOfSettled(host, world.loop, world.startup, t);
      IncompleteYet(stream);
    } else {
      LaterSteps(steps, t, stream.acceptTime + 60_000_000_000);
      match steps[0] {
        case MainSends =>
          if world.startup != [] {
            SendingKeeps(host, world);
          }
          assert "" + BytesOver(steps[1..], t) == BytesOver(steps[1..], t);
          RequestsAreHandled(host, Take(host, world, steps[0]).value, steps[1..], t, full);
        case Poll(events, clock) =>
          NothingFailsNow(steps, t, stream.acceptTime + 60_000_000_000);
          IterationKeeps(host, world.loop, world.startup, events, clock, 0);
          var next := Take(host, world, steps[0]).value;
          var now, later := stream.wire.received + BytesIn(events, t), BytesOver(steps[1..], t);
          assert now + later == stream.wire.received + BytesOver(steps, t);
          if TryParse(now, START).Err? || TryParse(now, START).value.FullRequest? {
            ParsePrefix(now, later);
            CompletesOneStep(host, world.loop, world.startup, events, clock, t, full);
            HandledStays(host, next, steps[1..], t, full);
          } else {
            ReadsOneStep(host, world.loop, world.startup, events, clock, t);
            RequestsAreHandled(host, next, steps[1..], t, full);
          }
      }
    }
  }

  lemma RecordOfSettled(host: Host, loop: Loop, startup: seq<Command>, t: Token, stream: EventSource)
    requires ValidHost(host) && Settled(host, loop, startup) && Recorded(loop, t, stream)
    ensures Truthful(host, stream)
  {
    hide ValidHost, Truthful, QueueFits, StartupFits;
    var high := High(loop, startup);
    if t in loop.sources && loop.sources[t] == stream {
      assert SourceFits(host, t, stream, loop.interests[t], loop.queue, [], 0, high);
    } else {
      assert RetiredFits(host, t, stream, high);
    }
  }

  /** What a connection that handled `full` has sent and has still to send is the reply to it. */
  lemma OwesReply(host: Host, stream: EventSource, full: Request)
    requires ValidHost(host) && stream.Stream? && Truthful(host, stream)
    requires !stream.state.Read? && stream.wire.handled == [full]
    ensures !TryParse(stream.wire.received, START).Err?
    ensures Answer(host, stream.wire.received, false) == Some(Reply(host, full, false))
    ensures stream.state.Write? ==> |Remaining(host, stream.state.response)| <= |Reply(host, full, false)|
  {
    hide ValidHost, TryParse, Reply, Remaining;
  }

  lemma HandledThenClosed(host: Host, world: World, steps: seq<Step>, t: Token, full: Request)
    requires ValidHost(host) && Settled(host, world.loop, world.startup) && Legal(host, world, steps)
    requires t in world.loop.sources && !SomeWriteFails(steps, t)
    requires Run(host, world, steps).Some? && HasHandled(Run(host, world, steps).value.loop, t, full)
    requires t in Run(host, world, steps).value.loop.retired
    ensures var last := Run(host, world, steps).value.loop.retired[t];
            last.Stream? ==> last.state.Close? || last.state.Read?
  {
    hide ValidHost, Settled, Legal, Run, HasHandled, ReadFails, WriteFails, Reaches, TryParse, Owes, Remaining;
    RunKeeps(host, world, steps);
    RetiredApart(host, world.loop, world.startup);
    RunEnds(host, world, steps, t);
    var end := Run(host, world, steps).value;
    var last := end.loop.retired[t];
    if last.Stream? {
      RecordOfSettled(host, end.loop, end.startup, t, last);
      var i :| 0 <= i < |steps| && CauseIn(steps[i], t, last);
      if last.state.Write? {
        WritingIsNotDoomed(host, last);
      }
    }
  }

  /** A run serves a connection: a stretch of it that delivers a request in time, in whatever portions, and then one in
      which more writes take something than the reply has bytes. It ends closed, having sent the reply, which is what
      the sequential server answers. */
  lemma RunServes(host: Host, world: World, asking: seq<Step>, taking: seq<Step>, t: Token, full: Request)
    requires ValidHost(host) && Settled(host, world.loop, world.startup) && Legal(host, world, asking)
    requires IsReading(world.loop, t) && !SomeReadFails(asking, t)
    requires !SomeTimeReaches(asking, world.loop.sources[t].acceptTime + 60_000_000_000)
    requires TryParse(world.loop.sources[t].wire.received + BytesOver(asking, t), START) == Ok(FullRequest(full))
    requires Run(host, world, asking).Some? ==> Legal(host, Run(host, world, asking).value, taking)
    requires !SomeWriteFails(asking, t) && !SomeWriteFails(taking, t)
    requires TakesOver(taking, t) > |Reply(host, full, false)|
    ensures Run(host, world, asking).Some?
    ensures var end := Run(host, Run(host, world, asking).value, taking);
            && end.Some? && t in end.value.loop.retired
            && var last := end.value.loop.retired[t];
               last.Stream? && last.state.Close? && last.wire.handled == [full]
               && last.wire.sent == Reply(host, full, false)
               && Answer(host, last.wire.received, false) == Some(last.wire.sent)
  {
    hide ValidHost, Settled, Legal, Run, TryParse, Reply, SomeWriteFails, SomeReadFails, SomeTimeReaches, Truthful,
         Remaining, Answer;
    RequestsAreHandled(host, world, asking, t, full);
    RunKeeps(host, world, asking);
    var middle := Run(host, world, asking).value;
    RetiredApart(host, middle.loop, middle.startup);
    HandledStays(host, middle, taking, t, full);
    if t in middle.loop.sources {
      var stream := middle.loop.sources[t];
      RecordOfSettled(host, middle.loop, middle.startup, t, stream);
      OwesReply(host, stream, full);
      SettledIsOpen(host, middle.loop, middle.startup, t);
      AnswersAreFinished(host, middle, taking, t);
    } else {
      var stream := middle.loop.retired[t];
      RecordOfSettled(host, middle.loop, middle.startup, t, stream);
      HandledThenClosed(host, world, asking, t, full);
      OwesReply(host, stream, full);
      ClosedHasSent(host, stream);
      AnsweredStays(host, middle, taking, t, stream.wire.received);
    }
    RunKeeps(host, middle, taking);
    var end := Run(host, middle, taking).value;
    RetiredApart(host, end.loop, end.startup);
    RecordOfSettled(host, end.loop, end.startup, t, end.loop.retired[t]);
    OwesReply(host, end.loop.retired[t], full);
  }

  lemma SettledIsOpen(host: Host, loop: Loop, startup: seq<Command>, t: Token)
    requires ValidHost(host) && Settled(host, loop, startup) && t in loop.sources && loop.sources[t].Stream?
    ensures !loop.sources[t].state.Close?
  {
    hide ValidHost, Settled;
    StreamOfSettled(host, loop, startup, t);
  }
}

/** What an iteration decides about each connection, exactly: whether it goes on, in which state, and why it ends. */
module SelectorEndings {
  import opened Text
  import opened Requests
  import opened Sequential
  import opened Selector
  import opened SelectorInvariant
  import opened SelectorCommands
  import opened SelectorEvents
  import opened SelectorRuns
  import opened SelectorEvolution

  // ---------- the events of a poll ----------

  /** The event a poll reports for a token, if any. */
  function EventFor(events: seq<Event>, t: Token): Option<Event> {
    if events == [] then None else if events[0].token == t then Some(events[0]) else EventFor(events[1..], t)
  }

  /** What a poll makes of the source with token `t`. */
  function Polled(host: Host, source: EventSource, events: seq<Event>, t: Token): Handled
    requires ValidHost(host)
  {
    match EventFor(events, t)
    case None => Kept(source, [])
    case Some(event) => HandleEvent(host, source, event)
  }

  /** Each event has a source of its own. */
  predicate Known(loop: Loop, events: seq<Event>) {
    && (forall i | 0 <= i < |events| :: events[i].token in loop.sources)
    && (forall i, j | 0 <= i < j < |events| :: events[i].token != events[j].token)
  }

  /** `now` has of `t` what `before` has. */
  predicate SameRecord(before: Loop, now: Loop, t: Token) {
    && (t in before.sources <==> t in now.sources)
    && (t in before.sources ==> now.sources[t] == before.sources[t])
    && (t in before.retired <==> t in now.retired)
    && (t in before.retired ==> now.retired[t] == before.retired[t])
  }

  lemma {:induction false} EventsDecide(host: Host, loop: Loop, events: seq<Event>, t: Token)
    requires ValidHost(host) && Known(loop, events)
    ensures AllEvents(host, loop, events).Some?
    ensures var polled := AllEvents(host, loop, events).value;
            loop.queue <= polled.queue
            && if EventFor(events, t).None? then SameRecord(loop, polled, t)
               else t in loop.sources
                    && match Polled(host, loop.sources[t], events, t)
                       case Kept(source, _) =>
                         t in polled.sources && polled.sources[t] == source
                         && (t in polled.retired <==> t in loop.retired)
                       case Dropped(source) =>
                         t !in polled.sources && t in polled.retired && polled.retired[t] == source
    decreases |events|
  {
    hide ValidHost, HandleEvent;
    if events == [] {
    } else {
      var next := OneEvent(host, loop, events[0]).value;
      var rest := events[1..];
      assert forall i | 0 <= i < |rest| :: rest[i] == events[i + 1];
      EventsDecide(host, next, rest, t);
      if events[0].token == t {
        NoEventFor(rest, t);
      }
    }
  }

  lemma {:induction false} NoEventFor(events: seq<Event>, t: Token)
    requires forall i | 0 <= i < |events| :: events[i].token != t
    ensures EventFor(events, t) == None
  {
    if events == [] {
    } else {
      NoEventFor(events[1..], t);
    }
  }

  lemma {:induction false} EventForIsReported(events: seq<Event>, t: Token)
    ensures EventFor(events, t).Some? ==> EventFor(events, t).value in events && EventFor(events, t).value.token == t
  {
    if events == [] {
    } else {
      EventForIsReported(events[1..], t);
    }
  }

  lemma {:induction false} EventForIs(events: seq<Event>, event: Event)
    requires event in events
    requires forall i, j | 0 <= i < j < |events| :: events[i].token != events[j].token
    ensures EventFor(events, event.token) == Some(event)
  {
    if events[0] == event {
    } else {
      var i :| 0 <= i < |events| && events[i] == event;
      assert events[1..][i - 1] == event;
      EventForIs(events[1..], event);
    }
  }

  // ---------- handlers that fail ----------

  lemma {:induction false} ReadFailure(request: Incremental, wire: Wire, input: seq<ReadOutcome>)
    ensures ReadAll(request, wire, input).Broken? ==> ReadFailed in input
    decreases |input|
  {
    hide TryParse;
    if input == [] || !input[0].Got? || input[0].bytes == "" {
    } else {
      var next := TryParse(input[0].bytes, request);
      if next.Ok? && !next.value.FullRequest? {
        ReadFailure(next.value, wire.(received := wire.received + input[0].bytes), input[1..]);
      }
    }
  }

  lemma {:induction false} WriteFailure(bytes: string, wire: Wire, output: seq<WriteOutcome>)
    ensures WriteAll(bytes, wire, output).Severed? ==> WriteFailed in output
    decreases |output|
  {
    if output == [] || !output[0].Took? || Accepts(output[0].count, bytes) == 0 {
    } else {
      var n := Accepts(output[0].count, bytes);
      WriteFailure(bytes[n..], wire.(sent := wire.sent + bytes[..n]), output[1..]);
    }
  }

  /** A connection is dropped by its handler only when a read failed while it was reading or a write failed while it
      was writing, and stays in that state. */
  lemma DroppedByFailure(host: Host, stream: EventSource, event: Event)
    requires ValidHost(host) && stream.Stream? && HandleEvent(host, stream, event).Dropped?
    ensures var last := HandleEvent(host, stream, event).source;
            last.Stream? && if last.state.Read? then ReadFailed in event.input
                            else last.state.Write? && WriteFailed in event.output
  {
    hide ValidHost, Remaining, TryParse;
    match stream.state
    case Read(request) => ReadFailure(request, stream.wire, event.input);
    case Write(response) => WriteFailure(Remaining(host, response), stream.wire, event.output);
  }

  // ---------- the command phase ----------

  /** A stream's closing is queued exactly when it has nothing left to do. */
  lemma CloseMeansDoomed(host: Host, loop: Loop, again: seq<Command>, startup: seq<Command>, from: Time, t: Token)
    requires ValidHost(host) && Sound(host, loop, again, startup, from)
    requires t in loop.sources && loop.sources[t].Stream?
    ensures 2 <= t && Truthful(host, loop.sources[t])
    ensures Respond(CloseSource(t)) in loop.queue <==> Doomed(loop.sources[t])
  {
    hide ValidHost, TryParse, Stored, Remaining, Answer, StartupFits, RetiredFit, Pending, BornAt;
    var high := High(loop, startup);
    assert SourceFits(host, t, loop.sources[t], loop.interests[t], loop.queue, again, from, high);
    if Respond(CloseSource(t)) in loop.queue {
      var i :| 0 <= i < |loop.queue| && loop.queue[i] == Respond(CloseSource(t));
      assert CommandFits(loop, i, high);
    }
  }

  /** A command leaves a stream alone unless it closes it or checks its timeout. */
  lemma HeadSpares(host: Host, loop: Loop, again: seq<Command>, startup: seq<Command>, now: Time, t: Token)
    requires ValidHost(host) && Sound(host, loop, again, startup, 0)
    requires loop.queue != [] && t in loop.sources
    requires loop.queue[0] != Respond(CloseSource(t)) && loop.queue[0] != CheckTimeout(t)
    ensures var next := ExecuteHead(loop, now).0; t in next.sources && next.sources[t] == loop.sources[t]
  {
    hide ValidHost, SourcesFit, QueueFits, RetiredFit, StartupFits, CheckStreamTimeout;
    QueuedTokens(loop, again, High(loop, startup));
    if loop.queue[0].CheckTimeout? {
      CheckCases(loop, loop.queue[0].token, now);
    }
  }

  /** The place of the only check of `t` on the queue; past its end when there is none. */
  predicate IsCheck(queue: seq<Command>, t: Token, j: nat) {
    if j < |queue| then queue[j] == CheckTimeout(t) else CheckTimeout(t) !in queue
  }

  lemma CheckAtHead(loop: Loop, again: seq<Command>, high: Option<Token>, t: Token, j: nat)
    requires QueueFits(loop, again, high) && loop.queue != [] && IsCheck(loop.queue, t, j)
    ensures loop.queue[0] == CheckTimeout(t) <==> j == 0
    ensures IsCheck(loop.queue[1..], t, if j == 0 then |loop.queue| - 1 else j - 1)
  {
    hide CommandFits;
    assert Pending(t, loop.queue, again) <= 1;
    Popped(loop.queue);
    InMultiset(loop.queue[1..], CheckTimeout(t));
    if 0 < j < |loop.queue| {
      assert loop.queue[1..][j - 1] == CheckTimeout(t);
    }
  }

  /** The command phase ends a stream exactly when it has nothing left to do, or still reads and has reached the
      timeout when its check is carried out; any other it leaves as it is. */
  lemma {:induction false} DrainDecides(host: Host, loop: Loop, clock: nat -> Time, k: nat, again: seq<Command>,
                                        startup: seq<Command>, t: Token, j: nat)
    requires ValidHost(host) && Sound(host, loop, again, startup, 0)
    requires t in loop.sources && loop.sources[t].Stream?
    requires loop.sources[t].state.Read? ==> IsCheck(loop.queue, t, j)
    ensures var stream, end := loop.sources[t], Drain(loop, clock, k, again);
            var late := stream.state.Read? && j < |loop.queue| && stream.acceptTime + STREAM_TIMEOUT <= clock(k + j);
            if Doomed(stream) || late then t in end.retired && end.retired[t] == stream
            else t in end.sources && end.sources[t] == stream
    decreases |loop.queue|
  {
    hide ValidHost, Sound, ExecuteHead, Doomed, IsCheck;
    if loop.queue == [] {
      CloseMeansDoomed(host, loop, again, startup, 0, t);
      assert Drain(loop, clock, k, again) == loop.(queue := again);
    } else {
      var (next, more) := ExecuteHead(loop, clock(k));
      assert Drain(loop, clock, k, again) == Drain(next, clock, k + 1, again + more);
      CommandKeeps(host, loop, again, startup, 0, clock(k));
      if t in next.sources && next.sources[t] == loop.sources[t] {
        var j' := if j == 0 then |next.queue| else j - 1;
        HeadKeeps(host, loop, again, startup, clock(k), t, j);
        DrainDecides(host, next, clock, k + 1, again + more, startup, t, j');
      } else {
        HeadEnds(host, loop, again, startup, clock(k), t);
        CheckIsHead(host, loop, again, startup, t, j);
        RetiredStays(host, next, clock, k + 1, again + more, startup, t);
      }
    }
  }

  lemma CheckIsHead(host: Host, loop: Loop, again: seq<Command>, startup: seq<Command>, t: Token, j: nat)
    requires ValidHost(host) && Sound(host, loop, again, startup, 0) && loop.queue != []
    requires t in loop.sources && loop.sources[t].Stream?
    requires loop.sources[t].state.Read? ==> IsCheck(loop.queue, t, j)
    ensures loop.sources[t].state.Read? ==>
              && (loop.queue[0] == CheckTimeout(t) <==> j == 0)
              && IsCheck(loop.queue[1..], t, if j == 0 then |loop.queue| - 1 else j - 1)
  {
    hide ValidHost, Sound, IsCheck, QueueFits, High;
    QueueOfSound(host, loop, again, startup);
    if loop.sources[t].state.Read? {
      CheckAtHead(loop, again, High(loop, startup), t, j);
    }
  }

  /** A command that leaves a reading stream in place was not its check come due. */
  lemma HeadKeeps(host: Host, loop: Loop, again: seq<Command>, startup: seq<Command>, now: Time, t: Token, j: nat)
    requires ValidHost(host) && Sound(host, loop, again, startup, 0) && loop.queue != []
    requires t in loop.sources && loop.sources[t].Stream? && t in ExecuteHead(loop, now).0.sources
    requires loop.sources[t].state.Read? ==> IsCheck(loop.queue, t, j)
    ensures loop.sources[t].state.Read? ==>
              && (j == 0 ==> now < loop.sources[t].acceptTime + STREAM_TIMEOUT)
              && IsCheck(loop.queue[1..], t, if j == 0 then |loop.queue| - 1 else j - 1)
  {
    hide ValidHost, Sound, IsCheck, ExecuteHead;
    CheckIsHead(host, loop, again, startup, t, j);
    if loop.queue[0] == CheckTimeout(t) {
      CheckOutcome(host, loop, again, startup, 0, now);
    }
  }

  lemma RetiredStays(host: Host, loop: Loop, clock: nat -> Time, k: nat, again: seq<Command>, startup: seq<Command>,
                     t: Token)
    requires ValidHost(host) && Sound(host, loop, again, startup, 0) && t in loop.retired
    ensures var end := Drain(loop, clock, k, again); t in end.retired && end.retired[t] == loop.retired[t]
  {
    hide ValidHost, Sound, Drain;
    DrainEvolves(host, loop, clock, k, again, startup);
  }

  lemma QueueOfSound(host: Host, loop: Loop, again: seq<Command>, startup: seq<Command>)
    requires ValidHost(host) && Sound(host, loop, again, startup, 0)
    ensures QueueFits(loop, again, High(loop, startup))
  {
    hide ValidHost, SourcesFit, QueueFits, RetiredFit, StartupFits;
  }

  /** A command that takes a stream out retires it as it is, because it has nothing left to do or is late. */
  lemma HeadEnds(host: Host, loop: Loop, again: seq<Command>, startup: seq<Command>, now: Time, t: Token)
    requires ValidHost(host) && Sound(host, loop, again, startup, 0)
    requires loop.queue != [] && t in loop.sources && loop.sources[t].Stream?
    requires var next := ExecuteHead(loop, now).0; t !in next.sources || next.sources[t] != loop.sources[t]
    ensures var stream, next := loop.sources[t], ExecuteHead(loop, now).0;
            t in next.retired && next.retired[t] == stream
            && (Doomed(stream)
                || (loop.queue[0] == CheckTimeout(t) && stream.state.Read?
                    && stream.acceptTime + STREAM_TIMEOUT <= now))
  {
    hide ValidHost, Sound, Doomed, CheckStreamTimeout;
    CloseMeansDoomed(host, loop, again, startup, 0, t);
    if loop.queue[0] == CheckTimeout(t) {
      CheckOutcome(host, loop, again, startup, 0, now);
    } else if loop.queue[0] != Respond(CloseSource(t)) {
      HeadSpares(host, loop, again, startup, now, t);
    }
  }

  // ---------- one iteration ----------

  /** Whether a connection ends in an iteration whose events made `handled` of it and in which its timeout is checked
      at `now`. */
  predicate Over(handled: Handled, now: Time)
    requires handled.source.Stream?
  {
    || handled.Dropped?
    || Doomed(handled.source)
    || (handled.source.state.Read? && handled.source.acceptTime + STREAM_TIMEOUT <= now)
  }

  lemma StaysStream(host: Host, stream: EventSource, events: seq<Event>, t: Token)
    requires ValidHost(host) && stream.Stream?
    ensures var handled := Polled(host, stream, events, t);
            && handled.source.Stream? && handled.source.acceptTime == stream.acceptTime
            && (handled.source.state.Read? ==> stream.state.Read?)
  {
    hide ValidHost, HandleEvent;
    if EventFor(events, t).Some? {
      HandlerMovesForward(host, stream, EventFor(events, t).value);
    }
  }

  /** An iteration is, for each connection, a step of its own that no other connection influences: its event is
      handled, and it ends exactly when the handler failed, when nothing is left to do, or when it still reads and has
      reached the timeout at the moment its check, at `k` on the queue, is carried out. */
  lemma IterationDecides(host: Host, loop: Loop, startup: seq<Command>, events: seq<Event>, clock: nat -> Time,
                         t: Token, k: nat)
    requires ValidHost(host) && Settled(host, loop, startup) && Reports(loop, events)
    requires t in loop.sources && loop.sources[t].Stream?
    requires loop.sources[t].state.Read? ==> k < |loop.queue| && loop.queue[k] == CheckTimeout(t)
    ensures Iterate(host, loop, events, clock).Some?
    ensures var next := Iterate(host, loop, events, clock).value;
            var handled := Polled(host, loop.sources[t], events, t);
            && handled.source.Stream?
            && if Over(handled, clock(k)) then
                 t !in next.sources && t in next.retired && next.retired[t] == handled.source
               else
                 t in next.sources && next.sources[t] == handled.source && t !in next.retired
  {
    hide ValidHost, Sound, AllEvents, Drain, Awaited, Quiet, NoneOverdue, Doomed, HandleEvent, EventFor, IsCheck;
    PollIsAwaited(host, loop, startup, events);
    assert Known(loop, events) by { AwaitedIsKnown(loop, events); }
    EventsKeep(host, loop, startup, 0, events);
    EventsDecide(host, loop, events, t);
    StaysStream(host, loop.sources[t], events, t);
    IterationKeeps(host, loop, startup, events, clock, 0);
    var polled := AllEvents(host, loop, events).value;
    RetiredApart(host, Drain(polled, clock, 0, []), startup);
    var handled := Polled(host, loop.sources[t], events, t);
    if handled.Dropped? {
      RetiredStays(host, polled, clock, 0, [], startup, t);
    } else {
      assert IsCheck(polled.queue, t, k) || !handled.source.state.Read? by {
        if handled.source.state.Read? { CheckKeepsPlace(loop.queue, polled.queue, t, k); }
      }
      DrainDecides(host, polled, clock, 0, [], startup, t, k);
      assert handled.source.state.Read? ==> k < |polled.queue|;
    }
  }

  lemma CheckKeepsPlace(queue: seq<Command>, longer: seq<Command>, t: Token, k: nat)
    requires queue <= longer && k < |queue| && queue[k] == CheckTimeout(t)
    ensures IsCheck(longer, t, k)
  {
  }

  lemma AwaitedIsKnown(loop: Loop, events: seq<Event>)
    requires Awaited(loop, events)
    ensures Known(loop, events)
  {
    hide WritesProgress, Undisturbed;
  }

  /** Every stream that reads between iterations has its check on the queue. */
  lemma CheckIsQueued(host: Host, loop: Loop, startup: seq<Command>, t: Token) returns (k: nat)
    requires ValidHost(host) && Settled(host, loop, startup)
    requires t in loop.sources && loop.sources[t].Stream?
    ensures loop.sources[t].state.Read? ==> k < |loop.queue| && loop.queue[k] == CheckTimeout(t)
  {
    hide ValidHost, Truthful, Parsed, QueueFits, RetiredFit, StartupFits;
    assert SourceFits(host, t, loop.sources[t], loop.interests[t], loop.queue, [], 0, High(loop, startup));
    if loop.sources[t].state.Read? {
      InMultiset(loop.queue, CheckTimeout(t));
      k :| 0 <= k < |loop.queue| && loop.queue[k] == CheckTimeout(t);
    } else {
      k := 0;
    }
  }

  // ---------- why connections end ----------

  predicate ReadFails(events: seq<Event>, t: Token) {
    EventFor(events, t).Some? && ReadFailed in EventFor(events, t).value.input
  }

  predicate WriteFails(events: seq<Event>, t: Token) {
    EventFor(events, t).Some? && WriteFailed in EventFor(events, t).value.output
  }

  /** Some command of the iteration is carried out at `limit` or later. */
  ghost predicate Reaches(clock: nat -> Time, limit: Time) {
    exists k: nat :: limit <= clock(k)
  }

  /** What can end a connection in the state `stream` during one iteration. */
  ghost predicate Ends(events: seq<Event>, clock: nat -> Time, t: Token, stream: EventSource)
    requires stream.Stream?
  {
    || Doomed(stream)
    || (stream.state.Read? && (ReadFails(events, t) || Reaches(clock, stream.acceptTime + STREAM_TIMEOUT)))
    || (stream.state.Write? && WriteFails(events, t))
  }

  /** The command phase ends no connection, old or new, for another reason. */
  lemma {:induction false} DrainEnds(host: Host, loop: Loop, clock: nat -> Time, k: nat, again: seq<Command>,
                                     startup: seq<Command>, t: Token)
    requires ValidHost(host) && Sound(host, loop, again, startup, 0) && t !in loop.retired
    ensures var end := Drain(loop, clock, k, again);
            t in end.retired && end.retired[t].Stream? ==>
              Doomed(end.retired[t])
              || (end.retired[t].state.Read? && Reaches(clock, end.retired[t].acceptTime + STREAM_TIMEOUT))
    decreases |loop.queue|
  {
    hide ValidHost, Sound, ExecuteHead, Doomed, Reaches;
    if loop.queue == [] {
      assert Drain(loop, clock, k, again) == loop.(queue := again);
    } else {
      var (next, more) := ExecuteHead(loop, clock(k));
      assert Drain(loop, clock, k, again) == Drain(next, clock, k + 1, again + more);
      CommandKeeps(host, loop, again, startup, 0, clock(k));
      if t in next.retired {
        RetiredStays(host, next, clock, k + 1, again + more, startup, t);
        RetiredByHead(host, loop, again, startup, clock, k, t);
      } else {
        DrainEnds(host, next, clock, k + 1, again + more, startup, t);
      }
    }
  }

  lemma RetiredByHead(host: Host, loop: Loop, again: seq<Command>, startup: seq<Command>, clock: nat -> Time, k: nat,
                      t: Token)
    requires ValidHost(host) && Sound(host, loop, again, startup, 0)
    requires loop.queue != [] && t !in loop.retired && t in ExecuteHead(loop, clock(k)).0.retired
    ensures var next := ExecuteHead(loop, clock(k)).0;
            next.retired[t].Stream? ==>
              Doomed(next.retired[t])
              || (next.retired[t].state.Read? && Reaches(clock, next.retired[t].acceptTime + STREAM_TIMEOUT))
  {
    hide ValidHost, Sound, Doomed, ExecuteHead;
    var next := ExecuteHead(loop, clock(k)).0;
    RetiredWasSource(host, loop, again, startup, clock(k), t);
    if next.retired[t].Stream? {
      HeadEnds(host, loop, again, startup, clock(k), t);
    }
  }

  lemma RetiredWasSource(host: Host, loop: Loop, again: seq<Command>, startup: seq<Command>, now: Time, t: Token)
    requires ValidHost(host) && Sound(host, loop, again, startup, 0)
    requires loop.queue != [] && t !in loop.retired && t in ExecuteHead(loop, now).0.retired
    ensures var next := ExecuteHead(loop, now).0;
            t in loop.sources && t !in next.sources && next.retired[t] == loop.sources[t]
  {
    hide ValidHost, SourcesFit, RetiredFit, StartupFits, QueueFits, CheckStreamTimeout;
    if loop.queue[0].CheckTimeout? {
      CheckCases(loop, loop.queue[0].token, now);
    } else {
      NothingSubmitted(host, loop, again, startup, 0);
    }
  }

  /** An iteration ends a connection only because it has nothing left to do, because its own read or write failed, or
      because it was reading and its timeout was reached. */
  lemma IterationEnds(host: Host, loop: Loop, startup: seq<Command>, events: seq<Event>, clock: nat -> Time, t: Token)
    requires ValidHost(host) && Settled(host, loop, startup) && Reports(loop, events) && t !in loop.retired
    ensures Iterate(host, loop, events, clock).Some?
    ensures var next := Iterate(host, loop, events, clock).value;
            t in next.retired && next.retired[t].Stream? ==> Ends(events, clock, t, next.retired[t])
  {
    hide ValidHost, Sound, AllEvents, Drain, Awaited, Quiet, Doomed, HandleEvent, EventFor, Reaches;
    PollIsAwaited(host, loop, startup, events);
    assert Known(loop, events) by { AwaitedIsKnown(loop, events); }
    EventsKeep(host, loop, startup, 0, events);
    EventsDecide(host, loop, events, t);
    var polled := AllEvents(host, loop, events).value;
    if t in polled.retired {
      RetiredStays(host, polled, clock, 0, [], startup, t);
      if polled.retired[t].Stream? {
        var event := EventFor(events, t).value;
        assert HandleEvent(host, loop.sources[t], event).Dropped?;
        DroppedIsStream(host, loop.sources[t], event);
        DroppedByFailure(host, loop.sources[t], event);
      }
    } else {
      DrainEnds(host, polled, clock, 0, [], startup, t);
    }
  }

  lemma DroppedIsStream(host: Host, source: EventSource, event: Event)
    requires ValidHost(host)
    ensures HandleEvent(host, source, event).source.Stream? <==> source.Stream?
  {
    hide ValidHost, HandleEvent;
    HandlerMovesForward(host, source, event);
  }

  // ---------- connections that are accepted ----------

  /** The command phase registers a stream whose birth is queued, and then checks its timeout for the first time. */
  lemma {:induction false} DrainAdmits(host: Host, loop: Loop, clock: nat -> Time, k: nat, again: seq<Command>,
                                       startup: seq<Command>, i: nat)
    requires ValidHost(host) && Sound(host, loop, again, startup, 0) && BornAt(loop.queue, i)
    ensures var born, end := loop.queue[i].response, Drain(loop, clock, k, again);
            if born.source.acceptTime + STREAM_TIMEOUT <= clock(k + i + 1) then
              born.token in end.retired && end.retired[born.token] == born.source
            else born.token in end.sources && end.sources[born.token] == born.source
    decreases i
  {
    hide ValidHost, Sound, ExecuteHead, BornAt, Doomed;
    BornIsCommand(loop.queue, i);
    var (next, more) := ExecuteHead(loop, clock(k));
    CommandKeeps(host, loop, again, startup, 0, clock(k));
    if i > 0 {
      BornTail(loop.queue, i - 1);
      DrainAdmits(host, next, clock, k + 1, again + more, startup, i - 1);
    } else {
      var t := loop.queue[0].response.token;
      Registered(loop, clock(k));
      assert again + [] == again;
      DrainDecides(host, next, clock, k + 1, again, startup, t, 0);
      assert !Doomed(next.sources[t]) by { NewbornIsNotDoomed(next.sources[t].acceptTime); }
    }
  }

  lemma BornIsCommand(queue: seq<Command>, i: nat)
    requires BornAt(queue, i)
    ensures i + 1 < |queue| && queue[i].Respond? && queue[i].response.NewSource?
    ensures var born := queue[i].response;
            born.source == Stream(NEW_WIRE, Read(START), born.source.acceptTime)
            && queue[i + 1] == CheckTimeout(born.token)
  {
    var birth := Birth(queue[i].response.token, queue[i].response.source.acceptTime);
    assert queue[i] == queue[i..i + 2][0] == birth[0] && queue[i + 1] == queue[i..i + 2][1] == birth[1];
  }

  lemma Registered(loop: Loop, now: Time)
    requires loop.queue != [] && BornAt(loop.queue, 0)
    ensures var born, next := loop.queue[0].response, ExecuteHead(loop, now).0;
            && born.source == Stream(NEW_WIRE, Read(START), born.source.acceptTime)
            && born.token in next.sources && next.sources[born.token] == born.source
            && IsCheck(next.queue, born.token, 0) && next.queue != []
            && ExecuteHead(loop, now).1 == []
  {
    hide BornAt;
    BornIsCommand(loop.queue, 0);
  }

  lemma NewbornIsNotDoomed(at: Time)
    ensures !Doomed(Stream(NEW_WIRE, Read(START), at))
  {
    StartIsStored();
    StoredIsStuck(START);
  }

  /** Every connection a listener accepts is queued under the next token. */
  lemma {:induction false} AcceptAllAt(counter: Token, accepts: seq<AcceptOutcome>, i: nat)
    requires AcceptAll(counter, accepts).Some? && i < |accepts|
    requires forall j | 0 <= j <= i :: accepts[j].Accepted?
    ensures var commands := AcceptAll(counter, accepts).value.1;
            2 * i + 2 <= |commands| && commands[2 * i..2 * i + 2] == Birth(counter + 1 + i, accepts[i].at)
    decreases i
  {
    hide Birth;
    var birth := Birth(counter + 1, accepts[0].at);
    assert |birth| == 2 by { BirthIsTwo(counter + 1, accepts[0].at); }
    var (last, rest) := AcceptAll(counter + 1, accepts[1..]).value;
    if i > 0 {
      AcceptAllAt(counter + 1, accepts[1..], i - 1);
      assert (birth + rest)[2 * i..2 * i + 2] == rest[2 * (i - 1)..2 * (i - 1) + 2];
    } else {
      assert (birth + rest)[0..2] == birth;
    }
  }

  lemma BirthIsTwo(t: Token, at: Time)
    ensures |Birth(t, at)| == 2
  {
  }

  /** The commands of a source that handled its event are queued one after the other. */
  lemma {:induction false} EventsQueue(host: Host, loop: Loop, events: seq<Event>, t: Token) returns (at: nat)
    requires ValidHost(host) && Known(loop, events) && EventFor(events, t).Some? && t in loop.sources
    requires Polled(host, loop.sources[t], events, t).Kept?
    ensures AllEvents(host, loop, events).Some?
    ensures var polled, commands := AllEvents(host, loop, events).value,
                                    Polled(host, loop.sources[t], events, t).commands;
            at + |commands| <= |polled.queue| && polled.queue[at..at + |commands|] == commands
    decreases |events|
  {
    hide ValidHost, HandleEvent;
    var next := OneEvent(host, loop, events[0]).value;
    var rest := events[1..];
    assert forall i | 0 <= i < |rest| :: rest[i] == events[i + 1];
    if events[0].token == t {
      at := |loop.queue|;
      EventsDecide(host, next, rest, t);
      var commands := HandleEvent(host, loop.sources[t], events[0]).commands;
      assert next.queue[at..at + |commands|] == commands;
    } else {
      at := EventsQueue(host, next, rest, t);
    }
  }

  /** The listener's handler gets a connection in its call `i` of `accept`, and none of its calls fails. */
  predicate AcceptsAt(listener: EventSource, event: Event, i: nat) {
    && listener.Listener? && AcceptAll(listener.counter, event.accepts).Some?
    && i < |event.accepts| && forall j | 0 <= j <= i :: event.accepts[j].Accepted?
  }

  predicate IsNewborn(loop: Loop, t: Token, at: Time) {
    t in loop.sources && loop.sources[t] == Stream(NEW_WIRE, Read(START), at)
  }

  /** Every connection the listener accepts is registered in the same iteration, reading, under a token of its own,
      unless it has already reached the timeout when it is checked for the first time. */
  lemma AcceptedIsRegistered(host: Host, loop: Loop, startup: seq<Command>, events: seq<Event>, clock: nat -> Time,
                             event: Event, i: nat)
    requires ValidHost(host) && Settled(host, loop, startup) && Reports(loop, events)
    requires event in events && event.token == LISTENER_TOKEN && LISTENER_TOKEN in loop.sources
    requires AcceptsAt(loop.sources[LISTENER_TOKEN], event, i)
    requires !Reaches(clock, event.accepts[i].at + STREAM_TIMEOUT)
    ensures var next := Iterate(host, loop, events, clock);
            && next.Some?
            && IsNewborn(next.value, loop.sources[LISTENER_TOKEN].counter + 1 + i, event.accepts[i].at)
  {
    hide ValidHost, Sound, AllEvents, Drain, Awaited, Quiet, AcceptAll, Known, Reaches, BornAt, Birth;
    PollIsAwaited(host, loop, startup, events);
    assert Known(loop, events) by { AwaitedIsKnown(loop, events); }
    EventForIs(events, event);
    EventsKeep(host, loop, startup, 0, events);
    var at := EventsQueue(host, loop, events, LISTENER_TOKEN);
    var counter := loop.sources[LISTENER_TOKEN].counter;
    AcceptAllAt(counter, event.accepts, i);
    var polled := AllEvents(host, loop, events).value;
    BirthPlace(polled.queue, at, AcceptAll(counter, event.accepts).value.1, i, counter + 1 + i, event.accepts[i].at);
    DrainAdmits(host, polled, clock, 0, [], startup, at + 2 * i);
    NotReached(clock, event.accepts[i].at + STREAM_TIMEOUT, at + 2 * i + 1);
  }

  lemma NotReached(clock: nat -> Time, limit: Time, k: nat)
    requires !Reaches(clock, limit)
    ensures clock(k) < limit
  {
  }

  lemma BirthPlace(queue: seq<Command>, at: nat, commands: seq<Command>, i: nat, t: Token, time: Time)
    requires at + |commands| <= |queue| && queue[at..at + |commands|] == commands
    requires 2 * i + 2 <= |commands| && commands[2 * i..2 * i + 2] == Birth(t, time)
    ensures BornAt(queue, at + 2 * i)
    ensures queue[at + 2 * i] == Respond(NewSource(t, Stream(NEW_WIRE, Read(START), time), Readable))
  {
    var j := at + 2 * i;
    var birth := Birth(t, time);
    assert commands[2 * i] == commands[2 * i..2 * i + 2][0] == birth[0];
    assert commands[2 * i + 1] == commands[2 * i..2 * i + 2][1] == birth[1];
    assert queue[j] == commands[2 * i] && queue[j + 1] == commands[2 * i + 1];
    assert queue[j..j + 2] == birth;
  }

  // ---------- over whole runs ----------

  /** Some poll of the run gave reason to end the connection in the state `stream`. */
  ghost predicate Cause(steps: seq<Step>, t: Token, stream: EventSource)
    requires stream.Stream?
  {
    exists i :: 0 <= i < |steps| && CauseIn(steps[i], t, stream)
  }

  ghost predicate CauseIn(step: Step, t: Token, stream: EventSource)
    requires stream.Stream?
  {
    step.Poll? && Ends(step.events, step.clock, t, stream)
  }

  /** No connection ends without a cause in one of the polls. */
  lemma {:induction false} RunEnds(host: Host, world: World, steps: seq<Step>, t: Token)
    requires ValidHost(host) && Settled(host, world.loop, world.startup) && Legal(host, world, steps)
    requires t !in world.loop.retired
    ensures Run(host, world, steps).Some?
    ensures var end := Run(host, world, steps).value.loop;
            t in end.retired && end.retired[t].Stream? ==> Cause(steps, t, end.retired[t])
    decreases |steps|
  {
    hide ValidHost, Settled, Reports, Iterate, CauseIn;
    if steps == [] {
    } else {
      StepEnds(host, world, steps[0], t);
      var next := Take(host, world, steps[0]).value;
      if t in next.loop.retired {
        RunEvolves(host, next, steps[1..]);
      } else {
        RunEnds(host, next, steps[1..], t);
        var end := Run(host, next, steps[1..]).value.loop;
        if t in end.retired && end.retired[t].Stream? {
          CauseLater(steps, t, end.retired[t]);
        }
      }
    }
  }

  lemma CauseLater(steps: seq<Step>, t: Token, stream: EventSource)
    requires stream.Stream? && steps != [] && Cause(steps[1..], t, stream)
    ensures Cause(steps, t, stream)
  {
    hide CauseIn;
    var i :| 0 <= i < |steps[1..]| && CauseIn(steps[1..][i], t, stream);
    assert CauseIn(steps[i + 1], t, stream);
  }

  lemma StepEnds(host: Host, world: World, step: Step, t: Token)
    requires ValidHost(host) && Settled(host, world.loop, world.startup) && t !in world.loop.retired
    requires step.Poll? ==> Reports(world.loop, step.events)
    ensures Take(host, world, step).Some?
    ensures var next := Take(host, world, step).value;
            && Settled(host, next.loop, next.startup)
            && (t in next.loop.retired && next.loop.retired[t].Stream? ==> CauseIn(step, t, next.loop.retired[t]))
  {
    hide ValidHost, Settled, Reports, Iterate, Ends;
    match step
    case MainSends =>
      if world.startup != [] {
        SendingKeeps(host, world);
      }
    case Poll(events, clock) =>
      IterationKeeps(host, world.loop, world.startup, events, clock, 0);
      IterationEnds(host, world.loop, world.startup, events, clock, t);
  }
}

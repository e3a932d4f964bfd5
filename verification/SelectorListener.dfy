/** What an iteration decides about the listener and the console, stated over what the system calls return and what is
    typed. */
module SelectorListener {
  import opened Text
  import opened Requests
  import opened Sequential
  import Responses
  import opened Selector
  import opened SelectorInvariant
  import opened SelectorCommands
  import opened SelectorEvents
  import opened SelectorRuns
  import opened SelectorEvolution
  import opened SelectorEndings

  // ---------- accepting ----------

  /** A call of `accept` fails, and every one before it got a connection. */
  predicate AcceptFails(accepts: seq<AcceptOutcome>) {
    exists i :: 0 <= i < |accepts| && accepts[i].AcceptFailed? && forall j | 0 <= j < i :: accepts[j].Accepted?
  }

  /** How many connections are got before a call of `accept` gets none. */
  function AcceptedCount(accepts: seq<AcceptOutcome>): nat {
    if accepts == [] || !accepts[0].Accepted? then 0 else 1 + AcceptedCount(accepts[1..])
  }

  lemma CountedAreAccepted(accepts: seq<AcceptOutcome>)
    ensures AcceptedCount(accepts) <= |accepts| && forall i | 0 <= i < AcceptedCount(accepts) :: accepts[i].Accepted?
    ensures AcceptedCount(accepts) < |accepts| ==> !accepts[AcceptedCount(accepts)].Accepted?
  {
  }

  lemma FailsAfterAccepted(accepts: seq<AcceptOutcome>)
    ensures AcceptFails(accepts)
        <==> AcceptedCount(accepts) < |accepts| && accepts[AcceptedCount(accepts)].AcceptFailed?
  {
    CountedAreAccepted(accepts);
    if AcceptFails(accepts) {
      var i :| 0 <= i < |accepts| && accepts[i].AcceptFailed? && forall j | 0 <= j < i :: accepts[j].Accepted?;
      assert i == AcceptedCount(accepts);
    }
  }

  lemma {:induction false} AcceptAllExactly(counter: Token, accepts: seq<AcceptOutcome>)
    ensures AcceptAll(counter, accepts).None?
        <==> AcceptedCount(accepts) < |accepts| && accepts[AcceptedCount(accepts)].AcceptFailed?
    ensures AcceptAll(counter, accepts).Some? ==>
              AcceptAll(counter, accepts).value.0 == counter + AcceptedCount(accepts)
    decreases |accepts|
  {
    if accepts == [] || !accepts[0].Accepted? {
    } else {
      AcceptAllExactly(counter + 1, accepts[1..]);
    }
  }

  // ---------- the console ----------

  /** The word "shutdown" with any whitespace around it. */
  ghost predicate IsShutdown(line: string) {
    exists before, after :: AllSpace(before) && AllSpace(after) && line == before + ("shutdown" + after)
  }

  lemma ShutdownExactly(line: string)
    ensures Trim(line) == SHUTDOWN <==> IsShutdown(line)
  {
    hide Trim;
    TrimExactly(line, SHUTDOWN);
    forall before, after
      ensures IsTrimOf(SHUTDOWN, line, before, after)
          <==> AllSpace(before) && AllSpace(after) && line == before + ("shutdown" + after)
    {
    }
  }

  // ---------- what events queue ----------

  /** The event's handler queues the command. */
  predicate Queues(host: Host, loop: Loop, event: Event, c: Command)
    requires ValidHost(host)
  {
    && event.token in loop.sources
    && HandleEvent(host, loop.sources[event.token], event).Kept?
    && c in HandleEvent(host, loop.sources[event.token], event).commands
  }

  lemma {:induction false} QueuedByEvents(host: Host, loop: Loop, events: seq<Event>, c: Command)
    requires ValidHost(host) && Known(loop, events)
    ensures AllEvents(host, loop, events).Some?
    ensures c in AllEvents(host, loop, events).value.queue
        <==> c in loop.queue || exists i :: 0 <= i < |events| && Queues(host, loop, events[i], c)
    decreases |events|
  {
    hide ValidHost, HandleEvent;
    if events == [] {
    } else {
      var next := OneEvent(host, loop, events[0]).value;
      var rest := events[1..];
      assert forall i | 0 <= i < |rest| :: rest[i] == events[i + 1];
      QueuedByEvents(host, next, rest, c);
      assert forall i | 0 <= i < |rest| :: Queues(host, next, rest[i], c) <==> Queues(host, loop, events[i + 1], c);
      assert c in next.queue <==> c in loop.queue || Queues(host, loop, events[0], c);
    }
  }

  lemma StreamQueues(host: Host, loop: Loop, event: Event, c: Command)
    requires ValidHost(host) && Queues(host, loop, event, c) && loop.sources[event.token].Stream?
    ensures c == Respond(CloseSource(event.token)) || c == Respond(ModifyInterests(event.token, Writable))
  {
    hide ValidHost, ReadAll, WriteAll, Remaining;
  }

  lemma ListenerQueues(host: Host, loop: Loop, event: Event, c: Command)
    requires ValidHost(host) && Queues(host, loop, event, c) && loop.sources[event.token].Listener?
    ensures var counter := loop.sources[event.token].counter;
            match c
            case CheckTimeout(t) => counter < t
            case Respond(r) =>
              r.NewSource? && counter < r.token <= counter + AcceptedCount(event.accepts) && !AcceptFails(event.accepts)
  {
    hide ValidHost, AcceptAll, BornAt;
    var counter := loop.sources[event.token].counter;
    AcceptAllBirths(counter, event.accepts);
    AcceptAllExactly(counter, event.accepts);
    FailsAfterAccepted(event.accepts);
  }

  lemma StdinQueues(host: Host, loop: Loop, event: Event, c: Command)
    requires ValidHost(host) && event.token in loop.sources && loop.sources[event.token].Stdin?
    ensures Queues(host, loop, event, c)
        <==> event.readable && IsShutdown(event.line)
             && c == Respond(CloseSource(loop.sources[event.token].listener))
  {
    hide ValidHost, Trim;
    ShutdownExactly(event.line);
  }

  // ---------- the command phase ----------

  /** The listener is closed exactly when that is queued; the console never is. */
  lemma {:induction false} DrainClosesListener(host: Host, loop: Loop, clock: nat -> Time, k: nat, again: seq<Command>,
                                               startup: seq<Command>, t: Token)
    requires ValidHost(host) && Sound(host, loop, again, startup, 0)
    requires t in loop.sources && !loop.sources[t].Stream?
    ensures var end := Drain(loop, clock, k, again);
            if t == LISTENER_TOKEN && Respond(CloseSource(t)) in loop.queue then
              t in end.retired && end.retired[t] == loop.sources[t]
            else t in end.sources && end.sources[t] == loop.sources[t]
    decreases |loop.queue|
  {
    hide ValidHost, Sound, ExecuteHead;
    if loop.queue == [] {
      assert Drain(loop, clock, k, again) == loop.(queue := again);
    } else {
      var (next, more) := ExecuteHead(loop, clock(k));
      assert Drain(loop, clock, k, again) == Drain(next, clock, k + 1, again + more);
      CommandKeeps(host, loop, again, startup, 0, clock(k));
      OnlyCloseEnds(host, loop, again, startup, clock(k), t);
      Popped(loop.queue);
      if loop.queue[0] == Respond(CloseSource(t)) {
        RetiredStays(host, next, clock, k + 1, again + more, startup, t);
      } else {
        DrainClosesListener(host, next, clock, k + 1, again + more, startup, t);
      }
    }
  }

  /** A command ends the listener only by closing it, and never the console. */
  lemma OnlyCloseEnds(host: Host, loop: Loop, again: seq<Command>, startup: seq<Command>, now: Time, t: Token)
    requires ValidHost(host) && Sound(host, loop, again, startup, 0)
    requires loop.queue != [] && t in loop.sources && !loop.sources[t].Stream?
    ensures var next := ExecuteHead(loop, now).0;
            if loop.queue[0] == Respond(CloseSource(t)) then
              t == LISTENER_TOKEN && t in next.retired && next.retired[t] == loop.sources[t]
            else t in next.sources && next.sources[t] == loop.sources[t]
  {
    hide ValidHost, Truthful, Parsed, BornAt, Pending, StreamFits, RetiredFit, StartupFits, CheckStreamTimeout;
    var high := High(loop, startup);
    assert SourceFits(host, t, loop.sources[t], loop.interests[t], loop.queue, again, 0, high);
    assert CommandFits(loop, 0, high);
    if loop.queue[0].CheckTimeout? {
      CheckCases(loop, loop.queue[0].token, now);
    }
  }

  predicate Adds(c: Command, t: Token) {
    c.Respond? && c.response.NewSource? && c.response.token == t
  }

  /** The command phase adds no source but those queued to be added. */
  lemma {:induction false} DrainAddsQueued(loop: Loop, clock: nat -> Time, k: nat, again: seq<Command>, t: Token)
    requires t !in loop.sources && t !in loop.retired
    ensures var end := Drain(loop, clock, k, again);
            t in end.sources || t in end.retired ==> exists i :: 0 <= i < |loop.queue| && Adds(loop.queue[i], t)
    decreases |loop.queue|
  {
    if loop.queue == [] {
    } else {
      var (next, more) := ExecuteHead(loop, clock(k));
      if Adds(loop.queue[0], t) {
      } else {
        NotAddedYet(loop, clock(k), t);
        DrainAddsQueued(next, clock, k + 1, again + more, t);
        assert forall i | 0 <= i < |next.queue| :: next.queue[i] == loop.queue[i + 1];
      }
    }
  }

  lemma NotAddedYet(loop: Loop, now: Time, t: Token)
    requires loop.queue != [] && !Adds(loop.queue[0], t) && t !in loop.sources && t !in loop.retired
    ensures var next := ExecuteHead(loop, now).0;
            next.queue == loop.queue[1..] && t !in next.sources && t !in next.retired
  {
  }

  // ---------- one iteration ----------

  /** What the poll's event lets the listener accept. */
  function AcceptsIn(events: seq<Event>): seq<AcceptOutcome> {
    match EventFor(events, 1)
    case None => []
    case Some(event) => event.accepts
  }

  /** Someone typed "shutdown". */
  ghost predicate AsksShutdown(events: seq<Event>) {
    EventFor(events, 0).Some? && EventFor(events, 0).value.readable && IsShutdown(EventFor(events, 0).value.line)
  }

  lemma SmallTokens(host: Host, loop: Loop, startup: seq<Command>)
    requires ValidHost(host) && Settled(host, loop, startup)
    ensures 0 in loop.sources ==> loop.sources[0] == Stdin(1)
    ensures 1 in loop.sources ==> loop.sources[1].Listener? && loop.sources[1].counter >= 1
    ensures forall t | t in loop.sources && 2 <= t :: loop.sources[t].Stream?
  {
    hide ValidHost, StreamFits, QueueFits, RetiredFit, StartupFits;
    var high := High(loop, startup);
    forall t | t in loop.sources
      ensures SourceFits(host, t, loop.sources[t], loop.interests[t], loop.queue, [], 0, high)
    {
    }
  }

  lemma PollIsKnown(host: Host, loop: Loop, startup: seq<Command>, events: seq<Event>)
    requires ValidHost(host) && Settled(host, loop, startup) && Reports(loop, events)
    ensures Known(loop, events)
  {
    hide ValidHost, Settled, Reports, Known;
    PollIsAwaited(host, loop, startup, events);
    AwaitedIsKnown(loop, events);
  }

  /** After a poll the listener's closing is queued exactly when someone typed "shutdown". */
  lemma CloseQueued(host: Host, loop: Loop, startup: seq<Command>, events: seq<Event>)
    requires ValidHost(host) && Settled(host, loop, startup) && Reports(loop, events)
    ensures AllEvents(host, loop, events).Some?
    ensures Respond(CloseSource(1)) in AllEvents(host, loop, events).value.queue <==> AsksShutdown(events)
  {
    hide ValidHost, Sound, Queues, IsShutdown;
    var close := Respond(CloseSource(1));
    SmallTokens(host, loop, startup);
    PollIsKnown(host, loop, startup, events);
    QueuedByEvents(host, loop, events, close);
    assert close !in loop.queue;
    EventForIsReported(events, 0);
    forall i | 0 <= i < |events|
      ensures Queues(host, loop, events[i], close) <==> events[i].token == 0 && AsksShutdown(events)
    {
      OneMayClose(host, loop, events, events[i]);
    }
    if AsksShutdown(events) {
      var i :| 0 <= i < |events| && events[i] == EventFor(events, 0).value;
      assert Queues(host, loop, events[i], close);
    }
  }

  lemma OneMayClose(host: Host, loop: Loop, events: seq<Event>, event: Event)
    requires ValidHost(host) && Known(loop, events) && event in events
    requires 0 in loop.sources ==> loop.sources[0] == Stdin(1)
    requires 1 in loop.sources ==> loop.sources[1].Listener?
    requires forall t | t in loop.sources && 2 <= t :: loop.sources[t].Stream?
    ensures Queues(host, loop, event, Respond(CloseSource(1))) <==> event.token == 0 && AsksShutdown(events)
  {
    hide ValidHost, Queues, IsShutdown;
    var close := Respond(CloseSource(1));
    EventForIs(events, event);
    if event.token == 0 {
      StdinQueues(host, loop, event, close);
    } else if Queues(host, loop, event, close) {
      if event.token == 1 {
        ListenerQueues(host, loop, event, close);
      } else {
        StreamQueues(host, loop, event, close);
      }
    }
  }

  /** An iteration closes the listener exactly when a call of `accept` failed or someone typed "shutdown", and otherwise
      counts the connections it got; the console stays. */
  lemma ListenerDecides(host: Host, loop: Loop, startup: seq<Command>, events: seq<Event>, clock: nat -> Time)
    requires ValidHost(host) && Settled(host, loop, startup) && Reports(loop, events)
    ensures Iterate(host, loop, events, clock).Some?
    ensures 0 in loop.sources ==>
              var next := Iterate(host, loop, events, clock).value;
              0 in next.sources && next.sources[0] == loop.sources[0]
    ensures 1 in loop.sources ==>
              var next, accepts := Iterate(host, loop, events, clock).value, AcceptsIn(events);
              && loop.sources[1].Listener?
              && (1 in next.sources <==> !AcceptFails(accepts) && !AsksShutdown(events))
              && (1 in next.sources ==> next.sources[1] == Listener(loop.sources[1].counter + AcceptedCount(accepts)))
  {
    hide ValidHost, Sound, AllEvents, Drain, Quiet, Known, AcceptFails, AsksShutdown, AcceptAll, EventFor, Reports;
    SmallTokens(host, loop, startup);
    PollIsKnown(host, loop, startup, events);
    PollIsAwaited(host, loop, startup, events);
    EventsKeep(host, loop, startup, 0, events);
    CloseQueued(host, loop, startup, events);
    IterationKeeps(host, loop, startup, events, clock, 0);
    var polled := AllEvents(host, loop, events).value;
    RetiredApart(host, Drain(polled, clock, 0, []), startup);
    if 0 in loop.sources {
      EventsDecide(host, loop, events, 0);
      ConsoleStays(host, events, loop.sources[0]);
      DrainClosesListener(host, polled, clock, 0, [], startup, 0);
    }
    if 1 in loop.sources {
      EventsDecide(host, loop, events, 1);
      ListenerHandles(host, events, loop.sources[1]);
      if AcceptFails(AcceptsIn(events)) {
        RetiredStays(host, polled, clock, 0, [], startup, 1);
      } else {
        DrainClosesListener(host, polled, clock, 0, [], startup, 1);
      }
    }
  }

  lemma ConsoleStays(host: Host, events: seq<Event>, stdin: EventSource)
    requires ValidHost(host) && stdin.Stdin?
    ensures var handled := Polled(host, stdin, events, 0); handled.Kept? && handled.source == stdin
  {
    hide ValidHost, Trim;
  }

  lemma ListenerHandles(host: Host, events: seq<Event>, listener: EventSource)
    requires ValidHost(host) && listener.Listener?
    ensures var handled := Polled(host, listener, events, 1);
            if AcceptFails(AcceptsIn(events)) then handled == Dropped(listener)
            else handled.Kept? && handled.source == Listener(listener.counter + AcceptedCount(AcceptsIn(events)))
  {
    hide ValidHost, AcceptFails, AcceptAll;
    AcceptAllExactly(listener.counter, AcceptsIn(events));
    FailsAfterAccepted(AcceptsIn(events));
  }

  /** The iteration's new connections: those the listener got, under the next tokens, and none if a call failed. */
  lemma NewConnectionsExactly(host: Host, loop: Loop, startup: seq<Command>, events: seq<Event>, clock: nat -> Time,
                              t: Token)
    requires ValidHost(host) && Settled(host, loop, startup) && Reports(loop, events)
    requires 1 in loop.sources && loop.sources[1].Listener?
    requires 2 <= t && t !in loop.sources && t !in loop.retired
    ensures Iterate(host, loop, events, clock).Some?
    ensures var next, accepts := Iterate(host, loop, events, clock).value, AcceptsIn(events);
            t in next.sources || t in next.retired
            <==> !AcceptFails(accepts)
                 && loop.sources[1].counter < t <= loop.sources[1].counter + AcceptedCount(accepts)
  {
    hide ValidHost, Sound, AllEvents, Drain, Known, AcceptFails, AcceptAll, EventFor, Quiet, Reports;
    PollIsKnown(host, loop, startup, events);
    PollIsAwaited(host, loop, startup, events);
    EventsKeep(host, loop, startup, 0, events);
    var polled := AllEvents(host, loop, events).value;
    EventsDecide(host, loop, events, t);
    IterationKeeps(host, loop, startup, events, clock, 0);
    var counter, accepts := loop.sources[1].counter, AcceptsIn(events);
    if !AcceptFails(accepts) && counter < t <= counter + AcceptedCount(accepts) {
      AcceptedIsRecorded(host, loop, startup, events, clock, t - counter - 1);
    } else {
      NotQueued(host, loop, startup, events, t);
      TokenUntouched(host, loop, events, t);
      DrainAddsQueued(polled, clock, 0, [], t);
    }
  }

  lemma TokenUntouched(host: Host, loop: Loop, events: seq<Event>, t: Token)
    requires ValidHost(host) && Known(loop, events) && t !in loop.sources && t !in loop.retired
    ensures AllEvents(host, loop, events).Some?
    ensures var polled := AllEvents(host, loop, events).value; t !in polled.sources && t !in polled.retired
  {
    hide ValidHost, HandleEvent, AllEvents;
    EventForIsReported(events, t);
    EventsDecide(host, loop, events, t);
  }

  lemma NotQueued(host: Host, loop: Loop, startup: seq<Command>, events: seq<Event>, t: Token)
    requires ValidHost(host) && Settled(host, loop, startup) && Reports(loop, events)
    requires 1 in loop.sources && loop.sources[1].Listener? && 2 <= t
    requires AcceptFails(AcceptsIn(events))
             || !(loop.sources[1].counter < t <= loop.sources[1].counter + AcceptedCount(AcceptsIn(events)))
    ensures AllEvents(host, loop, events).Some?
    ensures var queue := AllEvents(host, loop, events).value.queue;
            forall i | 0 <= i < |queue| :: !Adds(queue[i], t)
  {
    hide ValidHost, Sound, Queues, AcceptFails, EventFor;
    SmallTokens(host, loop, startup);
    PollIsKnown(host, loop, startup, events);
    var queue := AllEvents(host, loop, events).value.queue by { TokenUntouchedSome(host, loop, events); }
    forall i | 0 <= i < |queue|
      ensures !Adds(queue[i], t)
    {
      QueuedByEvents(host, loop, events, queue[i]);
      if queue[i] in loop.queue {
        assert queue[i].CheckTimeout? || queue[i] == ADD_LISTENER || queue[i] == ADD_STDIN;
      } else {
        var j :| 0 <= j < |events| && Queues(host, loop, events[j], queue[i]);
        EventForIs(events, events[j]);
        NotAddedBy(host, loop, events[j], queue[i]);
      }
    }
  }

  lemma TokenUntouchedSome(host: Host, loop: Loop, events: seq<Event>)
    requires ValidHost(host) && Known(loop, events)
    ensures AllEvents(host, loop, events).Some?
  {
    hide ValidHost, AllEvents, HandleEvent;
    EventsDecide(host, loop, events, 0);
  }

  /** Only the listener's event adds connections. */
  lemma NotAddedBy(host: Host, loop: Loop, event: Event, c: Command)
    requires ValidHost(host) && Queues(host, loop, event, c)
    requires 0 in loop.sources ==> loop.sources[0] == Stdin(1)
    requires 1 in loop.sources ==> loop.sources[1].Listener?
    requires forall t | t in loop.sources && 2 <= t :: loop.sources[t].Stream?
    ensures c.Respond? && c.response.NewSource? ==>
              && event.token == 1 && !AcceptFails(event.accepts) && 1 in loop.sources
              && loop.sources[1].counter < c.response.token <= loop.sources[1].counter + AcceptedCount(event.accepts)
  {
    hide ValidHost, Queues, AcceptFails;
    assert event.token in loop.sources by { QueuesKnown(host, loop, event, c); }
    if event.token == 0 {
      StdinQueues(host, loop, event, c);
    } else if event.token == 1 {
      ListenerQueues(host, loop, event, c);
    } else {
      StreamQueues(host, loop, event, c);
    }
  }

  lemma QueuesKnown(host: Host, loop: Loop, event: Event, c: Command)
    requires ValidHost(host) && Queues(host, loop, event, c)
    ensures event.token in loop.sources
  {
    hide HandleEvent, ValidHost;
  }

  /** Every connection that was got is registered, or already retired because it was late. */
  lemma AcceptedIsRecorded(host: Host, loop: Loop, startup: seq<Command>, events: seq<Event>, clock: nat -> Time,
                           i: nat)
    requires ValidHost(host) && Settled(host, loop, startup) && Reports(loop, events)
    requires 1 in loop.sources && loop.sources[1].Listener?
    requires !AcceptFails(AcceptsIn(events)) && i < AcceptedCount(AcceptsIn(events))
    ensures Iterate(host, loop, events, clock).Some?
    ensures var next, t := Iterate(host, loop, events, clock).value, loop.sources[1].counter + 1 + i;
            t in next.sources || t in next.retired
  {
    hide ValidHost, Sound, AllEvents, Drain, AcceptAll, Known, BornAt, Birth, Quiet, AcceptFails, EventFor, Reports;
    PollIsKnown(host, loop, startup, events);
    PollIsAwaited(host, loop, startup, events);
    EventsKeep(host, loop, startup, 0, events);
    var counter, accepts := loop.sources[1].counter, AcceptsIn(events);
    AcceptAllExactly(counter, accepts);
    FailsAfterAccepted(accepts);
    CountedAreAccepted(accepts);
    var at := EventsQueue(host, loop, events, 1);
    AcceptAllAt(counter, accepts, i);
    var polled := AllEvents(host, loop, events).value;
    BirthPlace(polled.queue, at, AcceptAll(counter, accepts).value.1, i, counter + 1 + i, accepts[i].at);
    DrainAdmits(host, polled, clock, 0, [], startup, at + 2 * i);
  }
}

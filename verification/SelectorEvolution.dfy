/** How connections evolve: a stream moves only forward, and no token is ever used again. */
module SelectorEvolution {
  import opened Text
  import opened Requests
  import opened Sequential
  import opened Selector
  import opened SelectorInvariant
  import opened SelectorCommands
  import opened SelectorEvents
  import opened SelectorRuns

  function Phase(state: Connection): nat {
    match state case Read(_) => 0 case Write(_) => 1 case Close => 2
  }

  /** The same source later: a stream moves only from Read to Write to Close, and its history only grows. */
  predicate Follows(before: EventSource, after: EventSource) {
    match before
    case Listener(counter) => after.Listener? && counter <= after.counter
    case Stdin(_) => after == before
    case Stream(wire, state, acceptTime) =>
      && after.Stream? && after.acceptTime == acceptTime && Phase(state) <= Phase(after.state)
      && wire.received <= after.wire.received && wire.sent <= after.wire.sent && wire.handled <= after.wire.handled
      && (Phase(state) == 0 || after.wire.handled == wire.handled)
  }

  /** Every source is still there under its token, or was retired from it; what is retired stays as it was. */
  predicate Evolves(loop: Loop, next: Loop) {
    && (forall t | t in loop.sources ::
          || (t in next.sources && Follows(loop.sources[t], next.sources[t]))
          || (t in next.retired && Follows(loop.sources[t], next.retired[t])))
    && (forall t | t in loop.retired :: t in next.retired && next.retired[t] == loop.retired[t])
  }

  lemma {:induction false} ReadAllExtends(request: Incremental, wire: Wire, input: seq<ReadOutcome>)
    ensures wire.received <= ReadAll(request, wire, input).wire.received
    ensures ReadAll(request, wire, input).wire.sent == wire.sent
    ensures ReadAll(request, wire, input).wire.handled == wire.handled
    decreases |input|
  {
    hide TryParse;
    if input == [] || !input[0].Got? || input[0].bytes == "" {
    } else {
      var next := TryParse(input[0].bytes, request);
      if next.Ok? && !next.value.FullRequest? {
        ReadAllExtends(next.value, wire.(received := wire.received + input[0].bytes), input[1..]);
      }
    }
  }

  lemma {:induction false} WriteAllExtends(bytes: string, wire: Wire, output: seq<WriteOutcome>)
    ensures wire.sent <= WriteAll(bytes, wire, output).wire.sent
    ensures WriteAll(bytes, wire, output).wire.received == wire.received
    ensures WriteAll(bytes, wire, output).wire.handled == wire.handled
    decreases |output|
  {
    if output == [] || !output[0].Took? || Accepts(output[0].count, bytes) == 0 {
    } else {
      var n := Accepts(output[0].count, bytes);
      WriteAllExtends(bytes[n..], wire.(sent := wire.sent + bytes[..n]), output[1..]);
    }
  }

  lemma {:induction false} AcceptAllCounts(counter: Token, accepts: seq<AcceptOutcome>)
    ensures AcceptAll(counter, accepts).Some? ==> counter <= AcceptAll(counter, accepts).value.0
    decreases |accepts|
  {
    if accepts == [] || !accepts[0].Accepted? {
    } else {
      AcceptAllCounts(counter + 1, accepts[1..]);
    }
  }

  /** Whatever its handler does with an event, a source only moves forward. */
  lemma HandlerMovesForward(host: Host, source: EventSource, event: Event)
    requires ValidHost(host)
    ensures Follows(source, HandleEvent(host, source, event).source)
  {
    hide ValidHost, Remaining, TryParse, Trim;
    match source
    case Listener(counter) => AcceptAllCounts(counter, event.accepts);
    case Stdin(_) =>
    case Stream(wire, state, _) =>
      match state
      case Read(request) => ReadAllExtends(request, wire, event.input);
      case Write(response) => WriteAllExtends(Remaining(host, response), wire, event.output);
      case Close =>
  }

  lemma EvolvesAgain(a: Loop, b: Loop, c: Loop)
    requires Evolves(a, b) && Evolves(b, c)
    ensures Evolves(a, c)
  {
    forall t | t in a.sources
      ensures (t in c.sources && Follows(a.sources[t], c.sources[t]))
           || (t in c.retired && Follows(a.sources[t], c.retired[t]))
    {
      if t in b.sources && Follows(a.sources[t], b.sources[t]) {
        if t in c.sources && Follows(b.sources[t], c.sources[t]) {
          FollowsAgain(a.sources[t], b.sources[t], c.sources[t]);
        } else {
          FollowsAgain(a.sources[t], b.sources[t], c.retired[t]);
        }
      }
    }
  }

  lemma FollowsAgain(a: EventSource, b: EventSource, c: EventSource)
    requires Follows(a, b) && Follows(b, c)
    ensures Follows(a, c)
  {
  }

  lemma StaysItself(source: EventSource)
    ensures Follows(source, source)
  {
  }

  lemma {:induction false} EventsEvolve(host: Host, loop: Loop, startup: seq<Command>, from: Time, events: seq<Event>)
    requires ValidHost(host) && Sound(host, loop, [], startup, from)
    requires Awaited(loop, events)
    ensures AllEvents(host, loop, events).Some? && Evolves(loop, AllEvents(host, loop, events).value)
    decreases |events|
  {
    hide ValidHost, Sound, OneEvent, Awaited, Evolves;
    if events == [] {
      NothingEvolves(loop);
    } else {
      assert events[0].token in loop.sources by { FirstAwaited(loop, events); }
      FirstEventKeeps(host, loop, startup, from, events);
      EventEvolves(host, loop, startup, from, events[0]);
      var next := OneEvent(host, loop, events[0]).value;
      EventsEvolve(host, next, startup, from, events[1..]);
      EvolvesAgain(loop, next, AllEvents(host, next, events[1..]).value);
    }
  }

  lemma FirstAwaited(loop: Loop, events: seq<Event>)
    requires Awaited(loop, events) && events != []
    ensures events[0].token in loop.sources
  {
  }

  lemma NothingEvolves(loop: Loop)
    ensures Evolves(loop, loop)
  {
    hide Follows;
    forall t | t in loop.sources
      ensures Follows(loop.sources[t], loop.sources[t])
    {
      StaysItself(loop.sources[t]);
    }
  }

  lemma EventEvolves(host: Host, loop: Loop, startup: seq<Command>, from: Time, event: Event)
    requires ValidHost(host) && Sound(host, loop, [], startup, from)
    requires event.token in loop.sources
    ensures Evolves(loop, OneEvent(host, loop, event).value)
  {
    hide ValidHost, SourcesFit, QueueFits, StartupFits, HandleEvent, Follows;
    HandlerMovesForward(host, loop.sources[event.token], event);
    var next := OneEvent(host, loop, event).value;
    forall t | t in loop.sources && t != event.token
      ensures t in next.sources && Follows(loop.sources[t], next.sources[t])
    {
      StaysItself(loop.sources[t]);
    }
  }

  lemma CommandEvolves(host: Host, loop: Loop, again: seq<Command>, startup: seq<Command>, from: Time, now: Time)
    requires ValidHost(host) && Sound(host, loop, again, startup, from) && loop.queue != []
    ensures Evolves(loop, ExecuteHead(loop, now).0)
  {
    hide ValidHost, SourcesFit, StartupFits, QueueFits, CheckStreamTimeout, Follows;
    QueuedTokens(loop, again, High(loop, startup));
    assert !(loop.queue[0].Respond? && loop.queue[0].response.SubmitCommand?) by {
      NothingSubmitted(host, loop, again, startup, from);
    }
    if loop.queue[0].CheckTimeout? {
      CheckCases(loop, loop.queue[0].token, now);
    }
    var next := ExecuteHead(loop, now).0;
    forall t | t in loop.sources
      ensures (t in next.sources && Follows(loop.sources[t], next.sources[t]))
           || (t in next.retired && Follows(loop.sources[t], next.retired[t]))
    {
      StaysItself(loop.sources[t]);
    }
  }

  lemma {:induction false} DrainEvolves(host: Host, loop: Loop, clock: nat -> Time, k: nat, again: seq<Command>,
                                        startup: seq<Command>)
    requires ValidHost(host) && Sound(host, loop, again, startup, 0)
    ensures Evolves(loop, Drain(loop, clock, k, again))
    decreases |loop.queue|
  {
    hide ValidHost, Sound, ExecuteHead, Follows;
    if loop.queue == [] {
      NothingEvolves(loop);
    } else {
      var (next, more) := ExecuteHead(loop, clock(k));
      CommandKeeps(host, loop, again, startup, 0, clock(k));
      CommandEvolves(host, loop, again, startup, 0, clock(k));
      DrainEvolves(host, next, clock, k + 1, again + more, startup);
      EvolvesAgain(loop, next, Drain(next, clock, k + 1, again + more));
    }
  }

  /** No iteration replaces a live source or reuses a token; connections only move forward. */
  lemma IterationEvolves(host: Host, loop: Loop, startup: seq<Command>, events: seq<Event>, clock: nat -> Time)
    requires ValidHost(host) && Settled(host, loop, startup) && Reports(loop, events)
    ensures Iterate(host, loop, events, clock).Some?
    ensures var next := Iterate(host, loop, events, clock).value;
            Evolves(loop, next) && next.retired.Keys !! next.sources.Keys
  {
    hide ValidHost, Sound, AllEvents, Drain, Awaited, Quiet, Evolves, NoneOverdue;
    PollIsAwaited(host, loop, startup, events);
    EventsKeep(host, loop, startup, 0, events);
    EventsEvolve(host, loop, startup, 0, events);
    var polled := AllEvents(host, loop, events).value;
    DrainEvolves(host, polled, clock, 0, [], startup);
    EvolvesAgain(loop, polled, Drain(polled, clock, 0, []));
    IterationKeeps(host, loop, startup, events, clock, 0);
    RetiredApart(host, Drain(polled, clock, 0, []), startup);
  }

  /** The same over any stretch of a run. */
  lemma {:induction false} RunEvolves(host: Host, world: World, steps: seq<Step>)
    requires ValidHost(host) && Settled(host, world.loop, world.startup) && Legal(host, world, steps)
    ensures Run(host, world, steps).Some? && Evolves(world.loop, Run(host, world, steps).value.loop)
    decreases |steps|
  {
    hide ValidHost, Settled, Reports, Iterate, Evolves;
    if steps == [] {
      NothingEvolves(world.loop);
    } else {
      match steps[0] {
        case MainSends =>
          if world.startup != [] {
            SendingKeeps(host, world);
          }
          SendingEvolves(host, world);
        case Poll(events, clock) =>
          IterationKeeps(host, world.loop, world.startup, events, clock, 0);
          IterationEvolves(host, world.loop, world.startup, events, clock);
      }
      var next := Take(host, world, steps[0]).value;
      RunEvolves(host, next, steps[1..]);
      EvolvesAgain(world.loop, next.loop, Run(host, next, steps[1..]).value.loop);
    }
  }

  lemma SendingEvolves(host: Host, world: World)
    requires ValidHost(host)
    ensures Evolves(world.loop, Take(host, world, MainSends).value.loop)
  {
    hide Follows, ValidHost;
    NothingEvolves(world.loop);
  }

  lemma RetiredApart(host: Host, loop: Loop, startup: seq<Command>)
    requires ValidHost(host) && Settled(host, loop, startup)
    ensures loop.retired.Keys !! loop.sources.Keys
  {
    hide ValidHost, SourcesFit, QueueFits, StartupFits;
  }
}

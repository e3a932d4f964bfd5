/** Whole iterations and whole runs of the event loop. */
module SelectorRuns {
  import opened Text
  import opened Requests
  import opened Sequential
  import opened Selector
  import opened SelectorInvariant
  import opened SelectorCommands
  import opened SelectorEvents

  /** What a poll may report: registered tokens, each at most once; writes take at least a byte. */
  predicate Reports(loop: Loop, events: seq<Event>) {
    && (forall i | 0 <= i < |events| :: events[i].token in loop.interests && WritesProgress(events[i]))
    && (forall i, j | 0 <= i < j < |events| :: events[i].token != events[j].token)
  }

  /** Between iterations only timeout checks and start-up commands wait. */
  predicate Quiet(queue: seq<Command>) {
    forall i | 0 <= i < |queue| :: queue[i].CheckTimeout? || queue[i] == ADD_LISTENER || queue[i] == ADD_STDIN
  }

  /** What holds between iterations. */
  ghost predicate Settled(host: Host, loop: Loop, startup: seq<Command>)
    requires ValidHost(host)
  {
    Sound(host, loop, [], startup, 0) && Quiet(loop.queue)
  }

  // ---------- one event ----------

  lemma EventKeeps(host: Host, loop: Loop, startup: seq<Command>, from: Time, event: Event)
    requires ValidHost(host) && Sound(host, loop, [], startup, from)
    requires event.token in loop.sources && WritesProgress(event) && Undisturbed(loop.queue, event.token)
    ensures OneEvent(host, loop, event).Some?
    ensures Sound(host, OneEvent(host, loop, event).value, [], startup, from)
  {
    hide ValidHost, Sound, HandleRead, HandleWrite, HandleListener, HandleStdin, Truthful;
    var t := event.token;
    var source := loop.sources[t];
    SourceKind(host, loop, startup, from, t);
    assert loop.queue + [] == loop.queue;
    match source
    case Listener(_) => ListenerEvent(host, loop, startup, from, event);
    case Stdin(_) => StdinEvent(host, loop, startup, from, event);
    case Stream(_, _, _) => StreamEvent(host, loop, startup, from, event);
  }

  lemma SourceKind(host: Host, loop: Loop, startup: seq<Command>, from: Time, t: Token)
    requires ValidHost(host) && Sound(host, loop, [], startup, from) && t in loop.sources
    ensures match loop.sources[t]
            case Listener(_) => t == LISTENER_TOKEN
            case Stdin(listener) => t == STDIN_TOKEN && listener == LISTENER_TOKEN
            case Stream(wire, state, _) =>
              && 2 <= t && Truthful(host, loop.sources[t])
              && (Undisturbed(loop.queue, t) ==>
                    !state.Close? && (state.Read? ==> Parsed(wire, state.request) && Untouched(wire)))
  {
    hide ValidHost, Parsed, QueueFits, StartupFits, RetiredFit, Pending, Remaining, Owes;
    assert SourceFits(host, t, loop.sources[t], loop.interests[t], loop.queue, [], from, High(loop, startup));
  }

  lemma ListenerEvent(host: Host, loop: Loop, startup: seq<Command>, from: Time, event: Event)
    requires ValidHost(host) && Sound(host, loop, [], startup, from)
    requires event.token == LISTENER_TOKEN && LISTENER_TOKEN in loop.sources && loop.sources[LISTENER_TOKEN].Listener?
    ensures Sound(host, OneEvent(host, loop, event).value, [], startup, from)
  {
    hide ValidHost, Sound, AcceptAll, AreBirths;
    var listener := loop.sources[LISTENER_TOKEN];
    if AcceptAll(listener.counter, event.accepts).Some? {
      AcceptAllBirths(listener.counter, event.accepts);
      var (last, commands) := AcceptAll(listener.counter, event.accepts).value;
      ListenerKept(host, loop, startup, from, last, commands);
    } else {
      DroppedKeeps(host, loop, startup, from, LISTENER_TOKEN, listener);
    }
  }

  lemma StdinEvent(host: Host, loop: Loop, startup: seq<Command>, from: Time, event: Event)
    requires ValidHost(host) && Sound(host, loop, [], startup, from)
    requires event.token == STDIN_TOKEN && STDIN_TOKEN in loop.sources
    requires loop.sources[STDIN_TOKEN] == Stdin(LISTENER_TOKEN)
    ensures Sound(host, OneEvent(host, loop, event).value, [], startup, from)
  {
    hide ValidHost, Sound, Trim;
    var commands := HandleStdin(loop.sources[STDIN_TOKEN], event).commands;
    assert loop.sources[STDIN_TOKEN := Stdin(LISTENER_TOKEN)] == loop.sources;
    StdinKept(host, loop, startup, from, commands);
  }

  lemma StreamEvent(host: Host, loop: Loop, startup: seq<Command>, from: Time, event: Event)
    requires ValidHost(host) && Sound(host, loop, [], startup, from)
    requires event.token in loop.sources && loop.sources[event.token].Stream?
    requires WritesProgress(event) && Undisturbed(loop.queue, event.token)
    ensures Sound(host, OneEvent(host, loop, event).value, [], startup, from)
  {
    hide ValidHost, Sound, HandleRead, HandleWrite, Truthful, Undisturbed, Parsed, WritesProgress, Remaining, Owes;
    var t := event.token;
    var stream := loop.sources[t];
    SourceKind(host, loop, startup, from, t);
    var handled := HandleEvent(host, stream, event);
    if stream.state.Read? {
      ReadEvent(host, t, stream, event);
    } else {
      WriteEvent(host, t, stream, event);
    }
    if handled.Kept? {
      StreamKept(host, loop, startup, from, t, handled.source, handled.commands);
    } else {
      DroppedKeeps(host, loop, startup, from, t, handled.source);
    }
  }

  // ---------- all events of a poll ----------

  /** An event leaves the sources of other tokens, and what waits for them, alone. */
  lemma OthersUndisturbed(host: Host, loop: Loop, startup: seq<Command>, from: Time, event: Event, other: Token)
    requires ValidHost(host) && Sound(host, loop, [], startup, from)
    requires event.token in loop.sources && WritesProgress(event) && Undisturbed(loop.queue, event.token)
    requires other != event.token && other in loop.sources && Undisturbed(loop.queue, other)
    ensures var next := OneEvent(host, loop, event).value;
            other in next.sources && Undisturbed(next.queue, other)
  {
    hide ValidHost, Sound, HandleRead, HandleWrite, HandleListener, HandleStdin, Truthful, WritesProgress, Parsed;
    var t := event.token;
    SourceKind(host, loop, startup, from, t);
    var handled := HandleEvent(host, loop.sources[t], event);
    match loop.sources[t] {
      case Listener(_) => QueuedByListener(loop.sources[t], event);
      case Stdin(_) => QueuedByStdin(loop.sources[t], event);
      case Stream(_, state, _) =>
        if state.Read? {
          ReadEvent(host, t, loop.sources[t], event);
        } else if state.Write? {
          WriteEvent(host, t, loop.sources[t], event);
        }
    }
    if handled.Kept? {
      assert Undisturbed(handled.commands, other);
      assert Undisturbed(loop.queue + handled.commands, other);
    }
  }

  lemma QueuedByListener(listener: EventSource, event: Event)
    requires listener.Listener?
    ensures var handled := HandleListener(listener, event);
            handled.Kept? ==> forall t :: Undisturbed(handled.commands, t)
  {
    hide AcceptAll, BornAt;
    if AcceptAll(listener.counter, event.accepts).Some? {
      AcceptAllBirths(listener.counter, event.accepts);
    }
  }

  lemma QueuedByStdin(stdin: EventSource, event: Event)
    requires stdin == Stdin(LISTENER_TOKEN)
    ensures forall t :: Undisturbed(HandleStdin(stdin, event).commands, t)
  {
    hide Trim;
  }

  predicate Awaited(loop: Loop, events: seq<Event>) {
    && (forall i | 0 <= i < |events| ::
          events[i].token in loop.sources && WritesProgress(events[i]) && Undisturbed(loop.queue, events[i].token))
    && (forall i, j | 0 <= i < j < |events| :: events[i].token != events[j].token)
  }

  /** After the first event of a poll the others are still awaited. */
  lemma FirstEventKeeps(host: Host, loop: Loop, startup: seq<Command>, from: Time, events: seq<Event>)
    requires ValidHost(host) && Sound(host, loop, [], startup, from)
    requires Awaited(loop, events) && events != []
    ensures OneEvent(host, loop, events[0]).Some?
    ensures var next := OneEvent(host, loop, events[0]).value;
            Sound(host, next, [], startup, from) && Awaited(next, events[1..])
  {
    hide ValidHost, Sound, OneEvent, WritesProgress, Undisturbed;
    EventKeeps(host, loop, startup, from, events[0]);
    var next := OneEvent(host, loop, events[0]).value;
    var rest := events[1..];
    forall i | 0 <= i < |rest|
      ensures rest[i].token in next.sources && Undisturbed(next.queue, rest[i].token) && WritesProgress(rest[i])
    {
      assert rest[i] == events[i + 1];
      OthersUndisturbed(host, loop, startup, from, events[0], rest[i].token);
    }
  }

  lemma {:induction false} EventsKeep(host: Host, loop: Loop, startup: seq<Command>, from: Time, events: seq<Event>)
    requires ValidHost(host) && Sound(host, loop, [], startup, from)
    requires Awaited(loop, events)
    ensures AllEvents(host, loop, events).Some?
    ensures Sound(host, AllEvents(host, loop, events).value, [], startup, from)
    decreases |events|
  {
    hide ValidHost, Sound, OneEvent, Awaited;
    if events == [] {
    } else {
      FirstEventKeeps(host, loop, startup, from, events);
      EventsKeep(host, OneEvent(host, loop, events[0]).value, startup, from, events[1..]);
    }
  }

  // ---------- one iteration ----------

  lemma PollIsAwaited(host: Host, loop: Loop, startup: seq<Command>, events: seq<Event>)
    requires ValidHost(host) && Settled(host, loop, startup) && Reports(loop, events)
    ensures Awaited(loop, events)
  {
    hide ValidHost, WritesProgress, SourcesFit, QueueFits, RetiredFit, StartupFits;
  }

  /** Before any command has been carried out, every bound on their times holds. */
  lemma AnyBound(host: Host, loop: Loop, startup: seq<Command>, from: Time)
    requires ValidHost(host) && Sound(host, loop, [], startup, 0)
    ensures Sound(host, loop, [], startup, from)
  {
    hide ValidHost, Truthful, Parsed, QueueFits, RetiredFit, StartupFits, Pending;
    var high := High(loop, startup);
    forall t | t in loop.sources
      ensures SourceFits(host, t, loop.sources[t], loop.interests[t], loop.queue, [], from, high)
    {
      assert SourceFits(host, t, loop.sources[t], loop.interests[t], loop.queue, [], 0, high);
    }
  }

  /** No stream is still reading that was accepted a whole timeout before `from`. */
  predicate NoneOverdue(loop: Loop, from: Time) {
    forall t | t in loop.sources && loop.sources[t].Stream? && loop.sources[t].state.Read? ::
      from < loop.sources[t].acceptTime + STREAM_TIMEOUT
  }

  /** When the phase is over, what waited to be queued again is the queue. */
  lemma Requeued(host: Host, loop: Loop, startup: seq<Command>, from: Time)
    requires ValidHost(host) && Sound(host, loop.(queue := []), loop.queue, startup, from)
    ensures Settled(host, loop, startup) && NoneOverdue(loop, from)
  {
    hide ValidHost, Truthful, Parsed, CommandFits, RetiredFits;
    var before := loop.(queue := []);
    var high := High(before, startup);
    RequeuedQueue(loop, high);
    assert High(loop, startup) == high by { RequeuedChecks(loop, high); }
    forall t | t in loop.sources
      ensures SourceFits(host, t, loop.sources[t], loop.interests[t], loop.queue, [], 0, high)
      ensures loop.sources[t].Stream? && loop.sources[t].state.Read? ==>
                from < loop.sources[t].acceptTime + STREAM_TIMEOUT
    {
      assert SourceFits(host, t, loop.sources[t], loop.interests[t], [], loop.queue, from, high);
      RequeuedPending(loop.queue, t);
    }
    assert StartupFits(loop, startup) by { RequeuedStartup(loop, startup, high); }
    assert RetiredFit(host, loop, high);
    RequeuedChecks(loop, high);
  }

  lemma RequeuedPending(queue: seq<Command>, t: Token)
    ensures Pending(t, queue, []) == Pending(t, [], queue)
    ensures Pending(t, queue, []) == 1 ==> CheckTimeout(t) in queue
  {
    InMultiset(queue, CheckTimeout(t));
  }

  lemma RequeuedChecks(loop: Loop, high: Option<Token>)
    requires QueueFits(loop.(queue := []), loop.queue, high)
    ensures Quiet(loop.queue) && ADD_LISTENER !in loop.queue && ADD_STDIN !in loop.queue
  {
    hide Pending;
  }

  lemma RequeuedStartup(loop: Loop, startup: seq<Command>, high: Option<Token>)
    requires QueueFits(loop.(queue := []), loop.queue, high) && StartupFits(loop.(queue := []), startup)
    ensures StartupFits(loop, startup)
  {
    hide QueueFits;
    RequeuedChecks(loop, high);
    InMultiset(loop.queue, ADD_LISTENER);
    InMultiset(loop.queue, ADD_STDIN);
  }

  lemma RequeuedQueue(loop: Loop, high: Option<Token>)
    requires QueueFits(loop.(queue := []), loop.queue, high)
    ensures QueueFits(loop, [], high)
  {
    hide Pending;
    forall t
      ensures Pending(t, loop.queue, []) <= 1
    {
      assert Pending(t, [], loop.queue) <= 1;
      RequeuedPending(loop.queue, t);
    }
  }

  /** An iteration never meets an event without a handler, and leaves everything settled; and when its command phase
      began no earlier than `from`, no reading stream is overdue at `from`. */
  lemma IterationKeeps(host: Host, loop: Loop, startup: seq<Command>, events: seq<Event>, clock: nat -> Time,
                       from: Time)
    requires ValidHost(host) && Settled(host, loop, startup) && Reports(loop, events)
    requires forall k: nat :: from <= clock(k)
    ensures Iterate(host, loop, events, clock).Some?
    ensures var next := Iterate(host, loop, events, clock).value;
            Settled(host, next, startup) && NoneOverdue(next, from)
  {
    hide ValidHost, Sound, AllEvents, Drain, Awaited, Quiet, NoneOverdue;
    PollIsAwaited(host, loop, startup, events);
    AnyBound(host, loop, startup, from);
    EventsKeep(host, loop, startup, from, events);
    var polled := AllEvents(host, loop, events).value;
    DrainKeeps(host, polled, clock, 0, [], startup, from);
    Requeued(host, Drain(polled, clock, 0, []), startup, from);
  }

  // ---------- runs ----------

  /** The loop iterates, or the main thread sends its next start-up command. */
  datatype Step = Poll(events: seq<Event>, clock: nat -> Time) | MainSends

  datatype World = World(loop: Loop, startup: seq<Command>)

  const INITIAL := World(Loop(map[], map[], [], map[]), [ADD_LISTENER, ADD_STDIN])

  function Take(host: Host, world: World, step: Step): Option<World>
    requires ValidHost(host)
  {
    match step
    case MainSends =>
      if world.startup == [] then Some(world)
      else Some(World(world.loop.(queue := world.loop.queue + [world.startup[0]]), world.startup[1..]))
    case Poll(events, clock) =>
      match Iterate(host, world.loop, events, clock)
      case None => None
      case Some(loop) => Some(World(loop, world.startup))
  }

  /** Steps in which each poll reports what it may; the run goes on as long as no iteration fails. */
  predicate Legal(host: Host, world: World, steps: seq<Step>)
    requires ValidHost(host)
    decreases |steps|
  {
    steps != [] ==>
      && (steps[0].Poll? ==> Reports(world.loop, steps[0].events))
      && (Take(host, world, steps[0]).Some? ==> Legal(host, Take(host, world, steps[0]).value, steps[1..]))
  }

  function Run(host: Host, world: World, steps: seq<Step>): Option<World>
    requires ValidHost(host)
    decreases |steps|
  {
    if steps == [] then Some(world)
    else
      match Take(host, world, steps[0])
      case None => None
      case Some(next) => Run(host, next, steps[1..])
  }

  lemma InitiallySettled(host: Host)
    requires ValidHost(host)
    ensures Settled(host, INITIAL.loop, INITIAL.startup)
  {
    hide ValidHost;
    var startup := INITIAL.startup;
    assert startup == [ADD_LISTENER] + [ADD_STDIN];
    assert ADD_LISTENER != ADD_STDIN;
  }

  lemma SendingKeeps(host: Host, world: World)
    requires ValidHost(host) && Settled(host, world.loop, world.startup) && world.startup != []
    ensures var next := Take(host, world, MainSends).value;
            Settled(host, next.loop, next.startup)
  {
    hide ValidHost, Truthful, Parsed, RetiredFits, BornAt, Pending;
    var loop := world.loop;
    var command, rest := world.startup[0], world.startup[1..];
    var next := loop.(queue := loop.queue + [command]);
    var high := High(loop, world.startup);
    assert world.startup == [command] + rest;
    assert High(next, rest) == high;
    forall t | t in loop.sources
      ensures SourceFits(host, t, next.sources[t], next.interests[t], next.queue, [], 0, high)
    {
      assert SourceFits(host, t, loop.sources[t], loop.interests[t], loop.queue, [], 0, high);
      StartupPending(loop.queue, command, t);
    }
    SentQueue(loop, command, world.startup, high);
    assert RetiredFit(host, next, high);
    assert StartupFits(next, rest);
  }

  lemma StartupPending(queue: seq<Command>, command: Command, t: Token)
    requires command.Respond?
    ensures Pending(t, queue + [command], []) == Pending(t, queue, [])
  {
  }

  lemma SentQueue(loop: Loop, command: Command, startup: seq<Command>, high: Option<Token>)
    requires startup != [] && command == startup[0]
    requires QueueFits(loop, [], high) && StartupFits(loop, startup)
    ensures QueueFits(loop.(queue := loop.queue + [command]), [], high)
  {
    hide BornAt, Pending;
    var next := loop.(queue := loop.queue + [command]);
    assert command in startup;
    forall i | 0 <= i < |next.queue|
      ensures CommandFits(next, i, high)
    {
      if i < |loop.queue| {
        assert CommandFits(loop, i, high) && next.queue[i] == loop.queue[i];
        if BornAt(loop.queue, i) {
          BornAppend(loop.queue, [command], i);
        }
      }
    }
    forall t
      ensures Pending(t, next.queue, []) <= 1
    {
      assert Pending(t, loop.queue, []) <= 1;
      StartupPending(loop.queue, command, t);
    }
  }

  /** Every legal run goes through, and everything is settled wherever it stops. */
  lemma {:induction false} RunKeeps(host: Host, world: World, steps: seq<Step>)
    requires ValidHost(host) && Settled(host, world.loop, world.startup)
    requires Legal(host, world, steps)
    ensures Run(host, world, steps).Some?
    ensures Settled(host, Run(host, world, steps).value.loop, Run(host, world, steps).value.startup)
    decreases |steps|
  {
    hide ValidHost, Settled, Reports, Iterate;
    if steps == [] {
    } else {
      match steps[0]
      case MainSends =>
        if world.startup != [] {
          SendingKeeps(host, world);
        }
        RunKeeps(host, Take(host, world, MainSends).value, steps[1..]);
      case Poll(events, clock) =>
        IterationKeeps(host, world.loop, world.startup, events, clock, 0);
        RunKeeps(host, Take(host, world, steps[0]).value, steps[1..]);
    }
  }
}

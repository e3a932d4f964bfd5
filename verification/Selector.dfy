/** The selector event loop of src/select.rs: event sources under tokens, a poll registry, a FIFO command queue.

    Functions say what each part does; the class EventLoop, which updates its fields in place as the source does,
    is proved against them. */
module Selector {
  import opened Text
  import Requests
  import Responses
  import opened Sequential

  type Token = nat

  /** Nanoseconds since some fixed instant. */
  type Time = nat

  const STREAM_TIMEOUT: Time := 60_000_000_000
  const STDIN_TOKEN: Token := 0
  const LISTENER_TOKEN: Token := 1

  datatype Interest = Readable | Writable

  /** What has passed through one accepted socket, and which requests the handler was given for it. */
  datatype Wire = Wire(received: string, sent: string, handled: seq<Requests.Request>)

  const NEW_WIRE := Wire("", "", [])

  datatype Outgoing = Unrendered(response: Responses.Response) | Bytes(bytes: string) | Done

  datatype Connection = Read(request: Requests.Incremental) | Write(response: Outgoing) | Close

  datatype EventSource =
    | Listener(counter: Token)
    | Stream(wire: Wire, state: Connection, acceptTime: Time)
    | Stdin(listener: Token)

  datatype CommandResponse =
    | NewSource(token: Token, source: EventSource, interest: Interest)
    | ModifyInterests(token: Token, interest: Interest)
    | CloseSource(token: Token)
    | SubmitCommand(command: Command)

  /** The closures on the queue: those that return a fixed response, and `check_stream_timeout`. */
  datatype Command = Respond(response: CommandResponse) | CheckTimeout(token: Token)

  datatype WriteOutcome = Took(count: nat) | NoRoom | WriteFailed
  datatype AcceptOutcome = Accepted(at: Time) | NoneWaiting | AcceptFailed

  /** One event of a poll, with the results of the system calls its handler will make;
      when a script runs out, the next call would block. */
  datatype Event = Event(
    token: Token, readable: bool, writable: bool,
    input: seq<ReadOutcome>, output: seq<WriteOutcome>, accepts: seq<AcceptOutcome>, line: string)

  /** A handler gives the source back with commands to queue, or fails and drops it. */
  datatype Handled = Kept(source: EventSource, commands: seq<Command>) | Dropped(source: EventSource)

  // ---------- reading ----------

  datatype Reading =
    | Blocked(request: Requests.Incremental, wire: Wire)
    | Ended(request: Requests.Incremental, wire: Wire)
    | Malformed(wire: Wire)
    | Broken(request: Requests.Incremental, wire: Wire)

  /** Reads until the socket would block, ends or fails, or the request is full or malformed. */
  function ReadAll(request: Requests.Incremental, wire: Wire, input: seq<ReadOutcome>): Reading
    decreases |input|
  {
    if input == [] || input[0].NoData? then Blocked(request, wire)
    else if input[0].ReadFailed? then Broken(request, wire)
    else if input[0].bytes == "" then Ended(request, wire)
    else
      var bytes := input[0].bytes;
      var wire := wire.(received := wire.received + bytes);
      match Requests.TryParse(bytes, request)
      case Err(_) => Malformed(wire)
      case Ok(next) => if next.FullRequest? then Ended(next, wire) else ReadAll(next, wire, input[1..])
  }

  function HandleRead(host: Host, token: Token, stream: EventSource, event: Event): Handled
    requires stream.Stream? && stream.state.Read?
  {
    if !event.readable then Kept(stream, [])
    else
      match ReadAll(stream.state.request, stream.wire, event.input)
      case Blocked(request, wire) => Kept(Stream(wire, Read(request), stream.acceptTime), [])
      case Broken(request, wire) => Dropped(Stream(wire, Read(request), stream.acceptTime))
      case Malformed(wire) =>
        Kept(Stream(wire, Read(Requests.START), stream.acceptTime), [Respond(CloseSource(token))])
      case Ended(request, wire) =>
        if request.FullRequest? then
          Kept(Stream(wire.(handled := wire.handled + [request.request]),
                      Write(Unrendered(host.handle(request.request, false))), stream.acceptTime),
               [Respond(ModifyInterests(token, Writable))])
        else Kept(Stream(wire, Read(request), stream.acceptTime), [])
  }

  // ---------- writing ----------

  datatype Writing =
    | Stalled(response: Outgoing, wire: Wire)
    | Finished(wire: Wire)
    | Severed(response: Outgoing, wire: Wire)

  /** How much of `bytes` a write that offers to take `count` takes. */
  function Accepts(count: nat, bytes: string): nat {
    if count < |bytes| then count else |bytes|
  }

  /** Writes until the socket would block or fails, or a write takes nothing. */
  function WriteAll(bytes: string, wire: Wire, output: seq<WriteOutcome>): Writing {
    if output == [] || output[0].NoRoom? then Stalled(Bytes(bytes), wire)
    else if output[0].WriteFailed? then Severed(Bytes(bytes), wire)
    else
      var n := Accepts(output[0].count, bytes);
      if n == 0 then Finished(wire)
      else WriteAll(bytes[n..], wire.(sent := wire.sent + bytes[..n]), output[1..])
  }

  /** What is still to be sent of a response. */
  function Remaining(host: Host, response: Outgoing): string
    requires ValidHost(host)
  {
    match response
    case Unrendered(r) => Responses.ResponseText(r, host.order)
    case Bytes(bytes) => bytes
    case Done => ""
  }

  function HandleWrite(host: Host, token: Token, stream: EventSource, event: Event): Handled
    requires ValidHost(host)
    requires stream.Stream? && stream.state.Write?
  {
    if !event.writable then Kept(stream, [])
    else
      var writing := if stream.state.response.Done? then Finished(stream.wire)
                     else WriteAll(Remaining(host, stream.state.response), stream.wire, event.output);
      match writing
      case Stalled(response, wire) => Kept(Stream(wire, Write(response), stream.acceptTime), [])
      case Severed(response, wire) => Dropped(Stream(wire, Write(response), stream.acceptTime))
      case Finished(wire) => Kept(Stream(wire, Close, stream.acceptTime), [Respond(CloseSource(token))])
  }

  // ---------- accepting, and the console ----------

  /** The two commands for one accepted stream; the source must be in the map before its timeout is checked. */
  function Birth(token: Token, at: Time): seq<Command> {
    [Respond(NewSource(token, Stream(NEW_WIRE, Read(Requests.START), at), Readable)), CheckTimeout(token)]
  }

  /** Accepts until no connection waits; None if accepting fails. */
  function AcceptAll(counter: Token, accepts: seq<AcceptOutcome>): Option<(Token, seq<Command>)>
    decreases |accepts|
  {
    if accepts == [] || accepts[0].NoneWaiting? then Some((counter, []))
    else if accepts[0].AcceptFailed? then None
    else Prepend(Birth(counter + 1, accepts[0].at), AcceptAll(counter + 1, accepts[1..]))
  }

  function Prepend(commands: seq<Command>, rest: Option<(Token, seq<Command>)>): Option<(Token, seq<Command>)> {
    match rest
    case None => None
    case Some((counter, more)) => Some((counter, commands + more))
  }

  function HandleListener(listener: EventSource, event: Event): Handled
    requires listener.Listener?
  {
    match AcceptAll(listener.counter, event.accepts)
    case None => Dropped(listener)
    case Some((counter, commands)) => Kept(Listener(counter), commands)
  }

  const SHUTDOWN := "shutdown"

  function HandleStdin(stdin: EventSource, event: Event): Handled
    requires stdin.Stdin?
  {
    if event.readable && Trim(event.line) == SHUTDOWN then Kept(stdin, [Respond(CloseSource(stdin.listener))])
    else Kept(stdin, [])
  }

  function HandleEvent(host: Host, source: EventSource, event: Event): Handled
    requires ValidHost(host)
  {
    match source
    case Listener(_) => HandleListener(source, event)
    case Stdin(_) => HandleStdin(source, event)
    case Stream(_, state, _) =>
      match state
      case Read(_) => HandleRead(host, event.token, source, event)
      case Write(_) => HandleWrite(host, event.token, source, event)
      case Close => Kept(source, [])
  }

  // ---------- the loop ----------

  /** The loop's fields; `retired` keeps each source as it was when it was dropped, which deregisters it. */
  datatype Loop = Loop(
    sources: map<Token, EventSource>, interests: map<Token, Interest>, queue: seq<Command>,
    retired: map<Token, EventSource>)

  function Retire(loop: Loop, token: Token, source: EventSource): Loop {
    Loop(loop.sources - {token}, loop.interests - {token}, loop.queue, loop.retired[token := source])
  }

  /** One event; None is the error that no handler is known for its token. */
  function OneEvent(host: Host, loop: Loop, event: Event): Option<Loop>
    requires ValidHost(host)
  {
    if event.token !in loop.sources then None
    else
      match HandleEvent(host, loop.sources[event.token], event)
      case Kept(source, commands) =>
        Some(loop.(sources := loop.sources[event.token := source], queue := loop.queue + commands))
      case Dropped(source) => Some(Retire(loop, event.token, source))
  }

  function AllEvents(host: Host, loop: Loop, events: seq<Event>): Option<Loop>
    requires ValidHost(host)
    decreases |events|
  {
    if events == [] then Some(loop)
    else
      match OneEvent(host, loop, events[0])
      case None => None
      case Some(next) => AllEvents(host, next, events[1..])
  }

  /** A stream that is still reading is closed once it is `STREAM_TIMEOUT` old, and checked again until then;
      for any other the check lapses. */
  function CheckStreamTimeout(token: Token, sources: map<Token, EventSource>, now: Time): Option<CommandResponse> {
    if token in sources && sources[token].Stream? && sources[token].state.Read?
       && !sources[token].state.request.FullRequest?
    then
      var at := sources[token].acceptTime;
      if at <= now && now - at >= STREAM_TIMEOUT then Some(CloseSource(token))
      else Some(SubmitCommand(CheckTimeout(token)))
    else None
  }

  function RunCommand(command: Command, sources: map<Token, EventSource>, now: Time): Option<CommandResponse> {
    match command
    case Respond(response) => Some(response)
    case CheckTimeout(token) => CheckStreamTimeout(token, sources, now)
  }

  /** Carries out one command; it may ask for another to be queued after this phase. */
  function Execute(loop: Loop, command: Command, now: Time): (r: (Loop, seq<Command>))
    ensures r.0.queue == loop.queue
  {
    match RunCommand(command, loop.sources, now)
    case None => (loop, [])
    case Some(NewSource(token, source, interest)) =>
      (loop.(sources := loop.sources[token := source], interests := loop.interests[token := interest]), [])
    case Some(ModifyInterests(token, interest)) =>
      if token in loop.sources then (loop.(interests := loop.interests[token := interest]), []) else (loop, [])
    case Some(CloseSource(token)) =>
      if token in loop.sources then (Retire(loop, token, loop.sources[token]), []) else (loop, [])
    case Some(SubmitCommand(again)) => (loop, [again])
  }

  /** Takes the head off the queue and carries it out. */
  function ExecuteHead(loop: Loop, now: Time): (Loop, seq<Command>)
    requires loop.queue != []
  {
    Execute(loop.(queue := loop.queue[1..]), loop.queue[0], now)
  }

  /** Runs the queue empty, `clock` giving the time at each command, then queues what was asked for meanwhile. */
  function Drain(loop: Loop, clock: nat -> Time, k: nat, again: seq<Command>): Loop
    decreases |loop.queue|
  {
    if loop.queue == [] then loop.(queue := again)
    else
      var (next, more) := ExecuteHead(loop, clock(k));
      Drain(next, clock, k + 1, again + more)
  }

  /** One iteration: the events of a poll, then every queued command. */
  function Iterate(host: Host, loop: Loop, events: seq<Event>, clock: nat -> Time): Option<Loop>
    requires ValidHost(host)
  {
    match AllEvents(host, loop, events)
    case None => None
    case Some(next) => Some(Drain(next, clock, 0, []))
  }

  // ---------- the class ----------

  class EventLoop {
    const host: Host
    var eventSources: map<Token, EventSource>
    var interests: map<Token, Interest>
    var commandQueue: seq<Command>
    var retired: map<Token, EventSource>

    ghost function State(): Loop
      reads this
    {
      Loop(eventSources, interests, commandQueue, retired)
    }

    constructor (host: Host)
      ensures this.host == host
      ensures State() == Loop(map[], map[], [], map[])
    {
      this.host := host;
      eventSources, interests, commandQueue, retired := map[], map[], [], map[];
    }

    method Submit(command: Command)
      modifies this`commandQueue
      ensures State() == old(State()).(queue := old(commandQueue) + [command])
    {
      commandQueue := commandQueue + [command];
    }

    /** One poll; false when an event has no handler. */
    method Next(events: seq<Event>, clock: nat -> Time) returns (ok: bool)
      requires ValidHost(host)
      modifies this
      ensures ok <==> Iterate(host, old(State()), events, clock).Some?
      ensures ok ==> Some(State()) == Iterate(host, old(State()), events, clock)
    {
      hide OneEvent, ValidHost, Execute;
      ghost var start := State();
      for i := 0 to |events|
        invariant AllEvents(host, State(), events[i..]) == AllEvents(host, start, events)
      {
        assert events[i..][0] == events[i] && events[i..][1..] == events[i + 1..];
        var known := ProcessEvent(events[i]);
        if !known {
          return false;
        }
      }
      assert events[|events|..] == [];
      ghost var polled := State();
      var newCommands: seq<Command> := [];
      var k: nat := 0;
      while commandQueue != []
        invariant Drain(State(), clock, k, newCommands) == Drain(polled, clock, 0, [])
        decreases |commandQueue|
      {
        var command := commandQueue[0];
        ghost var before := State();
        commandQueue := commandQueue[1..];
        var more := ExecuteCommand(command, clock(k));
        assert (State(), more) == ExecuteHead(before, clock(k));
        newCommands, k := newCommands + more, k + 1;
      }
      for i := 0 to |newCommands|
        invariant commandQueue == newCommands[..i]
        invariant State().(queue := newCommands) == Drain(polled, clock, 0, [])
      {
        Submit(newCommands[i]);
      }
      assert newCommands[..|newCommands|] == newCommands;
      return true;
    }

    /** Takes the source out of the map, lets it handle the event, and puts it back unless the handler failed. */
    method ProcessEvent(event: Event) returns (known: bool)
      requires ValidHost(host)
      modifies this
      ensures known <==> OneEvent(host, old(State()), event).Some?
      ensures if known then Some(State()) == OneEvent(host, old(State()), event) else State() == old(State())
    {
      hide HandleEvent, ValidHost;
      if event.token !in eventSources {
        return false;
      }
      var source := eventSources[event.token];
      eventSources := eventSources - {event.token};
      var handled := Dispatch(source, event);
      match handled {
        case Kept(newSource, commands) =>
          eventSources := eventSources[event.token := newSource];
          assert eventSources == old(eventSources)[event.token := newSource];
          for i := 0 to |commands|
            invariant eventSources == old(eventSources)[event.token := newSource]
            invariant interests == old(interests) && retired == old(retired)
            invariant commandQueue == old(commandQueue) + commands[..i]
          {
            Submit(commands[i]);
          }
          assert commands[..|commands|] == commands;
        case Dropped(last) =>
          interests := interests - {event.token};
          retired := retired[event.token := last];
      }
      return true;
    }

    method ExecuteCommand(command: Command, now: Time) returns (again: seq<Command>)
      modifies this
      ensures (State(), again) == Execute(old(State()), command, now)
    {
      again := [];
      match RunCommand(command, eventSources, now) {
        case None =>
        case Some(NewSource(token, source, interest)) =>
          interests := interests[token := interest];
          eventSources := eventSources[token := source];
        case Some(ModifyInterests(token, interest)) =>
          if token in eventSources {
            interests := interests[token := interest];
          }
        case Some(CloseSource(token)) =>
          if token in eventSources {
            retired := retired[token := eventSources[token]];
            eventSources := eventSources - {token};
            interests := interests - {token};
          }
        case Some(SubmitCommand(command)) =>
          again := [command];
      }
    }

    method Dispatch(source: EventSource, event: Event) returns (handled: Handled)
      requires ValidHost(host)
      ensures handled == HandleEvent(host, source, event)
    {
      hide ValidHost, HandleRead, HandleWrite;
      match source {
        case Listener(_) => handled := AcceptConnections(source, event);
        case Stdin(_) => handled := HandleStdin(source, event);
        case Stream(_, state, _) =>
          match state {
            case Read(_) => handled := ReadStream(source, event);
            case Write(_) => handled := WriteStream(source, event);
            case Close => handled := Kept(source, []);
          }
      }
    }

    method AcceptConnections(listener: EventSource, event: Event) returns (handled: Handled)
      requires listener.Listener?
      ensures handled == HandleListener(listener, event)
    {
      hide Birth;
      var counter := listener.counter;
      var commands: seq<Command> := [];
      ghost var all := AcceptAll(listener.counter, event.accepts);
      var i := 0;
      assert event.accepts[0..] == event.accepts;
      assert all.Some? ==> [] + all.value.1 == all.value.1;
      while i < |event.accepts| && event.accepts[i].Accepted?
        invariant 0 <= i <= |event.accepts|
        invariant all == Prepend(commands, AcceptAll(counter, event.accepts[i..]))
      {
        assert event.accepts[i..][1..] == event.accepts[i + 1..];
        counter := counter + 1;
        ghost var rest := AcceptAll(counter, event.accepts[i + 1..]);
        ghost var before := commands;
        commands := commands + Birth(counter, event.accepts[i].at);
        assert rest.Some? ==> commands + rest.value.1 == before + (Birth(counter, event.accepts[i].at) + rest.value.1);
        i := i + 1;
      }
      assert commands + [] == commands;
      if i < |event.accepts| && event.accepts[i].AcceptFailed? {
        handled := Dropped(listener);
      } else {
        handled := Kept(Listener(counter), commands);
      }
    }

    method ReadStream(stream: EventSource, event: Event) returns (handled: Handled)
      requires stream.Stream? && stream.state.Read?
      ensures handled == HandleRead(host, event.token, stream, event)
    {
      hide Requests.TryParse;
      if !event.readable {
        return Kept(stream, []);
      }
      var request, wire, at := stream.state.request, stream.wire, stream.acceptTime;
      ghost var reading := ReadAll(request, wire, event.input);
      var i := 0;
      while true
        invariant 0 <= i <= |event.input|
        invariant ReadAll(request, wire, event.input[i..]) == reading
        decreases |event.input| - i
      {
        if i == |event.input| || event.input[i].NoData? {
          return Kept(Stream(wire, Read(request), at), []);
        } else if event.input[i].ReadFailed? {
          return Dropped(Stream(wire, Read(request), at));
        } else if event.input[i].bytes == "" {
          assert reading == Ended(request, wire);
          break;
        }
        assert event.input[i..][1..] == event.input[i + 1..];
        wire := wire.(received := wire.received + event.input[i].bytes);
        match Requests.TryParse(event.input[i].bytes, request) {
          case Err(_) =>
            return Kept(Stream(wire, Read(Requests.START), at), [Respond(CloseSource(event.token))]);
          case Ok(next) =>
            request := next;
        }
        if request.FullRequest? {
          assert reading == Ended(request, wire);
          break;
        }
        i := i + 1;
      }
      if request.FullRequest? {
        var response := host.handle(request.request, false);
        wire := wire.(handled := wire.handled + [request.request]);
        handled := Kept(Stream(wire, Write(Unrendered(response)), at),
                        [Respond(ModifyInterests(event.token, Writable))]);
      } else {
        handled := Kept(Stream(wire, Read(request), at), []);
      }
    }

    method WriteStream(stream: EventSource, event: Event) returns (handled: Handled)
      requires ValidHost(host)
      requires stream.Stream? && stream.state.Write?
      ensures handled == HandleWrite(host, event.token, stream, event)
    {
      hide Responses.ResponseText, ValidHost, Responses.Enumerates;
      if !event.writable {
        return Kept(stream, []);
      }
      var response, wire, at := stream.state.response, stream.wire, stream.acceptTime;
      ghost var writing := WriteAll(Remaining(host, response), wire, event.output);
      var i := 0;
      while true
        invariant 0 <= i <= |event.output|
        invariant stream.state.response.Done? ==> response.Done? && wire == stream.wire
        invariant !stream.state.response.Done? && !response.Done? ==>
                    WriteAll(Remaining(host, response), wire, event.output[i..]) == writing
        invariant !stream.state.response.Done? && response.Done? ==> writing == Finished(wire)
        decreases |event.output| - i, match response case Unrendered(_) => 2 case Bytes(_) => 1 case Done => 0
      {
        match response {
          case Unrendered(r) =>
            HostEnumerates(host, r);
            var bytes := Responses.WriteResponse(r, host.order);
            response := Bytes(bytes);
          case Bytes(bytes) =>
            if i == |event.output| || event.output[i].NoRoom? {
              return Kept(Stream(wire, Write(Bytes(bytes)), at), []);
            } else if event.output[i].WriteFailed? {
              return Dropped(Stream(wire, Write(Bytes(bytes)), at));
            }
            var n := Accepts(event.output[i].count, bytes);
            if n > 0 {
              assert event.output[i..][1..] == event.output[i + 1..];
              wire := wire.(sent := wire.sent + bytes[..n]);
              response := Bytes(bytes[n..]);
              i := i + 1;
            } else {
              response := Done;
            }
          case Done =>
            return Kept(Stream(wire, Close, at), [Respond(CloseSource(event.token))]);
        }
      }
    }
  }
}

/** What the event loop promises over every run, in terms a user of the server would check. */
module SelectorTheorems {
  import opened Text
  import opened Requests
  import opened Sequential
  import Responses
  import opened Selector
  import opened SelectorInvariant
  import opened SelectorCommands
  import opened SelectorEvents
  import opened SelectorRuns
  import opened SelectorEvolution
  import opened SelectorEndings

  // ---------- the structures agree ----------

  /** The map of sources, the poll registry and the queue of checks tell the same story. */
  ghost predicate Consistent(loop: Loop) {
    && loop.sources.Keys == loop.interests.Keys
    && (forall t :: multiset(loop.queue)[CheckTimeout(t)] <= 1)
    && forall t | t in loop.sources ::
         match loop.sources[t]
         case Listener(_) => loop.interests[t].Readable?
         case Stdin(_) => loop.interests[t].Readable?
         case Stream(_, state, _) =>
           match state
           case Read(request) =>
             loop.interests[t].Readable? && Stored(request) && multiset(loop.queue)[CheckTimeout(t)] == 1
           case Write(_) => loop.interests[t].Writable?
           case Close => false
  }

  lemma SettledIsConsistent(host: Host, loop: Loop, startup: seq<Command>)
    requires ValidHost(host) && Settled(host, loop, startup)
    ensures Consistent(loop)
  {
    hide ValidHost, Truthful, Stored, CommandFits, RetiredFit, StartupFits;
    forall t
      ensures multiset(loop.queue)[CheckTimeout(t)] <= 1
    {
      assert Pending(t, loop.queue, []) <= 1;
    }
    forall t | t in loop.sources
      ensures SourceFits(host, t, loop.sources[t], loop.interests[t], loop.queue, [], 0, High(loop, startup))
      ensures Respond(CloseSource(t)) !in loop.queue && Respond(ModifyInterests(t, Writable)) !in loop.queue
    {
    }
  }

  /** No legal run is ever stopped by an event without a handler, and wherever it stands, all structures agree. */
  lemma EveryRunIsConsistent(host: Host, steps: seq<Step>)
    requires ValidHost(host) && Legal(host, INITIAL, steps)
    ensures Run(host, INITIAL, steps).Some?
    ensures Consistent(Run(host, INITIAL, steps).value.loop)
  {
    hide ValidHost, Legal, Run, Settled, Consistent;
    InitiallySettled(host);
    RunKeeps(host, INITIAL, steps);
    var world := Run(host, INITIAL, steps).value;
    SettledIsConsistent(host, world.loop, world.startup);
  }

  /** After any legal run, an iteration whose commands run at `from` or later leaves no stream reading that was
      accepted sixty seconds (of a billion nanoseconds each) or more before `from`. */
  lemma TimeoutSafety(host: Host, steps: seq<Step>, events: seq<Event>, clock: nat -> Time, from: Time)
    requires ValidHost(host) && Legal(host, INITIAL, steps) && Run(host, INITIAL, steps).Some?
    requires Reports(Run(host, INITIAL, steps).value.loop, events)
    requires forall k: nat :: from <= clock(k)
    ensures var next := Iterate(host, Run(host, INITIAL, steps).value.loop, events, clock);
            && next.Some?
            && forall t | IsReading(next.value, t) :: from < next.value.sources[t].acceptTime + 60_000_000_000
  {
    hide ValidHost, Legal, Run, Settled, Iterate, Reports;
    InitiallySettled(host);
    RunKeeps(host, INITIAL, steps);
    var world := Run(host, INITIAL, steps).value;
    IterationKeeps(host, world.loop, world.startup, events, clock, from);
  }

  /** Nor is any stream closed too early: one that still reads after its event, its bytes not malformed, goes on as long
      as no command of the iteration is carried out when it is sixty seconds old. */
  lemma NoEarlyTimeout(host: Host, steps: seq<Step>, events: seq<Event>, clock: nat -> Time, t: Token)
    requires ValidHost(host) && Legal(host, INITIAL, steps) && Run(host, INITIAL, steps).Some?
    requires var loop := Run(host, INITIAL, steps).value.loop;
             && Reports(loop, events) && IsReading(loop, t) && !ReadFails(events, t)
             && !Reaches(clock, loop.sources[t].acceptTime + 60_000_000_000)
    ensures var loop := Run(host, INITIAL, steps).value.loop;
            var next := Iterate(host, loop, events, clock);
            var handled := Polled(host, loop.sources[t], events, t);
            && next.Some? && handled.Kept? && handled.source.Stream?
            && (!Doomed(handled.source) ==> t in next.value.sources && next.value.sources[t] == handled.source)
  {
    hide ValidHost, Legal, Run, Settled, Iterate, Reports, EventFor, HandleEvent, Doomed, Reaches;
    InitiallySettled(host);
    RunKeeps(host, INITIAL, steps);
    var world := Run(host, INITIAL, steps).value;
    var stream := world.loop.sources[t];
    var k := CheckIsQueued(host, world.loop, world.startup, t);
    IterationDecides(host, world.loop, world.startup, events, clock, t, k);
    StaysStream(host, stream, events, t);
    NotReached(clock, stream.acceptTime + 60_000_000_000, k);
    if EventFor(events, t).Some? {
      ReadingIsDroppedByFailure(host, stream, EventFor(events, t).value);
    }
  }

  lemma ReadingIsDroppedByFailure(host: Host, stream: EventSource, event: Event)
    requires ValidHost(host) && stream.Stream? && stream.state.Read?
    ensures HandleEvent(host, stream, event).Dropped? ==> ReadFailed in event.input
  {
    hide ValidHost, TryParse;
    ReadFailure(stream.state.request, stream.wire, event.input);
  }

  // ---------- births ----------

  /** When a stream is added its token has never been used, and its first timeout check comes next and finds it. */
  lemma FirstCheckFindsStream(host: Host, loop: Loop, again: seq<Command>, startup: seq<Command>, from: Time, now: Time)
    requires ValidHost(host) && Sound(host, loop, again, startup, from)
    requires loop.queue != [] && loop.queue[0].Respond? && loop.queue[0].response.NewSource?
    requires loop.queue[0].response.source.Stream?
    ensures var t := loop.queue[0].response.token;
            var next := ExecuteHead(loop, now).0;
            && t !in loop.sources && t !in loop.retired && 2 <= t
            && next.queue != [] && next.queue[0] == CheckTimeout(t)
            && t in next.sources && next.sources[t].Stream? && next.sources[t].state == Read(START)
  {
    hide ValidHost, SourcesFit, RetiredFit, StartupFits, QueueFits;
    NewcomerIsFresh(loop, again, startup, High(loop, startup));
    var queue := loop.queue;
    var birth := Birth(queue[0].response.token, queue[0].response.source.acceptTime);
    assert queue[0] == queue[0..2][0] == birth[0] && queue[1] == queue[0..2][1] == birth[1];
  }

  // ---------- what a connection sends ----------

  /** The stream is in use or has been dropped. */
  predicate Recorded(loop: Loop, t: Token, stream: EventSource) {
    && stream.Stream?
    && ((t in loop.sources && loop.sources[t] == stream) || (t in loop.retired && loop.retired[t] == stream))
  }

  lemma RecordedIsTruthful(host: Host, steps: seq<Step>, t: Token, stream: EventSource)
    requires ValidHost(host) && Legal(host, INITIAL, steps) && Run(host, INITIAL, steps).Some?
    requires Recorded(Run(host, INITIAL, steps).value.loop, t, stream)
    ensures Truthful(host, stream) && 2 <= t
  {
    hide ValidHost, Legal, Run, Truthful, QueueFits, StartupFits;
    InitiallySettled(host);
    RunKeeps(host, INITIAL, steps);
    var world := Run(host, INITIAL, steps).value;
    var loop, high := world.loop, High(world.loop, world.startup);
    if t in loop.sources && loop.sources[t] == stream {
      assert SourceFits(host, t, stream, loop.interests[t], loop.queue, [], 0, high);
    } else {
      assert RetiredFits(host, t, stream, high);
    }
  }

  /** In every run a connection hands the handler exactly one request once it has received one in full, and what it
      has sent is the beginning of the answer to it; until then it calls no handler and sends nothing. */
  lemma SendsOnlyItsAnswer(host: Host, steps: seq<Step>, t: Token, stream: EventSource)
    requires ValidHost(host) && Legal(host, INITIAL, steps) && Run(host, INITIAL, steps).Some?
    requires Recorded(Run(host, INITIAL, steps).value.loop, t, stream)
    ensures |stream.wire.handled| == if Complete(stream.wire) then 1 else 0
    ensures stream.state.Read? <==> !Complete(stream.wire)
    ensures var answer := Answer(host, stream.wire.received, false);
            if answer.Some? then stream.wire.sent <= answer.value
            else stream.wire.sent == "" && stream.wire.handled == []
  {
    hide ValidHost, Legal, Run, TryParse, Remaining;
    RecordedIsTruthful(host, steps, t, stream);
  }

  /** The bytes `Process` sends for what it receives to a peer that stays open, failing if there are none. */
  function SentSequentially(host: Host, script: seq<ReadOutcome>): string
    requires ValidHost(host)
  {
    match Answer(host, Received(script), false)
    case Some(bytes) => bytes
    case None => ""
  }

  ghost predicate SomeWriteFails(steps: seq<Step>, t: Token) {
    exists i :: 0 <= i < |steps| && steps[i].Poll? && WriteFails(steps[i].events, t)
  }

  ghost predicate SomeReadFails(steps: seq<Step>, t: Token) {
    exists i :: 0 <= i < |steps| && steps[i].Poll? && ReadFails(steps[i].events, t)
  }

  ghost predicate SomeTimeReaches(steps: seq<Step>, limit: Time) {
    exists i :: 0 <= i < |steps| && steps[i].Poll? && Reaches(steps[i].clock, limit)
  }

  /** No failed write of its own and, unless a full request had arrived, no failed read and no timeout either. */
  ghost predicate Unharmed(steps: seq<Step>, t: Token, stream: EventSource)
    requires stream.Stream?
  {
    && !SomeWriteFails(steps, t)
    && (Complete(stream.wire)
        || (!SomeReadFails(steps, t) && !SomeTimeReaches(steps, stream.acceptTime + 60_000_000_000)))
  }

  /** In every run, a connection that is over and met neither an I/O error nor the timeout sent exactly what the
      sequential server sends on the same bytes, however either of them cut the bytes into reads, whatever the sizes
      of the writes, and whatever the peer sent after the request. */
  lemma SelectorRefinesSequential(host: Host, steps: seq<Step>, t: Token, stream: EventSource, script: seq<ReadOutcome>)
    requires ValidHost(host) && Legal(host, INITIAL, steps) && Run(host, INITIAL, steps).Some?
    requires var loop := Run(host, INITIAL, steps).value.loop; t in loop.retired && loop.retired[t] == stream
    requires stream.Stream? && Unharmed(steps, t, stream)
    requires stream.wire.received <= Received(script)
    ensures stream.wire.sent == SentSequentially(host, script)
    ensures stream.state.Close? <==> Answer(host, Received(script), false).Some?
  {
    hide ValidHost, Legal, Run, TryParse, Answer, Pieces, Unharmed;
    RecordedIsTruthful(host, steps, t, stream);
    UnharmedIsDoomed(host, steps, t, stream);
    if stream.state.Close? {
      ClosedIsAnswered(host, steps, t, stream, script);
    } else {
      NeitherAnswersMalformed(host, steps, t, stream, script);
    }
  }

  lemma UnharmedIsDoomed(host: Host, steps: seq<Step>, t: Token, stream: EventSource)
    requires ValidHost(host) && Legal(host, INITIAL, steps) && Run(host, INITIAL, steps).Some?
    requires var loop := Run(host, INITIAL, steps).value.loop; t in loop.retired && loop.retired[t] == stream
    requires stream.Stream? && Unharmed(steps, t, stream)
    ensures Doomed(stream)
  {
    hide ValidHost, Legal, Run, TryParse, Owes, Remaining, ReadFails, WriteFails, Reaches, Settled;
    InitiallySettled(host);
    RunEnds(host, INITIAL, steps, t);
    RecordedIsTruthful(host, steps, t, stream);
    var i :| 0 <= i < |steps| && CauseIn(steps[i], t, stream);
    assert stream.state.Read? ==> !Complete(stream.wire);
  }

  lemma ClosedIsAnswered(host: Host, steps: seq<Step>, t: Token, stream: EventSource, script: seq<ReadOutcome>)
    requires ValidHost(host) && Legal(host, INITIAL, steps) && Run(host, INITIAL, steps).Some?
    requires Recorded(Run(host, INITIAL, steps).value.loop, t, stream) && stream.state.Close?
    requires stream.wire.received <= Received(script)
    ensures Answer(host, Received(script), false) == Some(stream.wire.sent)
  {
    hide ValidHost, Legal, Run, TryParse, Answer, Pieces;
    RecordedIsTruthful(host, steps, t, stream);
    var received, all := stream.wire.received, Received(script);
    assert stream.wire.sent + "" == stream.wire.sent;
    AnswerIgnoresSuffix(host, received, all[|received|..], false);
    assert received + all[|received|..] == all;
  }

  /** On malformed bytes neither server sends anything, whatever follows them. */
  lemma NeitherAnswersMalformed(host: Host, steps: seq<Step>, t: Token, stream: EventSource, script: seq<ReadOutcome>)
    requires ValidHost(host) && Legal(host, INITIAL, steps) && Run(host, INITIAL, steps).Some?
    requires Recorded(Run(host, INITIAL, steps).value.loop, t, stream)
    requires TryParse(stream.wire.received, START).Err? && stream.wire.received <= Received(script)
    ensures stream.wire.sent == "" && stream.wire.handled == [] && stream.state.Read?
    ensures Answer(host, Received(script), false) == None
  {
    hide ValidHost, Legal, Run, TryParse, Pieces, Remaining;
    RecordedIsTruthful(host, steps, t, stream);
    var received, all := stream.wire.received, Received(script);
    ParsePrefix(received, all[|received|..]);
    assert received + all[|received|..] == all;
  }

  // ---------- the server as it is started ----------

  /** Starts the loop and takes it through `steps`, as `select_multiplex` and `run` do; it is never stopped, and ends
      where the steps lead, with its fields in agreement. */
  method Serve(host: Host, steps: seq<Step>) returns (loop: EventLoop)
    requires ValidHost(host) && Legal(host, INITIAL, steps)
    ensures loop.host == host && Consistent(loop.State())
    ensures Run(host, INITIAL, steps).Some? && Run(host, INITIAL, steps).value.loop == loop.State()
  {
    hide ValidHost, Settled, Reports, Iterate, Consistent;
    loop := new EventLoop(host);
    ghost var world := INITIAL;
    var startup := INITIAL.startup;
    InitiallySettled(host);
    assert steps[0..] == steps;
    for i := 0 to |steps|
      invariant loop.host == host && world == World(loop.State(), startup)
      invariant Settled(host, world.loop, world.startup) && Legal(host, world, steps[i..])
      invariant Run(host, world, steps[i..]) == Run(host, INITIAL, steps)
    {
      assert steps[i..][1..] == steps[i + 1..];
      match steps[i] {
        case MainSends =>
          if startup != [] {
            SendingKeeps(host, world);
            loop.Submit(startup[0]);
            startup := startup[1..];
          }
        case Poll(events, clock) =>
          IterationKeeps(host, world.loop, world.startup, events, clock, 0);
          var ok := loop.Next(events, clock);
      }
      world := Take(host, world, steps[i]).value;
    }
    SettledIsConsistent(host, world.loop, world.startup);
  }
}

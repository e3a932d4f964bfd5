/** When exactly a connection fails, stated over what its reads and writes return; and how the server starts up. */
module SelectorFailures {
  import opened Text
  import opened Requests
  import opened Sequential
  import Responses
  import opened Selector
  import opened SelectorInvariant
  import opened SelectorCommands
  import opened SelectorEvents
  import opened SelectorRuns
  import opened SelectorEvolution
  import opened SelectorEndings

  // ---------- reading ----------

  /** The data so far is the beginning of a request, and no more. */
  predicate IsPartial(received: string) {
    TryParse(received, START).Ok? && !TryParse(received, START).value.FullRequest?
  }

  /** A read fails before the request is complete: nothing but data comes before it, and that is no whole request. */
  predicate FailsWhileReading(received: string, input: seq<ReadOutcome>) {
    var n := |Pieces(input)|;
    n < |input| && input[n].ReadFailed? && IsPartial(received + Received(input))
  }

  lemma PiecesStep(input: seq<ReadOutcome>)
    requires input != [] && IsData(input[0])
    ensures Pieces(input) == [input[0].bytes] + Pieces(input[1..])
    ensures Received(input) == input[0].bytes + Received(input[1..])
  {
    var rest := Pieces(input[1..]);
    assert ([input[0].bytes] + rest)[1..] == rest;
  }

  lemma NotPartialAnymore(received: string, more: string)
    requires TryParse(received, START).Err? || TryParse(received, START).value.FullRequest?
    ensures !IsPartial(received + more)
  {
    hide TryParse;
    ParsePrefix(received, more);
  }

  lemma {:induction false} ReadFailsExactly(request: Incremental, wire: Wire, input: seq<ReadOutcome>)
    requires Parsed(wire, request)
    ensures ReadAll(request, wire, input).Broken? <==> FailsWhileReading(wire.received, input)
    decreases |input|
  {
    hide TryParse, Stored, Pieces;
    StoredNotFull(request);
    if input == [] || !IsData(input[0]) {
      NoPieces(input);
      assert wire.received + "" == wire.received;
    } else {
      var bytes := input[0].bytes;
      var received := wire.received + bytes;
      PiecesStep(input);
      assert wire.received + Received(input) == received + Received(input[1..]);
      ResumeFrom(START, wire.received, bytes);
      ParserInvariantOfStored(bytes, request);
      var next := TryParse(bytes, request);
      if next.Err? || next.value.FullRequest? {
        NotPartialAnymore(received, Received(input[1..]));
      } else {
        ReadFailsExactly(next.value, wire.(received := received), input[1..]);
      }
    }
  }

  lemma NoPieces(input: seq<ReadOutcome>)
    requires input == [] || !IsData(input[0])
    ensures Pieces(input) == [] && Received(input) == ""
  {
  }

  // ---------- writing ----------

  /** How many bytes the writes offer to take. */
  function Offered(output: seq<WriteOutcome>): nat {
    if output == [] then 0
    else (if output[0].Took? then output[0].count else 0) + Offered(output[1..])
  }

  /** A write fails while there is still something to write: the writes before it took some, and before each of them
      something was left. */
  predicate FailsWhileWriting(n: nat, output: seq<WriteOutcome>) {
    exists i :: 0 <= i < |output| && FailsAt(n, output, i)
  }

  predicate FailsAt(n: nat, output: seq<WriteOutcome>, i: nat)
    requires i < |output|
  {
    && output[i].WriteFailed?
    && (forall j | 0 <= j < i :: output[j].Took?)
    && (i > 0 ==> Offered(output[..i - 1]) < n)
  }

  lemma FailsLater(n: nat, output: seq<WriteOutcome>, i: nat)
    requires i + 1 < |output| && output[0].Took? && output[0].count > 0
    ensures var left := if output[0].count < n then n - output[0].count else 0;
            FailsAt(n, output, i + 1) <==> n > 0 && FailsAt(left, output[1..], i)
  {
    var rest := output[1..];
    assert forall j | 0 <= j < |rest| :: rest[j] == output[j + 1];
    assert (forall j | 0 <= j < i + 1 :: output[j].Took?) <==> forall j | 0 <= j < i :: rest[j].Took? by {
      if forall j | 0 <= j < i :: rest[j].Took? {
        forall j | 0 <= j < i + 1
          ensures output[j].Took?
        {
          if j > 0 {
            assert rest[j - 1] == output[j];
          }
        }
      }
    }
    if i == 0 {
      assert output[..0] == [];
    } else {
      assert output[..i][0] == output[0] && output[..i][1..] == rest[..i - 1];
    }
  }

  lemma {:induction false} WriteFailsExactly(bytes: string, wire: Wire, output: seq<WriteOutcome>)
    requires forall i | 0 <= i < |output| :: output[i].Took? ==> output[i].count > 0
    ensures WriteAll(bytes, wire, output).Severed? <==> FailsWhileWriting(|bytes|, output)
    decreases |output|
  {
    hide Offered, FailsAt;
    if output == [] {
    } else if !output[0].Took? {
      FirstFails(|bytes|, output);
    } else {
      var n := Accepts(output[0].count, bytes);
      var rest := output[1..];
      assert forall i | 0 <= i < |rest| :: rest[i] == output[i + 1];
      FirstTakes(|bytes|, output);
      if n > 0 {
        WriteFailsExactly(bytes[n..], wire.(sent := wire.sent + bytes[..n]), rest);
      }
    }
  }

  lemma FirstFails(n: nat, output: seq<WriteOutcome>)
    requires output != [] && !output[0].Took?
    ensures FailsWhileWriting(n, output) <==> output[0].WriteFailed?
  {
    if output[0].WriteFailed? {
      assert FailsAt(n, output, 0);
    }
  }

  lemma FirstTakes(n: nat, output: seq<WriteOutcome>)
    requires output != [] && output[0].Took? && output[0].count > 0
    ensures var left := if output[0].count < n then n - output[0].count else 0;
            FailsWhileWriting(n, output) <==> n > 0 && FailsWhileWriting(left, output[1..])
  {
    hide FailsAt;
    var left := if output[0].count < n then n - output[0].count else 0;
    if FailsWhileWriting(n, output) {
      var i :| 0 <= i < |output| && FailsAt(n, output, i);
      assert i > 0 by { TookIsNoFailure(n, output); }
      FailsLater(n, output, i - 1);
    }
    if n > 0 && FailsWhileWriting(left, output[1..]) {
      var i :| 0 <= i < |output[1..]| && FailsAt(left, output[1..], i);
      FailsLater(n, output, i);
    }
  }

  lemma TookIsNoFailure(n: nat, output: seq<WriteOutcome>)
    requires output != [] && output[0].Took?
    ensures !FailsAt(n, output, 0)
  {
  }

  // ---------- connections that are dropped ----------

  /** A handler drops a connection exactly when a read fails before its request is complete, or a write fails before its
      answer is sent. */
  lemma DroppedExactly(host: Host, stream: EventSource, event: Event)
    requires ValidHost(host) && stream.Stream? && WritesProgress(event)
    requires stream.state.Read? ==> Parsed(stream.wire, stream.state.request)
    ensures HandleEvent(host, stream, event).Dropped?
        <==> match stream.state
             case Read(_) => event.readable && FailsWhileReading(stream.wire.received, event.input)
             case Write(response) =>
               event.writable && !response.Done? && FailsWhileWriting(|Remaining(host, response)|, event.output)
             case Close => false
  {
    hide ValidHost, Remaining, Parsed, FailsWhileReading, FailsWhileWriting;
    match stream.state
    case Read(request) => ReadFailsExactly(request, stream.wire, event.input);
    case Write(response) => WriteFailsExactly(Remaining(host, response), stream.wire, event.output);
    case Close =>
  }

  /** So an iteration retires a connection whose read or write fails, as it is. */
  lemma FailureEnds(host: Host, loop: Loop, startup: seq<Command>, events: seq<Event>, clock: nat -> Time, t: Token,
                    event: Event)
    requires ValidHost(host) && Settled(host, loop, startup) && Reports(loop, events)
    requires t in loop.sources && loop.sources[t].Stream? && event in events && event.token == t
    requires match loop.sources[t].state
             case Read(_) => event.readable && FailsWhileReading(loop.sources[t].wire.received, event.input)
             case Write(response) =>
               event.writable && !response.Done? && FailsWhileWriting(|Remaining(host, response)|, event.output)
             case Close => false
    ensures Iterate(host, loop, events, clock).Some?
    ensures var next := Iterate(host, loop, events, clock).value;
            && t !in next.sources && t in next.retired && next.retired[t].Stream?
            && !next.retired[t].state.Close?
  {
    hide ValidHost, Settled, Iterate, Remaining, HandleEvent, WritesProgress, FailsWhileReading, FailsWhileWriting,
         Parsed, Truthful;
    EventForIs(events, event);
    var k := CheckIsQueued(host, loop, startup, t);
    IterationDecides(host, loop, startup, events, clock, t, k);
    ReadingIsParsed(host, loop, startup, t);
    assert WritesProgress(event) by { ReportedProgress(loop, events, event); }
    DroppedExactly(host, loop.sources[t], event);
    DroppedByFailure(host, loop.sources[t], event);
  }

  lemma ReportedProgress(loop: Loop, events: seq<Event>, event: Event)
    requires Reports(loop, events) && event in events
    ensures WritesProgress(event)
  {
    hide WritesProgress;
  }

  lemma ReadingIsParsed(host: Host, loop: Loop, startup: seq<Command>, t: Token)
    requires ValidHost(host) && Settled(host, loop, startup) && t in loop.sources && loop.sources[t].Stream?
    ensures loop.sources[t].state.Read? ==> Parsed(loop.sources[t].wire, loop.sources[t].state.request)
  {
    hide ValidHost, Parsed, QueueFits, StartupFits, RetiredFit, Pending, Truthful;
    assert SourceFits(host, t, loop.sources[t], loop.interests[t], loop.queue, [], 0, High(loop, startup));
    assert Respond(CloseSource(t)) !in loop.queue;
  }

  // ---------- starting up ----------

  /** Once the main thread has sent its commands and the loop has gone round once, the console is registered under token
      0 and the listener under token 1, which is also its counter: the first connection gets token 2. */
  lemma Started(host: Host, clock: nat -> Time)
    requires ValidHost(host)
    ensures var steps := [MainSends, MainSends, Poll([], clock)];
            && Legal(host, INITIAL, steps)
            && Run(host, INITIAL, steps)
            == Some(World(Loop(map[0 := Stdin(1), 1 := Listener(1)], map[0 := Readable, 1 := Readable], [], map[]), []))
  {
    hide ValidHost;
    var steps := [MainSends, MainSends, Poll([], clock)];
    SendBoth(host, steps);
    TwoAdded(clock);
    assert steps[1..][1..][1..] == [];
  }

  lemma SendBoth(host: Host, steps: seq<Step>)
    requires ValidHost(host) && |steps| == 3 && steps[0] == MainSends && steps[1] == MainSends
    ensures var sent := World(Loop(map[], map[], [ADD_LISTENER, ADD_STDIN], map[]), []);
            && Run(host, INITIAL, steps) == Run(host, sent, steps[2..])
            && (Legal(host, INITIAL, steps) <==> Legal(host, sent, steps[2..]))
  {
    hide ValidHost;
    assert steps[1..][1..] == steps[2..];
    assert [] + [ADD_LISTENER] + [ADD_STDIN] == [ADD_LISTENER, ADD_STDIN];
    assert INITIAL.startup[1..] == [ADD_STDIN] && INITIAL.startup[1..][1..] == [];
  }

  lemma TwoAdded(clock: nat -> Time)
    ensures Drain(Loop(map[], map[], [ADD_LISTENER, ADD_STDIN], map[]), clock, 0, [])
         == Loop(map[0 := Stdin(1), 1 := Listener(1)], map[0 := Readable, 1 := Readable], [], map[])
  {
    var first := Loop(map[], map[], [ADD_LISTENER, ADD_STDIN], map[]);
    var second := Loop(map[1 := Listener(1)], map[1 := Readable], [ADD_STDIN], map[]);
    var last := Loop(map[0 := Stdin(1), 1 := Listener(1)], map[0 := Readable, 1 := Readable], [], map[]);
    var none: seq<Command> := [];
    assert none + none == none;
    assert first.queue[1..] == second.queue && second.queue[1..] == last.queue;
    var listener, stdin := Listener(1), Stdin(1);
    assert map[][1 := listener] == map[1 := listener] && map[][1 := Readable] == map[1 := Readable];
    assert map[1 := listener][0 := stdin] == map[0 := stdin, 1 := listener];
    assert map[1 := Readable][0 := Readable] == map[0 := Readable, 1 := Readable];
    assert first.queue[0] == ADD_LISTENER && second.queue[0] == ADD_STDIN;
    assert ExecuteHead(first, clock(0)).0.sources == second.sources;
    assert ExecuteHead(first, clock(0)).0.interests == second.interests;
    assert ExecuteHead(first, clock(0)) == (second, none);
    assert ExecuteHead(second, clock(1)) == (last, none);
    assert Drain(last, clock, 2, none) == last;
    assert Drain(second, clock, 1, none) == Drain(last, clock, 2, none);
  }
}

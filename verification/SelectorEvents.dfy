/** The event phase keeps the loop sound, one event at a time. */
module SelectorEvents {
  import opened Text
  import opened Requests
  import opened Sequential
  import opened Selector
  import opened SelectorInvariant
  import opened SelectorCommands

  /** No command that closes the stream or changes its interest is waiting: its own state is all there is to it. */
  predicate Undisturbed(queue: seq<Command>, token: Token) {
    2 <= token ==>
      Respond(CloseSource(token)) !in queue && Respond(ModifyInterests(token, Writable)) !in queue
  }

  /** Commands that neither check a timeout nor add a source. */
  predicate Plain(commands: seq<Command>) {
    forall i | 0 <= i < |commands| :: commands[i].Respond? && !commands[i].response.NewSource?
  }

  // ---------- appending to the queue ----------

  lemma BornAppend(queue: seq<Command>, commands: seq<Command>, i: nat)
    requires BornAt(queue, i)
    ensures BornAt(queue + commands, i)
  {
    assert (queue + commands)[i..i + 2] == queue[i..i + 2];
  }

  lemma PlainPending(queue: seq<Command>, commands: seq<Command>, token: Token)
    requires Plain(commands)
    ensures Pending(token, queue + commands, []) == Pending(token, queue, [])
    ensures multiset(queue + commands)[ADD_LISTENER] == multiset(queue)[ADD_LISTENER]
    ensures multiset(queue + commands)[ADD_STDIN] == multiset(queue)[ADD_STDIN]
  {
    assert CheckTimeout(token) !in commands && ADD_LISTENER !in commands && ADD_STDIN !in commands;
    InMultiset(commands, CheckTimeout(token));
    InMultiset(commands, ADD_LISTENER);
    InMultiset(commands, ADD_STDIN);
  }

  /** What was queued still fits after commands are appended and one source `t` has been replaced or dropped. */
  lemma OldCommandsFit(loop: Loop, next: Loop, commands: seq<Command>, t: Token, high: Option<Token>,
                       high': Option<Token>)
    requires QueueFits(loop, [], high)
    requires next.queue == loop.queue + commands
    requires t in loop.sources && Undisturbed(loop.queue, t)
    requires forall x | x != t :: x in loop.sources <==> x in next.sources
    requires forall x | x != t && x in loop.sources :: next.sources[x] == loop.sources[x]
    requires forall x | x != t :: x in loop.retired <==> x in next.retired
    requires t in next.sources || t in next.retired
    requires forall x :: Below(x, high) ==> Below(x, high')
    ensures forall i | 0 <= i < |loop.queue| :: CommandFits(next, i, high')
  {
    hide BornAt, Pending;
    forall i | 0 <= i < |loop.queue|
      ensures CommandFits(next, i, high')
    {
      assert next.queue[i] == loop.queue[i];
      assert CommandFits(loop, i, high);
      if BornAt(loop.queue, i) {
        BornAppend(loop.queue, commands, i);
      }
    }
  }

  lemma StartupFitsAfter(loop: Loop, next: Loop, startup: seq<Command>, commands: seq<Command>)
    requires StartupFits(loop, startup)
    requires next.queue == loop.queue + commands
    requires ADD_LISTENER !in commands && ADD_STDIN !in commands
    requires next.sources.Keys <= loop.sources.Keys
    requires next.retired.Keys <= loop.retired.Keys + loop.sources.Keys
    ensures StartupFits(next, startup)
  {
    InMultiset(commands, ADD_LISTENER);
    InMultiset(commands, ADD_STDIN);
  }

  // ---------- streams ----------

  /** How one event moves a stream on, and the command it queues with it. */
  predicate Moves(token: Token, before: EventSource, after: EventSource, commands: seq<Command>)
    requires before.Stream? && after.Stream?
  {
    && after.acceptTime == before.acceptTime
    && (|| (commands == [] && before.state.Read? && after.state.Read? && Parsed(after.wire, after.state.request))
        || (commands == [Respond(CloseSource(token))] && before.state.Read? && after.state == Read(START)
            && Doomed(after))
        || (commands == [Respond(ModifyInterests(token, Writable))] && before.state.Read? && after.state.Write?)
        || (commands == [] && before.state.Write? && after.state.Write?)
        || (commands == [Respond(CloseSource(token))] && before.state.Write? && after.state.Close?))
  }

  lemma StreamKept(host: Host, loop: Loop, startup: seq<Command>, from: Time, t: Token, after: EventSource,
                   commands: seq<Command>)
    requires ValidHost(host) && Sound(host, loop, [], startup, from)
    requires t in loop.sources && loop.sources[t].Stream? && Undisturbed(loop.queue, t)
    requires after.Stream? && Truthful(host, after) && Moves(t, loop.sources[t], after, commands)
    ensures Sound(host, loop.(sources := loop.sources[t := after], queue := loop.queue + commands), [], startup, from)
  {
    hide ValidHost, Truthful, Parsed, CommandFits, StartupFits, SourceFits, StreamFits, Moves, RetiredFits;
    var next := loop.(sources := loop.sources[t := after], queue := loop.queue + commands);
    var high := High(loop, startup);
    assert SourceFits(host, t, loop.sources[t], loop.interests[t], loop.queue, [], from, high);
    assert Plain(commands) by { MovesArePlain(t, loop.sources[t], after, commands); }
    SourceIsStreamToken(host, t, loop, from, high);
    assert High(next, startup) == high;
    StreamSources(host, loop, startup, from, t, after, commands, high);
    StreamQueue(loop, from, t, after, commands, high);
    StartupFitsAfter(loop, next, startup, commands);
    assert RetiredFit(host, next, high);
  }

  lemma MovesArePlain(t: Token, before: EventSource, after: EventSource, commands: seq<Command>)
    requires before.Stream? && after.Stream? && Moves(t, before, after, commands)
    ensures Plain(commands)
  {
    hide Parsed;
  }

  lemma SourceIsStreamToken(host: Host, t: Token, loop: Loop, from: Time, high: Option<Token>)
    requires ValidHost(host) && loop.sources.Keys == loop.interests.Keys && t in loop.sources
    requires SourceFits(host, t, loop.sources[t], loop.interests[t], loop.queue, [], from, high)
    ensures loop.sources[t].Stream? <==> 2 <= t
    ensures loop.sources[t].Stream? ==> IsStreamToken(t, high)
  {
    hide StreamFits;
  }

  lemma StreamSources(host: Host, loop: Loop, startup: seq<Command>, from: Time, t: Token, after: EventSource,
                      commands: seq<Command>, high: Option<Token>)
    requires ValidHost(host) && loop.sources.Keys == loop.interests.Keys
    requires SourcesFit(host, loop, [], from, high)
    requires t in loop.sources && loop.sources[t].Stream? && Undisturbed(loop.queue, t)
    requires after.Stream? && Truthful(host, after) && Moves(t, loop.sources[t], after, commands)
    ensures SourcesFit(host, loop.(sources := loop.sources[t := after], queue := loop.queue + commands), [], from, high)
  {
    hide ValidHost, Truthful, Parsed, Pending;
    var next := loop.(sources := loop.sources[t := after], queue := loop.queue + commands);
    MovesArePlain(t, loop.sources[t], after, commands);
    forall x | x in next.sources
      ensures SourceFits(host, x, next.sources[x], next.interests[x], next.queue, [], from, high)
    {
      assert SourceFits(host, x, loop.sources[x], loop.interests[x], loop.queue, [], from, high);
      PlainPending(loop.queue, commands, x);
    }
  }

  lemma StreamQueue(loop: Loop, from: Time, t: Token, after: EventSource, commands: seq<Command>, high: Option<Token>)
    requires QueueFits(loop, [], high) && IsStreamToken(t, high)
    requires t in loop.sources && loop.sources[t].Stream? && Undisturbed(loop.queue, t)
    requires after.Stream? && Moves(t, loop.sources[t], after, commands)
    ensures QueueFits(loop.(sources := loop.sources[t := after], queue := loop.queue + commands), [], high)
  {
    hide Parsed, Pending, BornAt;
    var next := loop.(sources := loop.sources[t := after], queue := loop.queue + commands);
    MovesArePlain(t, loop.sources[t], after, commands);
    OldCommandsFit(loop, next, commands, t, high, high);
    forall i | 0 <= i < |next.queue|
      ensures CommandFits(next, i, high)
    {
      if i >= |loop.queue| {
        assert next.queue[i] == commands[i - |loop.queue|];
      }
    }
    forall token
      ensures Pending(token, next.queue, []) <= 1
    {
      assert Pending(token, loop.queue, []) <= 1;
      PlainPending(loop.queue, commands, token);
    }
  }

  // ---------- sources whose handler fails ----------

  /** A handler that fails drops its source as `last`. */
  lemma DroppedKeeps(host: Host, loop: Loop, startup: seq<Command>, from: Time, t: Token, last: EventSource)
    requires ValidHost(host) && Sound(host, loop, [], startup, from)
    requires t in loop.sources && Undisturbed(loop.queue, t)
    requires last.Stream? <==> loop.sources[t].Stream?
    requires last.Stream? ==> Truthful(host, last)
    ensures Sound(host, Retire(loop, t, last), [], startup, from)
  {
    hide ValidHost, Truthful, Parsed, CommandFits, StartupFits, StreamFits;
    var next := Retire(loop, t, last);
    var high, high' := High(loop, startup), High(next, startup);
    assert loop.queue + [] == loop.queue;
    assert SourceFits(host, t, loop.sources[t], loop.interests[t], loop.queue, [], from, high);
    DroppedHigh(loop, startup, t, last);
    assert QueueFits(next, [], high') by {
      OldCommandsFit(loop, next, [], t, high, high');
      assert forall token :: Pending(token, loop.queue, []) <= 1;
    }
    forall x | x in next.sources
      ensures SourceFits(host, x, next.sources[x], next.interests[x], next.queue, [], from, high')
    {
      assert SourceFits(host, x, loop.sources[x], loop.interests[x], loop.queue, [], from, high);
    }
    StartupFitsAfter(loop, next, startup, []);
    assert RetiredFit(host, next, high');
  }

  lemma DroppedHigh(loop: Loop, startup: seq<Command>, t: Token, last: EventSource)
    requires t in loop.sources
    requires QueueFits(loop, [], High(loop, startup)) && StartupFits(loop, startup)
    ensures forall token :: Below(token, High(loop, startup)) ==> Below(token, High(Retire(loop, t, last), startup))
  {
    hide BornAt, Pending, CommandFits;
    QueuedTokens(loop, [], High(loop, startup));
    assert ADD_LISTENER in loop.queue ==> LISTENER_TOKEN !in loop.sources;
  }

  // ---------- the listener ----------

  /** Accepting gives out the tokens above `counter` up to `last`, each with one birth. */
  predicate AreBirths(commands: seq<Command>, counter: Token, last: Token) {
    && counter <= last
    && forall i | 0 <= i < |commands| ::
         match commands[i]
         case CheckTimeout(t) => counter < t <= last
         case Respond(r) => r.NewSource? && counter < r.token <= last && BornAt(commands, i)
  }

  lemma {:induction false} AcceptAllBirths(counter: Token, accepts: seq<AcceptOutcome>)
    requires AcceptAll(counter, accepts).Some?
    ensures var (last, commands) := AcceptAll(counter, accepts).value;
            && AreBirths(commands, counter, last)
            && forall t :: multiset(commands)[CheckTimeout(t)] <= 1
    decreases |accepts|
  {
    if accepts == [] || !accepts[0].Accepted? {
    } else {
      AcceptAllBirths(counter + 1, accepts[1..]);
      var (last, rest) := AcceptAll(counter + 1, accepts[1..]).value;
      OneMoreBirth(counter, accepts[0].at, rest, last);
    }
  }

  lemma OneMoreBirth(counter: Token, at: Time, rest: seq<Command>, last: Token)
    requires AreBirths(rest, counter + 1, last)
    requires forall t :: multiset(rest)[CheckTimeout(t)] <= 1
    ensures AreBirths(Birth(counter + 1, at) + rest, counter, last)
    ensures forall t :: multiset(Birth(counter + 1, at) + rest)[CheckTimeout(t)] <= 1
  {
    hide BornAt;
    var birth := Birth(counter + 1, at);
    var commands := birth + rest;
    assert BornAt(commands, 0) by { BornFirst(counter + 1, at, rest); }
    forall i | 0 <= i < |rest|
      ensures BornAt(rest, i) ==> BornAt(commands, i + 2)
    {
      BornLater(birth, rest, i);
    }
    forall i | 0 <= i < |commands|
      ensures match commands[i]
              case CheckTimeout(t) => counter < t <= last
              case Respond(r) => r.NewSource? && counter < r.token <= last && BornAt(commands, i)
    {
      if i >= 2 {
        assert commands[i] == rest[i - 2];
      }
    }
    forall t
      ensures multiset(commands)[CheckTimeout(t)] <= 1
    {
      assert multiset(birth)[CheckTimeout(t)] == if t == counter + 1 then 1 else 0;
      InMultiset(rest, CheckTimeout(counter + 1));
      assert multiset(rest)[CheckTimeout(t)] <= 1;
    }
  }

  lemma BornFirst(t: Token, at: Time, rest: seq<Command>)
    ensures BornAt(Birth(t, at) + rest, 0)
  {
    assert (Birth(t, at) + rest)[0..2] == Birth(t, at);
  }

  lemma BornLater(birth: seq<Command>, rest: seq<Command>, i: nat)
    requires |birth| == 2 && i < |rest|
    ensures BornAt(rest, i) ==> BornAt(birth + rest, i + 2)
  {
    if BornAt(rest, i) {
      assert (birth + rest)[i + 2..i + 4] == rest[i..i + 2];
    }
  }

  lemma ListenerKept(host: Host, loop: Loop, startup: seq<Command>, from: Time, last: Token, commands: seq<Command>)
    requires ValidHost(host) && Sound(host, loop, [], startup, from)
    requires LISTENER_TOKEN in loop.sources && loop.sources[LISTENER_TOKEN].Listener?
    requires AreBirths(commands, loop.sources[LISTENER_TOKEN].counter, last)
    requires forall t :: multiset(commands)[CheckTimeout(t)] <= 1
    ensures var sources := loop.sources[LISTENER_TOKEN := Listener(last)];
            var next := loop.(sources := sources, queue := loop.queue + commands);
            Sound(host, next, [], startup, from)
  {
    hide ValidHost, Truthful, Parsed, CommandFits, StartupFits, SourceFits, RetiredFits, BornAt, AreBirths, QueueFits;
    var next := loop.(sources := loop.sources[LISTENER_TOKEN := Listener(last)], queue := loop.queue + commands);
    var high, high' := High(loop, startup), High(next, startup);
    assert high == Some(loop.sources[LISTENER_TOKEN].counter) && high' == Some(last);
    ListenerSources(host, loop, from, last, commands, high);
    assert high.value >= 1 by {
      assert SourceFits(host, 1, loop.sources[1], loop.interests[1], loop.queue, [], from, high);
      ListenerCounts(host, loop, from, high);
    }
    ListenerQueue(host, loop, startup, from, last, commands, high);
    BirthsAreStreams(commands, high.value, last);
    StartupFitsAfter(loop, next, startup, commands);
    assert next.sources.Keys == loop.sources.Keys;
    forall t | t in next.retired
      ensures RetiredFits(host, t, next.retired[t], high')
    {
      assert RetiredFits(host, t, loop.retired[t], high);
      RetiredBelow(host, t, loop.retired[t], high, high');
    }
  }

  lemma RetiredBelow(host: Host, t: Token, source: EventSource, high: Option<Token>, high': Option<Token>)
    requires ValidHost(host) && RetiredFits(host, t, source, high)
    requires high.Some? && high'.Some? && high.value <= high'.value
    ensures RetiredFits(host, t, source, high')
  {
    hide Truthful, ValidHost;
  }

  lemma ListenerCounts(host: Host, loop: Loop, from: Time, high: Option<Token>)
    requires ValidHost(host) && loop.sources.Keys == loop.interests.Keys
    requires LISTENER_TOKEN in loop.sources && loop.sources[LISTENER_TOKEN].Listener?
    requires SourceFits(host, 1, loop.sources[1], loop.interests[1], loop.queue, [], from, high)
    ensures loop.sources[LISTENER_TOKEN].counter >= 1 && loop.interests[LISTENER_TOKEN].Readable?
  {
    hide StreamFits, ValidHost;
  }

  lemma BirthsAreStreams(commands: seq<Command>, counter: Token, last: Token)
    requires AreBirths(commands, counter, last) && counter >= 1
    ensures ADD_LISTENER !in commands && ADD_STDIN !in commands && counter <= last
  {
    hide BornAt;
  }

  lemma ListenerSources(host: Host, loop: Loop, from: Time, last: Token, commands: seq<Command>, high: Option<Token>)
    requires ValidHost(host) && loop.sources.Keys == loop.interests.Keys
    requires SourcesFit(host, loop, [], from, high)
    requires LISTENER_TOKEN in loop.sources && loop.sources[LISTENER_TOKEN].Listener?
    requires high == Some(loop.sources[LISTENER_TOKEN].counter)
    requires AreBirths(commands, high.value, last)
    ensures SourcesFit(host, loop.(sources := loop.sources[LISTENER_TOKEN := Listener(last)],
                                   queue := loop.queue + commands), [], from, Some(last))
  {
    hide ValidHost, Truthful, Parsed, BornAt, Pending;
    var next := loop.(sources := loop.sources[LISTENER_TOKEN := Listener(last)], queue := loop.queue + commands);
    forall x | x in next.sources
      ensures SourceFits(host, x, next.sources[x], next.interests[x], next.queue, [], from, Some(last))
    {
      assert SourceFits(host, x, loop.sources[x], loop.interests[x], loop.queue, [], from, high);
      BirthsSpare(loop.queue, commands, high.value, last, x);
    }
  }

  /** The checks of the new streams are not checks of a stream that was there. */
  lemma BirthsSpare(queue: seq<Command>, commands: seq<Command>, counter: Token, last: Token, x: Token)
    requires AreBirths(commands, counter, last)
    ensures x <= counter ==> Pending(x, queue + commands, []) == Pending(x, queue, [])
  {
    hide BornAt;
    InMultiset(commands, CheckTimeout(x));
    assert x <= counter ==> CheckTimeout(x) !in commands;
  }

  lemma ListenerQueue(host: Host, loop: Loop, startup: seq<Command>, from: Time, last: Token, commands: seq<Command>,
                      high: Option<Token>)
    requires ValidHost(host) && Sound(host, loop, [], startup, from) && high == High(loop, startup)
    requires LISTENER_TOKEN in loop.sources && loop.sources[LISTENER_TOKEN].Listener?
    requires high == Some(loop.sources[LISTENER_TOKEN].counter) && high.value >= 1
    requires AreBirths(commands, high.value, last)
    requires forall t :: multiset(commands)[CheckTimeout(t)] <= 1
    ensures QueueFits(loop.(sources := loop.sources[LISTENER_TOKEN := Listener(last)], queue := loop.queue + commands),
                      [], Some(last))
  {
    hide ValidHost, Truthful, StreamFits, Pending, BornAt, StartupFits;
    var next := loop.(sources := loop.sources[LISTENER_TOKEN := Listener(last)], queue := loop.queue + commands);
    OldTokens(host, loop, startup, from);
    OldCommandsFit(loop, next, commands, LISTENER_TOKEN, high, Some(last));
    forall i | 0 <= i < |next.queue|
      ensures CommandFits(next, i, Some(last))
    {
      if i >= |loop.queue| {
        var j := i - |loop.queue|;
        assert next.queue[i] == commands[j];
        if commands[j].Respond? {
          BornShift(loop.queue, commands, j);
        }
      }
    }
    forall t
      ensures Pending(t, next.queue, []) <= 1
    {
      assert Pending(t, loop.queue, []) <= 1 && multiset(commands)[CheckTimeout(t)] <= 1;
      ChecksAddUp(loop, commands, high, t);
      BirthsSpare(loop.queue, commands, high.value, last, t);
    }
  }

  lemma BornShift(queue: seq<Command>, commands: seq<Command>, j: nat)
    requires BornAt(commands, j)
    ensures BornAt(queue + commands, |queue| + j)
  {
    assert (queue + commands)[|queue| + j..|queue| + j + 2] == commands[j..j + 2];
  }

  /** Every token in use or retired is at most the listener's counter, so the next one is new. */
  lemma OldTokens(host: Host, loop: Loop, startup: seq<Command>, from: Time)
    requires ValidHost(host) && Sound(host, loop, [], startup, from)
    requires High(loop, startup).Some? && High(loop, startup).value >= 1
    ensures forall t | t in loop.sources || t in loop.retired :: t <= High(loop, startup).value
  {
    hide ValidHost, Truthful, StreamFits, QueueFits, StartupFits;
    var high := High(loop, startup);
    forall t | t in loop.sources || t in loop.retired
      ensures t <= high.value
    {
      if t in loop.sources {
        assert SourceFits(host, t, loop.sources[t], loop.interests[t], loop.queue, [], from, high);
      } else {
        assert RetiredFits(host, t, loop.retired[t], high);
      }
    }
  }

  lemma ChecksAddUp(loop: Loop, commands: seq<Command>, high: Option<Token>, t: Token)
    requires QueueFits(loop, [], high) && high.Some?
    ensures t > high.value ==> Pending(t, loop.queue + commands, []) == multiset(commands)[CheckTimeout(t)]
  {
    hide BornAt;
    InMultiset(loop.queue, CheckTimeout(t));
    if CheckTimeout(t) in loop.queue {
      var i :| 0 <= i < |loop.queue| && loop.queue[i] == CheckTimeout(t);
      assert CommandFits(loop, i, high);
    }
  }

  // ---------- the console ----------

  lemma StdinKept(host: Host, loop: Loop, startup: seq<Command>, from: Time, commands: seq<Command>)
    requires ValidHost(host) && Sound(host, loop, [], startup, from)
    requires STDIN_TOKEN in loop.sources
    requires commands == [] || commands == [Respond(CloseSource(LISTENER_TOKEN))]
    ensures Sound(host, loop.(queue := loop.queue + commands), [], startup, from)
  {
    hide ValidHost, Truthful, Parsed, StartupFits, RetiredFits, BornAt, Pending;
    var next := loop.(queue := loop.queue + commands);
    var high := High(loop, startup);
    assert High(next, startup) == high;
    forall x | x in next.sources
      ensures SourceFits(host, x, next.sources[x], next.interests[x], next.queue, [], from, high)
    {
      assert SourceFits(host, x, loop.sources[x], loop.interests[x], loop.queue, [], from, high);
      PlainPending(loop.queue, commands, x);
    }
    OldCommandsFit(loop, next, commands, STDIN_TOKEN, high, high);
    forall token
      ensures Pending(token, next.queue, []) <= 1
    {
      assert Pending(token, loop.queue, []) <= 1;
      PlainPending(loop.queue, commands, token);
    }
    StartupFitsAfter(loop, next, startup, commands);
    assert RetiredFit(host, next, high);
  }
}

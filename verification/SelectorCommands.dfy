/** The command phase keeps the loop sound, one command at a time. */
module SelectorCommands {
  import opened Text
  import opened Requests
  import opened Sequential
  import opened Selector
  import opened SelectorInvariant

  function Tail(loop: Loop): Loop
    requires loop.queue != []
  {
    loop.(queue := loop.queue[1..])
  }

  // ---------- counting pending checks ----------

  /** Popping a command other than a token's check leaves its pending checks alone. */
  lemma PendingPopped(queue: seq<Command>, again: seq<Command>, token: Token)
    requires queue != []
    ensures Pending(token, queue[1..], again)
         == Pending(token, queue, again) - if queue[0] == CheckTimeout(token) then 1 else 0
  {
    Popped(queue);
  }

  /** A check moved from the queue to the commands queued again still counts. */
  lemma PendingMoved(queue: seq<Command>, again: seq<Command>, token: Token)
    requires queue != [] && queue[0].CheckTimeout?
    ensures Pending(token, queue[1..], again + [queue[0]]) == Pending(token, queue, again)
  {
    Popped(queue);
  }

  /** Once the checks of a stream's birth are at the front, no other copy waits behind. */
  lemma BornOnce(loop: Loop, again: seq<Command>, high: Option<Token>, i: nat, j: nat)
    requires QueueFits(loop, again, high)
    requires BornAt(loop.queue, i) && BornAt(loop.queue, j)
    requires loop.queue[i].response.token == loop.queue[j].response.token
    ensures i == j
  {
    var t := loop.queue[i].response.token;
    assert loop.queue[i + 1] == loop.queue[i..i + 2][1] == CheckTimeout(t);
    assert loop.queue[j + 1] == loop.queue[j..j + 2][1] == CheckTimeout(t);
    assert Pending(t, loop.queue, again) <= 1;
    if i < j {
      OccursTwice(loop.queue, i + 1, j + 1);
    } else if j < i {
      OccursTwice(loop.queue, j + 1, i + 1);
    }
  }

  lemma BornTail(queue: seq<Command>, i: nat)
    requires queue != [] && i + 1 < |queue|
    ensures BornAt(queue[1..], i) <==> BornAt(queue, i + 1)
  {
    if i + 2 < |queue| {
      assert queue[1..][i..i + 2] == queue[i + 1..i + 3];
    }
  }

  lemma InMultiset(queue: seq<Command>, c: Command)
    ensures c in queue <==> multiset(queue)[c] >= 1
  {
  }

  // ---------- frames ----------

  /** Tokens to be added are new; tokens whose interests change are not. */
  lemma QueuedTokens(loop: Loop, again: seq<Command>, high: Option<Token>)
    requires QueueFits(loop, again, high)
    ensures forall i | 0 <= i < |loop.queue| :: loop.queue[i].Respond? && loop.queue[i].response.NewSource? ==>
              loop.queue[i].response.token !in loop.sources && loop.queue[i].response.token !in loop.retired
    ensures forall i | 0 <= i < |loop.queue| :: loop.queue[i].Respond? && loop.queue[i].response.ModifyInterests? ==>
              loop.queue[i].response.token in loop.sources || loop.queue[i].response.token in loop.retired
    ensures forall i | 0 <= i < |loop.queue| :: loop.queue[i].Respond? && loop.queue[i].response.CloseSource? ==>
              loop.queue[i].response.token == LISTENER_TOKEN
              || loop.queue[i].response.token in loop.sources || loop.queue[i].response.token in loop.retired
  {
    hide BornAt, Pending;
    forall i | 0 <= i < |loop.queue| && loop.queue[i].Respond?
      ensures loop.queue[i].response.NewSource? ==>
                loop.queue[i].response.token !in loop.sources && loop.queue[i].response.token !in loop.retired
      ensures loop.queue[i].response.ModifyInterests? ==>
                loop.queue[i].response.token in loop.sources || loop.queue[i].response.token in loop.retired
      ensures loop.queue[i].response.CloseSource? ==>
                loop.queue[i].response.token == LISTENER_TOKEN
                || loop.queue[i].response.token in loop.sources || loop.queue[i].response.token in loop.retired
    {
      assert CommandFits(loop, i, high);
    }
  }

  /** The queue of `next` is the rest of `loop`'s, and no command in it lost what it relies on. */
  lemma QueueStillFits(loop: Loop, next: Loop, again: seq<Command>, high: Option<Token>, high': Option<Token>)
    requires loop.queue != [] && next.queue == loop.queue[1..]
    requires QueueFits(loop, again, high)
    requires forall t :: Below(t, high) ==> Below(t, high')
    requires forall t | t in loop.sources || t in loop.retired :: t in next.sources || t in next.retired
    requires forall t | t in next.sources && t in loop.sources :: next.sources[t] == loop.sources[t]
    requires forall i | 0 < i < |loop.queue| :: loop.queue[i].Respond? && loop.queue[i].response.NewSource? ==>
               loop.queue[i].response.token !in next.sources && loop.queue[i].response.token !in next.retired
    requires forall i | 0 < i < |loop.queue| :: loop.queue[i].Respond? && loop.queue[i].response.ModifyInterests? ==>
               loop.queue[i].response.token in next.sources ==> loop.queue[i].response.token in loop.sources
    requires forall i | 0 < i < |loop.queue| :: loop.queue[i].Respond? && loop.queue[i].response.CloseSource? ==>
               loop.queue[i].response.token == LISTENER_TOKEN
               || (loop.queue[i].response.token in next.sources ==> loop.queue[i].response.token in loop.sources)
    ensures QueueFits(next, again, high')
  {
    forall i | 0 <= i < |next.queue|
      ensures CommandFits(next, i, high')
    {
      assert next.queue[i] == loop.queue[i + 1];
      assert CommandFits(loop, i + 1, high);
      BornTail(loop.queue, i);
    }
    forall token
      ensures Pending(token, next.queue, again) <= 1
    {
      PendingPopped(loop.queue, again, token);
      assert Pending(token, loop.queue, again) <= 1;
    }
  }

  lemma StartupStillFits(loop: Loop, next: Loop, startup: seq<Command>)
    requires loop.queue != [] && next.queue == loop.queue[1..]
    requires StartupFits(loop, startup)
    requires ADD_LISTENER in startup ==> LISTENER_TOKEN !in next.sources && LISTENER_TOKEN !in next.retired
    requires ADD_STDIN in startup ==> STDIN_TOKEN !in next.sources && STDIN_TOKEN !in next.retired
    ensures StartupFits(next, startup)
  {
    Popped(loop.queue);
  }

  // ---------- checks that lapse or are repeated ----------

  lemma CheckKeeps(host: Host, loop: Loop, again: seq<Command>, more: seq<Command>, startup: seq<Command>, from: Time,
                   now: Time)
    requires ValidHost(host) && Sound(host, loop, again, startup, from) && from <= now
    requires loop.queue != [] && loop.queue[0].CheckTimeout?
    requires ExecuteHead(loop, now) == (Tail(loop), more)
    ensures Sound(host, Tail(loop), again + more, startup, from)
  {
    hide ValidHost, Truthful, Parsed, CommandFits, StartupFits, RetiredFits;
    var head, next := loop.queue[0], Tail(loop);
    var high := High(loop, startup);
    Popped(loop.queue);
    assert High(next, startup) == high;
    CheckOutcome(host, loop, again, startup, from, now);
    assert more == (if IsReading(loop, head.token) then [head] else []);
    CheckSources(host, loop, again, more, from, now, high);
    assert QueueFits(next, again + more, high) by {
      CheckQueue(loop, again, more, high);
    }
    assert StartupFits(next, startup) by {
      StartupUnmoved(loop, startup);
      StartupStillFits(loop, next, startup);
    }
  }

  lemma StartupUnmoved(loop: Loop, startup: seq<Command>)
    requires StartupFits(loop, startup)
    ensures ADD_LISTENER in startup ==> LISTENER_TOKEN !in loop.sources && LISTENER_TOKEN !in loop.retired
    ensures ADD_STDIN in startup ==> STDIN_TOKEN !in loop.sources && STDIN_TOKEN !in loop.retired
  {
  }

  predicate IsReading(loop: Loop, t: Token) {
    t in loop.sources && loop.sources[t].Stream? && loop.sources[t].state.Read?
  }

  /** A check closes its stream exactly when that is still reading and has reached the timeout by now, is repeated
      exactly when it is reading and has not, and otherwise lapses. */
  lemma CheckOutcome(host: Host, loop: Loop, again: seq<Command>, startup: seq<Command>, from: Time, now: Time)
    requires ValidHost(host) && Sound(host, loop, again, startup, from)
    requires loop.queue != [] && loop.queue[0].CheckTimeout?
    ensures var t := loop.queue[0].token;
            ExecuteHead(loop, now) ==
              (if !IsReading(loop, t) then (Tail(loop), [])
               else if loop.sources[t].acceptTime + STREAM_TIMEOUT <= now then
                 (Retire(Tail(loop), t, loop.sources[t]), [])
               else (Tail(loop), [loop.queue[0]]))
  {
    hide ValidHost, Truthful, QueueFits, RetiredFit, StartupFits, High, Pending;
    var t := loop.queue[0].token;
    if IsReading(loop, t) {
      assert SourceFits(host, t, loop.sources[t], loop.interests[t], loop.queue, again, from, High(loop, startup));
      assert !loop.sources[t].state.request.FullRequest?;
    }
  }

  lemma CheckSources(host: Host, loop: Loop, again: seq<Command>, more: seq<Command>, from: Time, now: Time,
                     high: Option<Token>)
    requires ValidHost(host)
    requires loop.queue != [] && loop.queue[0].CheckTimeout?
    requires loop.sources.Keys == loop.interests.Keys && SourcesFit(host, loop, again, from, high)
    requires var t := loop.queue[0].token;
             more == (if IsReading(loop, t) then [loop.queue[0]] else [])
             && (IsReading(loop, t) ==> from < loop.sources[t].acceptTime + STREAM_TIMEOUT)
    ensures SourcesFit(host, Tail(loop), again + more, from, high)
  {
    hide ValidHost, Truthful, Parsed, Pending;
    var queue := loop.queue;
    forall t | t in loop.sources
      ensures SourceFits(host, t, loop.sources[t], loop.interests[t], queue[1..], again + more, from, high)
    {
      assert SourceFits(host, t, loop.sources[t], loop.interests[t], queue, again, from, high);
      Popped(queue);
      if more == [] {
        assert again + more == again;
        PendingPopped(queue, again, t);
      } else {
        PendingMoved(queue, again, t);
      }
    }
  }

  lemma CheckQueue(loop: Loop, again: seq<Command>, more: seq<Command>, high: Option<Token>)
    requires loop.queue != [] && loop.queue[0].CheckTimeout?
    requires QueueFits(loop, again, high)
    requires more == [] || more == [loop.queue[0]]
    ensures QueueFits(Tail(loop), again + more, high)
  {
    hide BornAt, Pending;
    var next := Tail(loop);
    QueuedTokens(loop, again, high);
    QueueStillFits(loop, next, again, high, high);
    assert CommandFits(loop, 0, high);
    forall token
      ensures Pending(token, next.queue, again + more) <= 1
    {
      assert Pending(token, loop.queue, again) <= 1;
      PendingMoved(loop.queue, again, token);
      PendingPopped(loop.queue, again, token);
      assert again + [] == again;
    }
  }

  // ---------- sources that are added ----------

  lemma BirthKeeps(host: Host, loop: Loop, again: seq<Command>, startup: seq<Command>, from: Time, now: Time)
    requires ValidHost(host) && Sound(host, loop, again, startup, from)
    requires loop.queue != [] && loop.queue[0].Respond? && loop.queue[0].response.NewSource?
    ensures ExecuteHead(loop, now).1 == []
    ensures Sound(host, ExecuteHead(loop, now).0, again, startup, from)
  {
    hide ValidHost, Truthful, Parsed, CommandFits, StartupFits, RetiredFits, SourceFits, QueueFits;
    var head, next := loop.queue[0], ExecuteHead(loop, now).0;
    var high := High(loop, startup);
    var t := head.response.token;
    Popped(loop.queue);
    NewcomerIsFresh(loop, again, startup, high);
    assert High(next, startup) == high;
    BirthSources(host, loop, again, from, now, high);
    BirthQueue(loop, again, startup, now, high);
    StartupStillFits(loop, next, startup) by { StartupUnmoved(loop, startup); }
  }

  /** A source that is about to be added takes a token no source has or had, and no later command adds it again. */
  lemma NewcomerIsFresh(loop: Loop, again: seq<Command>, startup: seq<Command>, high: Option<Token>)
    requires loop.queue != [] && loop.queue[0].Respond? && loop.queue[0].response.NewSource?
    requires QueueFits(loop, again, high) && StartupFits(loop, startup)
    ensures var head := loop.queue[0];
            var t := head.response.token;
            && t !in loop.sources && t !in loop.retired
            && (head == ADD_LISTENER || head == ADD_STDIN || (IsStreamToken(t, high) && BornAt(loop.queue, 0)))
            && (t == LISTENER_TOKEN ==> head == ADD_LISTENER && ADD_LISTENER !in startup)
            && (t == STDIN_TOKEN ==> head == ADD_STDIN && ADD_STDIN !in startup)
    ensures forall i | 0 < i < |loop.queue| :: loop.queue[i].Respond? && loop.queue[i].response.NewSource? ==>
              loop.queue[i].response.token != loop.queue[0].response.token
  {
    hide BornAt, Pending;
    var queue := loop.queue;
    assert CommandFits(loop, 0, high);
    Occurs(queue, 0);
    forall i | 0 < i < |queue| && queue[i].Respond? && queue[i].response.NewSource?
      ensures queue[i].response.token != queue[0].response.token
    {
      assert CommandFits(loop, i, high);
      if queue[i] == queue[0] {
        OccursTwice(queue, 0, i);
      }
      if BornAt(queue, 0) && BornAt(queue, i) && queue[i].response.token == queue[0].response.token {
        BornOnce(loop, again, high, 0, i);
      }
    }
  }

  lemma BirthQueue(loop: Loop, again: seq<Command>, startup: seq<Command>, now: Time, high: Option<Token>)
    requires loop.queue != [] && loop.queue[0].Respond? && loop.queue[0].response.NewSource?
    requires QueueFits(loop, again, high) && StartupFits(loop, startup)
    ensures QueueFits(ExecuteHead(loop, now).0, again, high)
  {
    hide BornAt, Pending, StartupFits;
    NewcomerIsFresh(loop, again, startup, high);
    QueuedTokens(loop, again, high);
    QueueStillFits(loop, ExecuteHead(loop, now).0, again, high, high);
  }

  lemma BirthSources(host: Host, loop: Loop, again: seq<Command>, from: Time, now: Time, high: Option<Token>)
    requires ValidHost(host)
    requires loop.queue != [] && loop.queue[0].Respond? && loop.queue[0].response.NewSource?
    requires loop.sources.Keys == loop.interests.Keys && SourcesFit(host, loop, again, from, high)
    requires QueueFits(loop, again, high)
    ensures var next := ExecuteHead(loop, now).0;
            next.sources.Keys == next.interests.Keys && SourcesFit(host, next, again, from, high)
  {
    hide ValidHost, Truthful, Parsed, Pending, BornAt, QueueFits;
    var queue, next := loop.queue, ExecuteHead(loop, now).0;
    var newcomer := queue[0].response.token;
    assert CommandFits(loop, 0, high) by { HeadFits(loop, again, high); }
    Popped(queue);
    forall t | t in next.sources
      ensures SourceFits(host, t, next.sources[t], next.interests[t], next.queue, again, from, high)
    {
      if t != newcomer {
        assert SourceFits(host, t, loop.sources[t], loop.interests[t], queue, again, from, high);
        PendingPopped(queue, again, t);
      } else if queue[0] != ADD_LISTENER && queue[0] != ADD_STDIN {
        NewbornFits(host, loop, again, from, high);
      }
    }
  }

  lemma HeadFits(loop: Loop, again: seq<Command>, high: Option<Token>)
    requires loop.queue != [] && QueueFits(loop, again, high)
    ensures CommandFits(loop, 0, high)
  {
  }

  lemma NewbornFits(host: Host, loop: Loop, again: seq<Command>, from: Time, high: Option<Token>)
    requires ValidHost(host) && QueueFits(loop, again, high)
    requires BornAt(loop.queue, 0) && IsStreamToken(loop.queue[0].response.token, high)
    ensures var born := loop.queue[0].response;
            SourceFits(host, born.token, born.source, born.interest, loop.queue[1..], again, from, high)
  {
    hide ValidHost, TryParse, Stored, CommandFits;
    var born := loop.queue[0].response;
    var tail := loop.queue[1..];
    var check := CheckTimeout(born.token);
    var birth := Birth(born.token, born.source.acceptTime);
    assert loop.queue[0] == loop.queue[0..2][0] == birth[0];
    assert tail[0] == loop.queue[0..2][1] == birth[1];
    Occurs(tail, 0);
    PendingPopped(loop.queue, again, born.token);
    assert Pending(born.token, loop.queue, again) <= 1;
    InMultiset(again, check);
    assert Parsed(NEW_WIRE, START) by {
      StartIsStored();
      StoredIsStuck(START);
    }
  }

  // ---------- interests that are modified ----------

  lemma ModifyKeeps(host: Host, loop: Loop, again: seq<Command>, startup: seq<Command>, from: Time, now: Time)
    requires ValidHost(host) && Sound(host, loop, again, startup, from)
    requires loop.queue != [] && loop.queue[0].Respond? && loop.queue[0].response.ModifyInterests?
    ensures ExecuteHead(loop, now).1 == []
    ensures Sound(host, ExecuteHead(loop, now).0, again, startup, from)
  {
    hide ValidHost, Truthful, Parsed, CommandFits, StartupFits, RetiredFits, SourceFits, QueueFits;
    var head, next := loop.queue[0], ExecuteHead(loop, now).0;
    var high := High(loop, startup);
    Popped(loop.queue);
    assert next.sources == loop.sources && next.retired == loop.retired;
    assert High(next, startup) == high;
    ModifySources(host, loop, again, from, now, high);
    UnchangedQueue(loop, next, again, high);
    StartupStillFits(loop, next, startup) by { StartupUnmoved(loop, startup); }
  }

  lemma UnchangedQueue(loop: Loop, next: Loop, again: seq<Command>, high: Option<Token>)
    requires loop.queue != [] && next.queue == loop.queue[1..]
    requires next.sources == loop.sources && next.retired == loop.retired
    requires QueueFits(loop, again, high)
    ensures QueueFits(next, again, high)
  {
    hide BornAt, Pending;
    QueuedTokens(loop, again, high);
    QueueStillFits(loop, next, again, high, high);
  }

  lemma ModifySources(host: Host, loop: Loop, again: seq<Command>, from: Time, now: Time, high: Option<Token>)
    requires ValidHost(host)
    requires loop.queue != [] && loop.queue[0].Respond? && loop.queue[0].response.ModifyInterests?
    requires loop.sources.Keys == loop.interests.Keys && SourcesFit(host, loop, again, from, high)
    requires QueueFits(loop, again, high)
    ensures var next := ExecuteHead(loop, now).0;
            next.sources.Keys == next.interests.Keys && SourcesFit(host, next, again, from, high)
  {
    hide ValidHost, Truthful, Parsed, Pending, QueueFits;
    var queue, next := loop.queue, ExecuteHead(loop, now).0;
    assert CommandFits(loop, 0, high) by { HeadFits(loop, again, high); }
    Popped(queue);
    assert next.sources == loop.sources;
    assert next.sources.Keys == next.interests.Keys;
    forall t | t in next.sources
      ensures SourceFits(host, t, next.sources[t], next.interests[t], next.queue, again, from, high)
    {
      assert SourceFits(host, t, loop.sources[t], loop.interests[t], queue, again, from, high);
      PendingPopped(queue, again, t);
    }
  }

  // ---------- sources that are closed ----------

  /** Closing the source of the head command, be it asked for or timed out. */
  lemma RetireKeeps(host: Host, loop: Loop, again: seq<Command>, startup: seq<Command>, from: Time, t: Token)
    requires ValidHost(host) && Sound(host, loop, again, startup, from)
    requires loop.queue != [] && t in loop.sources
    requires loop.queue[0] == CheckTimeout(t) || loop.queue[0] == Respond(CloseSource(t))
    ensures Sound(host, Retire(Tail(loop), t, loop.sources[t]), again, startup, from)
  {
    hide ValidHost, Truthful, Parsed, CommandFits, StartupFits, QueueFits, StreamFits;
    var next := Retire(Tail(loop), t, loop.sources[t]);
    var high, high' := High(loop, startup), High(next, startup);
    Popped(loop.queue);
    RetireHigh(loop, again, startup, t);
    RetireQueue(loop, again, t, high, high');
    RetireSources(host, loop, again, from, t, high, high');
    assert SourceFits(host, t, loop.sources[t], loop.interests[t], loop.queue, again, from, high);
    assert RetiredFits(host, t, loop.sources[t], high') by { StreamIsTruthful(host, loop, again, from, t, high); }
    assert RetiredFit(host, next, high');
    StartupStillFits(loop, next, startup) by { StartupUnmoved(loop, startup); }
  }

  lemma StreamIsTruthful(host: Host, loop: Loop, again: seq<Command>, from: Time, t: Token, high: Option<Token>)
    requires ValidHost(host) && loop.sources.Keys == loop.interests.Keys && t in loop.sources
    requires SourceFits(host, t, loop.sources[t], loop.interests[t], loop.queue, again, from, high)
    ensures loop.sources[t].Stream? ==> Truthful(host, loop.sources[t])
  {
  }

  lemma RetireHigh(loop: Loop, again: seq<Command>, startup: seq<Command>, t: Token)
    requires loop.queue != [] && t in loop.sources
    requires QueueFits(loop, again, High(loop, startup)) && StartupFits(loop, startup)
    requires loop.queue[0].CheckTimeout? || loop.queue[0].response.CloseSource?
    ensures var high' := High(Retire(Tail(loop), t, loop.sources[t]), startup);
            forall token :: Below(token, High(loop, startup)) ==> Below(token, high')
  {
    hide BornAt, Pending;
    Popped(loop.queue);
    QueuedTokens(loop, again, High(loop, startup));
    assert ADD_LISTENER in loop.queue ==> LISTENER_TOKEN !in loop.sources;
  }

  lemma RetireQueue(loop: Loop, again: seq<Command>, t: Token, high: Option<Token>, high': Option<Token>)
    requires loop.queue != [] && t in loop.sources
    requires forall token :: Below(token, high) ==> Below(token, high')
    requires QueueFits(loop, again, high)
    ensures QueueFits(Retire(Tail(loop), t, loop.sources[t]), again, high')
  {
    hide BornAt, Pending;
    var next := Retire(Tail(loop), t, loop.sources[t]);
    QueuedTokens(loop, again, high);
    QueueStillFits(loop, next, again, high, high');
  }

  lemma RetireSources(host: Host, loop: Loop, again: seq<Command>, from: Time, t: Token, high: Option<Token>,
                      high': Option<Token>)
    requires ValidHost(host)
    requires loop.queue != [] && t in loop.sources
    requires loop.queue[0] == CheckTimeout(t) || loop.queue[0] == Respond(CloseSource(t))
    requires loop.sources.Keys == loop.interests.Keys && SourcesFit(host, loop, again, from, high)
    requires forall token :: Below(token, high) ==> Below(token, high')
    ensures var next := Retire(Tail(loop), t, loop.sources[t]);
            next.sources.Keys == next.interests.Keys && SourcesFit(host, next, again, from, high')
  {
    hide ValidHost, Truthful, Parsed, Pending;
    var queue, next := loop.queue, Retire(Tail(loop), t, loop.sources[t]);
    Popped(queue);
    assert next.sources.Keys == next.interests.Keys;
    forall other | other in next.sources
      ensures SourceFits(host, other, next.sources[other], next.interests[other], next.queue, again, from, high')
    {
      assert SourceFits(host, other, loop.sources[other], loop.interests[other], queue, again, from, high);
      PendingPopped(queue, again, other);
    }
  }

  // ---------- the whole phase ----------

  lemma CommandKeeps(host: Host, loop: Loop, again: seq<Command>, startup: seq<Command>, from: Time, now: Time)
    requires ValidHost(host) && Sound(host, loop, again, startup, from) && from <= now
    requires loop.queue != []
    ensures var (next, more) := ExecuteHead(loop, now);
            next.queue == loop.queue[1..] && Sound(host, next, again + more, startup, from)
  {
    hide ValidHost, Sound, CheckStreamTimeout;
    var (next, more) := ExecuteHead(loop, now);
    assert again + [] == again;
    match loop.queue[0]
    case CheckTimeout(t) =>
      CheckCases(loop, t, now);
      if next == Tail(loop) {
        CheckKeeps(host, loop, again, more, startup, from, now);
      } else {
        RetireKeeps(host, loop, again, startup, from, t);
      }
    case Respond(NewSource(_, _, _)) => BirthKeeps(host, loop, again, startup, from, now);
    case Respond(ModifyInterests(_, _)) => ModifyKeeps(host, loop, again, startup, from, now);
    case Respond(CloseSource(t)) =>
      if t in loop.sources {
        RetireKeeps(host, loop, again, startup, from, t);
      } else {
        CloseMissing(host, loop, again, startup, from, t);
      }
    case Respond(SubmitCommand(_)) =>
      NothingSubmitted(host, loop, again, startup, from);
  }

  lemma CheckCases(loop: Loop, t: Token, now: Time)
    requires loop.queue != [] && loop.queue[0] == CheckTimeout(t)
    ensures var (next, more) := ExecuteHead(loop, now);
            next == Tail(loop)
            || (t in loop.sources && next == Retire(Tail(loop), t, loop.sources[t]) && more == [])
  {
  }

  lemma NothingSubmitted(host: Host, loop: Loop, again: seq<Command>, startup: seq<Command>, from: Time)
    requires ValidHost(host) && Sound(host, loop, again, startup, from)
    requires loop.queue != []
    ensures !(loop.queue[0].Respond? && loop.queue[0].response.SubmitCommand?)
  {
    hide ValidHost, BornAt, Pending, SourcesFit, RetiredFit, StartupFits;
    HeadFits(loop, again, High(loop, startup));
  }

  lemma CloseMissing(host: Host, loop: Loop, again: seq<Command>, startup: seq<Command>, from: Time, t: Token)
    requires ValidHost(host) && Sound(host, loop, again, startup, from)
    requires loop.queue != [] && loop.queue[0] == Respond(CloseSource(t)) && t !in loop.sources
    ensures Sound(host, Tail(loop), again, startup, from)
  {
    hide ValidHost, Truthful, Parsed, CommandFits, StartupFits, RetiredFits, QueueFits, Pending;
    var next := Tail(loop);
    var high := High(loop, startup);
    Popped(loop.queue);
    assert High(next, startup) == high;
    forall other | other in next.sources
      ensures SourceFits(host, other, next.sources[other], next.interests[other], next.queue, again, from, high)
    {
      assert SourceFits(host, other, loop.sources[other], loop.interests[other], loop.queue, again, from, high);
      PendingPopped(loop.queue, again, other);
    }
    UnchangedQueue(loop, next, again, high);
    StartupStillFits(loop, next, startup) by { StartupUnmoved(loop, startup); }
  }

  /** After the phase the queue holds only checks, and no reading stream is older than the timeout allows. */
  lemma {:induction false} DrainKeeps(host: Host, loop: Loop, clock: nat -> Time, k: nat, again: seq<Command>,
                                      startup: seq<Command>, from: Time)
    requires ValidHost(host) && Sound(host, loop, again, startup, from)
    requires forall i: nat :: from <= clock(i)
    ensures var end := Drain(loop, clock, k, again);
            Sound(host, end.(queue := []), end.queue, startup, from)
    decreases |loop.queue|
  {
    hide ValidHost, Sound, ExecuteHead;
    if loop.queue != [] {
      var (next, more) := ExecuteHead(loop, clock(k));
      CommandKeeps(host, loop, again, startup, from, clock(k));
      DrainKeeps(host, next, clock, k + 1, again + more, startup, from);
    } else {
      assert Drain(loop, clock, k, again).(queue := []) == loop;
    }
  }
}

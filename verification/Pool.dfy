/** The thread pool of src/pool.rs and its dispatcher in src/main.rs: workers announce their numbers on one channel,
    the dispatcher takes a number for each connection, drains and refills the channel to see whether other workers
    are ready, and sends the connection to the worker's own channel. Every channel operation is one step, and steps
    of workers and dispatcher interleave freely. */
module Pool {
  import opened Text

  /** A worker is about to announce itself, waits for a connection, or serves one. */
  datatype Worker = Announcing | Waiting | Working(overloaded: bool)

  /** Where the dispatcher is with the connection it got, or failed to get, from the listener. */
  datatype Dispatcher =
    | Accepting
    | Receiving(accepted: bool)
    | Draining(accepted: bool, hand: nat, drained: seq<nat>)
    | Refilling(accepted: bool, hand: nat, left: seq<nat>, overloaded: bool)
    | Delivering(accepted: bool, hand: nat, overloaded: bool)

  /** `ready` and `inboxes` are the channels; an inbox holds the load flag sent with each connection. `lost` are the
      numbers whose connection could not be accepted, `failures` counts failed accepts, and `outOfBounds` records
      that a number had no thread. */
  datatype State = State(
    workers: seq<Worker>, ready: seq<nat>, inboxes: seq<seq<bool>>, dispatcher: Dispatcher,
    lost: seq<nat>, failures: nat, outOfBounds: bool)

  datatype Action =
    | Announce(worker: nat) | TakeJob(worker: nat) | Finish(worker: nat)
    | Accept(ok: bool) | Receive | DrainOne | DrainEnd | RefillOne | RefillEnd | Deliver

  predicate IsWorkerAction(action: Action) {
    action.Announce? || action.TakeJob? || action.Finish?
  }

  // ---------- steps ----------

  function WorkerStep(s: State, action: Action): Option<State>
    requires IsWorkerAction(action)
  {
    var w := action.worker;
    if w >= |s.workers| || w >= |s.inboxes| then None
    else
      match action
      case Announce(_) =>
        if !s.workers[w].Announcing? then None
        else Some(s.(workers := s.workers[w := Waiting], ready := s.ready + [w]))
      case TakeJob(_) =>
        if !s.workers[w].Waiting? || s.inboxes[w] == [] then None
        else Some(s.(workers := s.workers[w := Working(s.inboxes[w][0])],
                     inboxes := s.inboxes[w := s.inboxes[w][1..]]))
      case Finish(_) =>
        if !s.workers[w].Working? then None else Some(s.(workers := s.workers[w := Announcing]))
  }

  function DispatcherStep(s: State, action: Action): Option<State>
    requires !IsWorkerAction(action)
  {
    match (action, s.dispatcher)
    case (Accept(ok), Accepting) =>
      Some(s.(dispatcher := Receiving(ok), failures := if ok then s.failures else s.failures + 1))
    case (Receive, Receiving(accepted)) =>
      if s.ready == [] then None
      else Some(s.(dispatcher := Draining(accepted, s.ready[0], []), ready := s.ready[1..]))
    case (DrainOne, Draining(accepted, hand, drained)) =>
      if s.ready == [] then None
      else Some(s.(dispatcher := Draining(accepted, hand, drained + [s.ready[0]]), ready := s.ready[1..]))
    case (DrainEnd, Draining(accepted, hand, drained)) =>
      if s.ready != [] then None
      else Some(s.(dispatcher := Refilling(accepted, hand, drained, drained == [])))
    case (RefillOne, Refilling(accepted, hand, left, overloaded)) =>
      if left == [] then None
      else Some(s.(dispatcher := Refilling(accepted, hand, left[1..], overloaded), ready := s.ready + [left[0]]))
    case (RefillEnd, Refilling(accepted, hand, left, overloaded)) =>
      if left != [] then None else Some(s.(dispatcher := Delivering(accepted, hand, overloaded)))
    case (Deliver, Delivering(accepted, hand, overloaded)) =>
      if hand >= |s.workers| || hand >= |s.inboxes| then Some(s.(dispatcher := Accepting, outOfBounds := true))
      else if !accepted then Some(s.(dispatcher := Accepting, lost := s.lost + [hand]))
      else Some(s.(dispatcher := Accepting, inboxes := s.inboxes[hand := s.inboxes[hand] + [overloaded]]))
    case _ => None
  }

  /** One step of a worker or of the dispatcher; None if it cannot be taken now. */
  function Step(s: State, action: Action): Option<State> {
    if IsWorkerAction(action) then WorkerStep(s, action) else DispatcherStep(s, action)
  }

  function Run(s: State, actions: seq<Action>): Option<State>
    decreases |actions|
  {
    if actions == [] then Some(s)
    else
      match Step(s, actions[0])
      case None => None
      case Some(next) => Run(next, actions[1..])
  }

  /** `n` workers that have not announced themselves yet. */
  function Spawned(n: nat): State {
    State(seq(n, _ => Announcing), [], seq(n, _ => []), Accepting, [], 0, false)
  }

  // ---------- the invariant ----------

  function InHand(d: Dispatcher): seq<nat> {
    match d
    case Draining(_, hand, drained) => [hand] + drained
    case Refilling(_, hand, left, _) => [hand] + left
    case Delivering(_, hand, _) => [hand]
    case _ => []
  }

  function InInbox(s: State, w: nat): nat {
    if w < |s.inboxes| then |s.inboxes[w]| else 0
  }

  /** In how many places worker `w` is accounted for: its number on the ready channel, with the dispatcher, or lost,
      or a connection in its inbox. */
  function Accounted(s: State, w: nat): nat {
    multiset(s.ready)[w] + multiset(InHand(s.dispatcher))[w] + InInbox(s, w) + multiset(s.lost)[w]
  }

  predicate IsWaiting(s: State, w: nat) {
    w < |s.workers| && s.workers[w].Waiting?
  }

  /** What the load flag promises while the dispatcher carries it. */
  predicate FlagHolds(s: State) {
    match s.dispatcher
    case Refilling(_, _, left, overloaded) => overloaded || left != [] || s.ready != []
    case Delivering(_, _, overloaded) => overloaded || s.ready != []
    case _ => true
  }

  predicate HoldsFailure(d: Dispatcher) {
    !d.Accepting? && !d.accepted
  }

  ghost predicate Conserved(s: State) {
    && |s.inboxes| == |s.workers|
    && !s.outOfBounds
    && (forall w: nat :: Accounted(s, w) == if IsWaiting(s, w) then 1 else 0)
    && FlagHolds(s)
    && |s.lost| + (if HoldsFailure(s.dispatcher) then 1 else 0) == s.failures
  }

  lemma SpawnedConserved(n: nat)
    ensures Conserved(Spawned(n))
  {
  }

  lemma Popped(q: seq<nat>)
    requires q != []
    ensures multiset(q) == multiset{q[0]} + multiset(q[1..])
  {
    assert q == [q[0]] + q[1..];
  }

  /** It is enough that every worker is accounted for as before, or exactly one is not and has changed its mind. */
  lemma ConservedAgain(s: State, next: State)
    requires |next.inboxes| == |next.workers| && !next.outOfBounds && FlagHolds(next)
    requires |next.lost| + (if HoldsFailure(next.dispatcher) then 1 else 0) == next.failures
    requires Conserved(s)
    requires forall w: nat :: Accounted(s, w) == (if IsWaiting(s, w) then 1 else 0) ==>
               Accounted(next, w) == if IsWaiting(next, w) then 1 else 0
    ensures Conserved(next)
  {
    hide Accounted, IsWaiting, FlagHolds, HoldsFailure;
  }

  /** A worker that waits is accounted for in exactly one place and any other in none, whatever step is taken. */
  lemma WorkerStepConserves(s: State, action: Action)
    requires Conserved(s) && IsWorkerAction(action) && WorkerStep(s, action).Some?
    ensures Conserved(WorkerStep(s, action).value)
  {
    hide Conserved;
    var w := action.worker;
    var next := WorkerStep(s, action).value;
    assert |s.inboxes| == |s.workers| by { ShapeOf(s); }
    match action
    case Announce(_) => Announced(s, w);
    case TakeJob(_) => JobTaken(s, w);
    case Finish(_) => JobFinished(s, w);
  }

  lemma ShapeOf(s: State)
    requires Conserved(s)
    ensures |s.inboxes| == |s.workers| && !s.outOfBounds && FlagHolds(s)
    ensures |s.lost| + (if HoldsFailure(s.dispatcher) then 1 else 0) == s.failures
  {
  }

  lemma Announced(s: State, w: nat)
    requires Conserved(s) && w < |s.workers| && s.workers[w].Announcing?
    ensures Conserved(s.(workers := s.workers[w := Waiting], ready := s.ready + [w]))
  {
    var next := s.(workers := s.workers[w := Waiting], ready := s.ready + [w]);
    assert Accounted(s, w) == 0;
    ConservedAgain(s, next);
  }

  lemma JobTaken(s: State, w: nat)
    requires Conserved(s) && w < |s.workers| && s.workers[w].Waiting? && s.inboxes[w] != []
    ensures Conserved(s.(workers := s.workers[w := Working(s.inboxes[w][0])],
                         inboxes := s.inboxes[w := s.inboxes[w][1..]]))
  {
    var next := s.(workers := s.workers[w := Working(s.inboxes[w][0])], inboxes := s.inboxes[w := s.inboxes[w][1..]]);
    assert Accounted(s, w) == 1;
    ConservedAgain(s, next);
  }

  lemma JobFinished(s: State, w: nat)
    requires Conserved(s) && w < |s.workers| && s.workers[w].Working?
    ensures Conserved(s.(workers := s.workers[w := Announcing]))
  {
    assert Accounted(s, w) == 0;
    ConservedAgain(s, s.(workers := s.workers[w := Announcing]));
  }

  lemma DispatcherStepConserves(s: State, action: Action)
    requires Conserved(s) && !IsWorkerAction(action) && DispatcherStep(s, action).Some?
    ensures Conserved(DispatcherStep(s, action).value)
  {
    hide Conserved, Accounted;
    var next := DispatcherStep(s, action).value;
    ShapeOf(s);
    match action
    case Receive => NumberTaken(s, next);
    case DrainOne => NumberTaken(s, next);
    case RefillOne => NumberReturned(s, next);
    case Deliver => NumberUsed(s);
    case _ => NumbersStay(s, next);
  }

  lemma NumberTaken(s: State, next: State)
    requires Conserved(s) && s.ready != [] && FlagHolds(next)
    requires InHand(next.dispatcher) == InHand(s.dispatcher) + [s.ready[0]]
    requires HoldsFailure(next.dispatcher) == HoldsFailure(s.dispatcher)
    requires next == s.(ready := s.ready[1..], dispatcher := next.dispatcher)
    ensures Conserved(next)
  {
    hide FlagHolds, HoldsFailure, InHand;
    Popped(s.ready);
    ConservedAgain(s, next);
  }

  lemma NumberReturned(s: State, next: State)
    requires Conserved(s) && s.dispatcher.Refilling? && s.dispatcher.left != []
    requires next == s.(ready := s.ready + [s.dispatcher.left[0]],
                        dispatcher := s.dispatcher.(left := s.dispatcher.left[1..]))
    ensures Conserved(next)
  {
    Popped(s.dispatcher.left);
    ConservedAgain(s, next);
  }

  lemma NumberUsed(s: State)
    requires Conserved(s) && DispatcherStep(s, Deliver).Some?
    ensures Conserved(DispatcherStep(s, Deliver).value)
  {
    HandIsWaiting(s);
    var hand := s.dispatcher.hand;
    if s.dispatcher.accepted {
      NumberServed(s, hand);
    } else {
      NumberLost(s, hand);
    }
  }

  lemma NumberServed(s: State, hand: nat)
    requires Conserved(s) && s.dispatcher.Delivering? && s.dispatcher.hand == hand && s.dispatcher.accepted
    requires hand < |s.workers|
    ensures Conserved(s.(dispatcher := Accepting,
                         inboxes := s.inboxes[hand := s.inboxes[hand] + [s.dispatcher.overloaded]]))
  {
    ConservedAgain(s, s.(dispatcher := Accepting,
                         inboxes := s.inboxes[hand := s.inboxes[hand] + [s.dispatcher.overloaded]]));
  }

  lemma NumberLost(s: State, hand: nat)
    requires Conserved(s) && s.dispatcher.Delivering? && s.dispatcher.hand == hand && !s.dispatcher.accepted
    ensures Conserved(s.(dispatcher := Accepting, lost := s.lost + [hand]))
  {
    ConservedAgain(s, s.(dispatcher := Accepting, lost := s.lost + [hand]));
  }

  lemma NumbersStay(s: State, next: State)
    requires Conserved(s) && FlagHolds(next)
    requires next == s.(dispatcher := next.dispatcher, failures := next.failures)
    requires InHand(next.dispatcher) == InHand(s.dispatcher)
    requires |s.lost| + (if HoldsFailure(next.dispatcher) then 1 else 0) == next.failures
    ensures Conserved(next)
  {
    hide FlagHolds, HoldsFailure, InHand;
    ConservedAgain(s, next);
  }

  lemma HeadCounts(q: seq<nat>)
    ensures q != [] ==> multiset(q)[q[0]] >= 1
  {
    if q != [] {
      assert q[0] in q;
    }
  }

  /** The number the dispatcher holds is that of a waiting worker whose inbox is empty. */
  lemma HandIsWaiting(s: State)
    requires Conserved(s)
    ensures InHand(s.dispatcher) != [] ==>
              var hand := s.dispatcher.hand;
              hand < |s.workers| && s.workers[hand].Waiting? && s.inboxes[hand] == []
              && hand !in s.ready
  {
    if InHand(s.dispatcher) != [] {
      var hand := s.dispatcher.hand;
      assert hand in InHand(s.dispatcher);
      assert multiset(InHand(s.dispatcher))[hand] >= 1;
      assert Accounted(s, hand) == if IsWaiting(s, hand) then 1 else 0;
    }
  }

  lemma {:induction false} RunConserves(s: State, actions: seq<Action>)
    requires Conserved(s) && Run(s, actions).Some?
    ensures Conserved(Run(s, actions).value)
    decreases |actions|
  {
    hide Conserved, WorkerStep, DispatcherStep;
    if actions == [] {
    } else {
      if IsWorkerAction(actions[0]) {
        WorkerStepConserves(s, actions[0]);
      } else {
        DispatcherStepConserves(s, actions[0]);
      }
      RunConserves(Step(s, actions[0]).value, actions[1..]);
    }
  }

  /** In every interleaving of every pool: no number is duplicated, dropped or out of range, and the numbers lost
      are as many as the failed accepts whose connection has been given up. */
  lemma PoolConserves(n: nat, actions: seq<Action>)
    requires Run(Spawned(n), actions).Some?
    ensures Conserved(Run(Spawned(n), actions).value)
  {
    SpawnedConserved(n);
    RunConserves(Spawned(n), actions);
  }

  // ---------- safety ----------

  /** A connection goes to a worker that waits with an empty inbox; and if it is sent with the load flag down, another
      worker waits whose number is on the ready channel. */
  lemma DeliveryIsSafe(s: State)
    requires Conserved(s) && s.dispatcher.Delivering?
    ensures var hand := s.dispatcher.hand;
            hand < |s.workers| && s.workers[hand].Waiting? && s.inboxes[hand] == []
    ensures !s.dispatcher.overloaded ==>
              exists other :: other in s.ready && other != s.dispatcher.hand && IsWaiting(s, other)
  {
    HandIsWaiting(s);
    if !s.dispatcher.overloaded {
      var other := s.ready[0];
      assert other in s.ready && multiset(s.ready)[other] >= 1;
      assert Accounted(s, other) == if IsWaiting(s, other) then 1 else 0;
    }
  }

  /** The load flag goes up exactly when the drain finds the channel empty at its first look. */
  lemma FlagIsFirstLook(s: State)
    requires s.dispatcher.Draining? && s.dispatcher.drained == []
    ensures Step(s, DrainEnd).Some? <==> s.ready == []
    ensures Step(s, DrainEnd).Some? ==> Step(s, DrainEnd).value.dispatcher.overloaded
    ensures Step(s, DrainOne).Some? <==> s.ready != []
    ensures forall actions :: Step(s, DrainOne).Some? ==> FlagStaysDown(Step(s, DrainOne).value, actions)
  {
    if s.ready != [] {
      forall actions
        ensures FlagStaysDown(Step(s, DrainOne).value, actions)
      {
        FoundOneNotOverloaded(Step(s, DrainOne).value, actions);
      }
    }
  }

  /** However the run goes on, the flag is down as long as this connection is with the dispatcher. */
  predicate FlagStaysDown(s: State, actions: seq<Action>)
    decreases |actions|
  {
    && (s.dispatcher.Refilling? || s.dispatcher.Delivering? ==> !s.dispatcher.overloaded)
    && (actions != [] && !s.dispatcher.Accepting? && Step(s, actions[0]).Some? ==>
          FlagStaysDown(Step(s, actions[0]).value, actions[1..]))
  }

  lemma {:induction false} FoundOneNotOverloaded(s: State, actions: seq<Action>)
    requires s.dispatcher.Draining? ==> s.dispatcher.drained != []
    requires s.dispatcher.Refilling? || s.dispatcher.Delivering? ==> !s.dispatcher.overloaded
    requires !s.dispatcher.Receiving?
    ensures FlagStaysDown(s, actions)
    decreases |actions|
  {
    if actions == [] || s.dispatcher.Accepting? || Step(s, actions[0]).None? {
    } else {
      FoundOneNotOverloaded(Step(s, actions[0]).value, actions[1..]);
    }
  }

  // ---------- channels ----------

  /** The load flag sent to worker `w` in a step, if one is. */
  function FlagSent(s: State, action: Action, w: nat): seq<bool> {
    var d := s.dispatcher;
    if action.Deliver? && d.Delivering? && d.accepted && d.hand == w then [d.overloaded] else []
  }

  /** The load flag with which worker `w` goes to work in a step, if it does. */
  function FlagServed(s: State, action: Action, w: nat): seq<bool>
    requires Step(s, action).Some?
  {
    var workers := Step(s, action).value.workers;
    if action == TakeJob(w) && w < |workers| && workers[w].Working? then [workers[w].overloaded] else []
  }

  /** The load flags sent to worker `w` over a run, in order. */
  function FlagsSent(s: State, actions: seq<Action>, w: nat): seq<bool>
    requires Run(s, actions).Some?
    decreases |actions|
  {
    if actions == [] then []
    else FlagSent(s, actions[0], w) + FlagsSent(Step(s, actions[0]).value, actions[1..], w)
  }

  function FlagsServed(s: State, actions: seq<Action>, w: nat): seq<bool>
    requires Run(s, actions).Some?
    decreases |actions|
  {
    if actions == [] then []
    else FlagServed(s, actions[0], w) + FlagsServed(Step(s, actions[0]).value, actions[1..], w)
  }

  lemma FlagsOfStep(s: State, action: Action, w: nat)
    requires |s.inboxes| == |s.workers| && w < |s.workers| && Step(s, action).Some?
    ensures var next := Step(s, action).value;
            |next.inboxes| == |next.workers| == |s.workers|
            && s.inboxes[w] + FlagSent(s, action, w) == FlagServed(s, action, w) + next.inboxes[w]
  {
  }

  lemma {:induction false} FlagsArriveFrom(s: State, actions: seq<Action>, w: nat)
    requires |s.inboxes| == |s.workers| && w < |s.workers| && Run(s, actions).Some?
    ensures var end := Run(s, actions).value;
            |end.inboxes| == |end.workers| == |s.workers|
            && s.inboxes[w] + FlagsSent(s, actions, w) == FlagsServed(s, actions, w) + end.inboxes[w]
    decreases |actions|
  {
    hide Step, FlagSent, FlagServed;
    if actions == [] {
    } else {
      var next, rest := Step(s, actions[0]).value, actions[1..];
      FlagsOfStep(s, actions[0], w);
      FlagsArriveFrom(next, rest, w);
      Regroup(s.inboxes[w], FlagSent(s, actions[0], w), FlagsSent(next, rest, w), FlagServed(s, actions[0], w),
              next.inboxes[w], FlagsServed(next, rest, w), Run(next, rest).value.inboxes[w]);
    }
  }

  /** What goes through a channel in two stretches goes through it in one. */
  lemma Regroup<T>(before: seq<T>, in1: seq<T>, in2: seq<T>, out1: seq<T>, between: seq<T>, out2: seq<T>, after: seq<T>)
    requires before + in1 == out1 + between && between + in2 == out2 + after
    ensures before + (in1 + in2) == (out1 + out2) + after
  {
    assert before + (in1 + in2) == (before + in1) + in2;
    assert (out1 + between) + in2 == out1 + (between + in2);
    assert out1 + (out2 + after) == (out1 + out2) + after;
  }

  /** In every run, the flags with which a worker serves its connections are those they were sent with, in order, as
      far as it has taken them. */
  lemma FlagsArrive(n: nat, actions: seq<Action>, w: nat)
    requires w < n && Run(Spawned(n), actions).Some?
    ensures var end := Run(Spawned(n), actions).value;
            w < |end.inboxes|
            && FlagsSent(Spawned(n), actions, w) == FlagsServed(Spawned(n), actions, w) + end.inboxes[w]
  {
    hide Run, FlagsSent, FlagsServed;
    var s := Spawned(n);
    FlagsArriveFrom(s, actions, w);
    assert s.inboxes[w] + FlagsSent(s, actions, w) == FlagsSent(s, actions, w);
  }

  /** While a worker serves a connection its flag does not change. */
  lemma ServesUnderOneFlag(s: State, action: Action, w: nat)
    requires w < |s.workers| && s.workers[w].Working? && Step(s, action).Some? && action != Finish(w)
    ensures var next := Step(s, action).value; w < |next.workers| && next.workers[w] == s.workers[w]
  {
  }

  /** The number put on the ready channel in a step, if one is. */
  function NumberPut(s: State, action: Action): seq<nat> {
    match action
    case Announce(w) => [w]
    case RefillOne => if s.dispatcher.Refilling? && s.dispatcher.left != [] then [s.dispatcher.left[0]] else []
    case _ => []
  }

  /** The number the dispatcher takes from it in a step, if it does. */
  function NumberTakenOff(s: State, action: Action): seq<nat>
    requires Step(s, action).Some?
  {
    var d := Step(s, action).value.dispatcher;
    if !d.Draining? then []
    else if action.Receive? then [d.hand]
    else if action.DrainOne? && d.drained != [] then [d.drained[|d.drained| - 1]]
    else []
  }

  /** The numbers put on the channel over a run, in order. */
  function NumbersPut(s: State, actions: seq<Action>): seq<nat>
    requires Run(s, actions).Some?
    decreases |actions|
  {
    if actions == [] then []
    else NumberPut(s, actions[0]) + NumbersPut(Step(s, actions[0]).value, actions[1..])
  }

  function NumbersTaken(s: State, actions: seq<Action>): seq<nat>
    requires Run(s, actions).Some?
    decreases |actions|
  {
    if actions == [] then []
    else NumberTakenOff(s, actions[0]) + NumbersTaken(Step(s, actions[0]).value, actions[1..])
  }

  lemma NumbersOfStep(s: State, action: Action)
    requires Step(s, action).Some?
    ensures s.ready + NumberPut(s, action) == NumberTakenOff(s, action) + Step(s, action).value.ready
  {
  }

  /** The ready channel is first in, first out, over every run. */
  lemma {:induction false} NumbersComeInOrder(s: State, actions: seq<Action>)
    requires Run(s, actions).Some?
    ensures s.ready + NumbersPut(s, actions) == NumbersTaken(s, actions) + Run(s, actions).value.ready
    decreases |actions|
  {
    hide Step, NumberPut, NumberTakenOff;
    if actions == [] {
    } else {
      var next, rest := Step(s, actions[0]).value, actions[1..];
      NumbersOfStep(s, actions[0]);
      NumbersComeInOrder(next, rest);
      Regroup(s.ready, NumberPut(s, actions[0]), NumbersPut(next, rest), NumberTakenOff(s, actions[0]), next.ready,
              NumbersTaken(next, rest), Run(next, rest).value.ready);
    }
  }

  // ---------- counting numbers ----------

  ghost predicate AtMostOnce(m: multiset<nat>, n: nat) {
    forall w: nat :: m[w] <= if w < n then 1 else 0
  }

  /** Different numbers below `n` are at most `n`, and `n` only if they are all of them. */
  lemma {:induction false} Pigeonhole(m: multiset<nat>, n: nat)
    requires AtMostOnce(m, n)
    ensures |m| <= n
    ensures |m| == n <==> forall w: nat | w < n :: m[w] == 1
    decreases n
  {
    if n == 0 {
      assert forall w: nat :: m[w] == 0;
      assert m == multiset{};
    } else {
      var rest := m[n - 1 := 0];
      assert forall w: nat :: m[w] <= if w < n then 1 else 0;
      assert AtMostOnce(rest, n - 1);
      Pigeonhole(rest, n - 1);
      assert |m| == |rest| + m[n - 1] by {
        assert m == rest + multiset{}[n - 1 := m[n - 1]];
        assert |multiset{}[n - 1 := m[n - 1]]| == m[n - 1];
      }
      if forall w: nat | w < n - 1 :: rest[w] == 1 {
        assert forall w: nat | w < n - 1 :: m[w] == rest[w];
      }
      assert forall w: nat | w < n - 1 :: rest[w] == m[w];
    }
  }

  /** The drain takes at most all numbers but the one in hand, so it ends. */
  lemma DrainIsBounded(s: State)
    requires Conserved(s)
    ensures |InHand(s.dispatcher)| <= |s.workers|
    ensures s.dispatcher.Draining? ==> |s.dispatcher.drained| < |s.workers|
  {
    var m := multiset(InHand(s.dispatcher));
    forall w: nat
      ensures m[w] <= if w < |s.workers| then 1 else 0
    {
      assert Accounted(s, w) == if IsWaiting(s, w) then 1 else 0;
    }
    Pigeonhole(m, |s.workers|);
    assert |m| == |InHand(s.dispatcher)|;
  }

  // ---------- deadlock ----------

  ghost predicate Stuck(s: State) {
    forall action :: Step(s, action).None?
  }

  /** The pool can always go on, until so many accepts have failed that every worker's number is lost; then it never
      does again. */
  lemma StuckOnlyWhenAllLost(s: State)
    requires Conserved(s)
    ensures Stuck(s) <==> s.dispatcher.Receiving? && |s.lost| == |s.workers|
    ensures Stuck(s) ==> s.failures >= |s.workers|
  {
    LostAtMostOnce(s);
    Pigeonhole(multiset(s.lost), |s.workers|);
    assert |multiset(s.lost)| == |s.lost|;
    if s.dispatcher.Receiving? && |s.lost| == |s.workers| {
      AllLostIsStuck(s);
    }
    if Stuck(s) {
      StuckIsAllLost(s);
    }
  }

  lemma LostAtMostOnce(s: State)
    requires Conserved(s)
    ensures AtMostOnce(multiset(s.lost), |s.workers|)
  {
    forall w: nat
      ensures multiset(s.lost)[w] <= if w < |s.workers| then 1 else 0
    {
      assert Accounted(s, w) == if IsWaiting(s, w) then 1 else 0;
    }
  }

  lemma AllLostIsStuck(s: State)
    requires Conserved(s) && s.dispatcher.Receiving?
    requires forall w: nat | w < |s.workers| :: multiset(s.lost)[w] == 1
    ensures Stuck(s)
  {
    HeadCounts(s.ready);
    var first := if s.ready != [] then s.ready[0] else 0;
    assert Accounted(s, first) == if IsWaiting(s, first) then 1 else 0;
    forall action
      ensures Step(s, action).None?
    {
      if IsWorkerAction(action) && action.worker < |s.workers| {
        assert Accounted(s, action.worker) == if IsWaiting(s, action.worker) then 1 else 0;
      }
    }
  }

  lemma StuckIsAllLost(s: State)
    requires Conserved(s) && Stuck(s)
    ensures s.dispatcher.Receiving? && s.ready == []
    ensures forall w: nat | w < |s.workers| :: multiset(s.lost)[w] == 1
  {
    hide Conserved, WorkerStep, DispatcherStep;
    StuckDispatcher(s);
    forall w: nat | w < |s.workers|
      ensures multiset(s.lost)[w] == 1
    {
      assert Step(s, Announce(w)).None? && Step(s, TakeJob(w)).None? && Step(s, Finish(w)).None?;
      StuckWorker(s, w);
    }
  }

  lemma StuckDispatcher(s: State)
    requires Stuck(s)
    ensures s.dispatcher.Receiving? && s.ready == []
  {
    hide WorkerStep;
    assert Step(s, Accept(true)).None? && Step(s, Receive).None? && Step(s, DrainOne).None? && Step(s, DrainEnd).None?;
    assert Step(s, RefillOne).None? && Step(s, RefillEnd).None? && Step(s, Deliver).None?;
  }

  lemma StuckWorker(s: State, w: nat)
    requires Conserved(s) && w < |s.workers| && s.dispatcher.Receiving? && s.ready == []
    requires WorkerStep(s, Announce(w)).None? && WorkerStep(s, TakeJob(w)).None? && WorkerStep(s, Finish(w)).None?
    ensures multiset(s.lost)[w] == 1
  {
    assert Accounted(s, w) == if IsWaiting(s, w) then 1 else 0;
  }

  /** A worker announces itself, and its number goes to a connection that could not be accepted. */
  function Loss(w: nat): seq<Action> {
    [Announce(w), Accept(false), Receive, DrainEnd, RefillEnd, Deliver]
  }

  function Losses(n: nat): seq<Action> {
    if n == 0 then [] else Losses(n - 1) + Loss(n - 1)
  }

  /** `n` workers, the first `i` of which wait for ever. */
  function AfterLosses(n: nat, i: nat): State {
    State(seq(n, w => if w < i then Waiting else Announcing), [], seq(n, _ => []), Accepting, seq(i, w => w), i, false)
  }

  lemma {:induction false} RunAppend(s: State, a: seq<Action>, b: seq<Action>)
    requires Run(s, a).Some?
    ensures Run(s, a + b) == Run(Run(s, a).value, b)
    decreases |a|
  {
    hide WorkerStep, DispatcherStep;
    if a == [] {
      assert a + b == b;
    } else {
      assert (a + b)[1..] == a[1..] + b;
      RunAppend(Step(s, a[0]).value, a[1..], b);
    }
  }

  lemma RunAt(s: State, actions: seq<Action>, i: nat, next: State)
    requires i < |actions| && Step(s, actions[i]) == Some(next)
    ensures Run(s, actions[i..]) == Run(next, actions[i + 1..])
  {
    assert actions[i..][1..] == actions[i + 1..];
  }

  lemma RunNone(s: State)
    ensures Run(s, []) == Some(s)
  {
  }

  /** Where worker `w` and its number are after `i` actions of its loss. */
  function Losing(s: State, w: nat, i: nat): State
    requires w < |s.workers|
  {
    if i == 0 then s
    else
      var waits := s.(workers := s.workers[w := Waiting]);
      if i == 1 then waits.(ready := [w])
      else
        var failed := waits.(failures := s.failures + 1);
        if i == 2 then failed.(ready := [w], dispatcher := Receiving(false))
        else if i == 3 then failed.(dispatcher := Draining(false, w, []))
        else if i == 4 then failed.(dispatcher := Refilling(false, w, [], true))
        else if i == 5 then failed.(dispatcher := Delivering(false, w, true))
        else failed.(lost := s.lost + [w])
  }

  predicate MayLose(s: State, w: nat) {
    s.dispatcher.Accepting? && s.ready == [] && w < |s.workers| == |s.inboxes| && s.workers[w].Announcing?
  }

  lemma LosingStep(s: State, w: nat, i: nat)
    requires MayLose(s, w) && i < 6
    ensures Step(Losing(s, w, i), Loss(w)[i]) == Some(Losing(s, w, i + 1))
  {
    assert s.ready + [w] == [w] && [w][1..] == [];
  }

  lemma {:induction false} LoseOne(s: State, w: nat, i: nat)
    requires MayLose(s, w) && i <= 6
    ensures Run(Losing(s, w, i), Loss(w)[i..]) == Some(Losing(s, w, 6))
    decreases 6 - i
  {
    hide Losing, Step, Run;
    if i < 6 {
      LosingStep(s, w, i);
      RunAt(Losing(s, w, i), Loss(w), i, Losing(s, w, i + 1));
      LoseOne(s, w, i + 1);
    } else {
      assert Loss(w)[6..] == [];
      RunNone(Losing(s, w, 6));
    }
  }

  lemma {:induction false} RunLosses(n: nat, i: nat)
    requires i <= n
    ensures Run(Spawned(n), Losses(i)) == Some(AfterLosses(n, i))
  {
    hide Run, Loss;
    if i == 0 {
      assert Spawned(n) == AfterLosses(n, 0);
      RunNone(Spawned(n));
    } else {
      var s := AfterLosses(n, i - 1);
      RunLosses(n, i - 1);
      RunAppend(Spawned(n), Losses(i - 1), Loss(i - 1));
      assert MayLose(s, i - 1);
      LoseOne(s, i - 1, 0);
      assert Loss(i - 1)[0..] == Loss(i - 1) && Losing(s, i - 1, 0) == s;
      assert Losing(s, i - 1, 6) == AfterLosses(n, i);
    }
  }

  /** Every pool can be brought to a halt by as many failed accepts as it has workers: the dispatcher then waits for
      ever with the next connection. No fewer will do, by `StuckOnlyWhenAllLost`. */
  lemma HangIsReachable(n: nat, ok: bool)
    ensures var end := Run(Spawned(n), Losses(n) + [Accept(ok)]);
            end.Some? && Stuck(end.value) && |end.value.workers| == n
            && end.value.failures == if ok then n else n + 1
  {
    hide Run, Losses, Conserved, Stuck;
    RunLosses(n, n);
    var s := AfterLosses(n, n);
    RunAppend(Spawned(n), Losses(n), [Accept(ok)]);
    var end := Step(s, Accept(ok)).value;
    RunAt(s, [Accept(ok)], 0, end);
    RunNone(end);
    assert [Accept(ok)][0..] == [Accept(ok)] && [Accept(ok)][1..] == [];
    PoolConserves(n, Losses(n) + [Accept(ok)]);
    StuckOnlyWhenAllLost(end);
  }

  // ---------- the dispatcher's wait ends ----------

  /** How many steps a worker can take before it has announced itself. */
  function Effort(worker: Worker, inbox: seq<bool>): nat {
    match worker
    case Announcing => 1
    case Working(_) => 2
    case Waiting => if inbox == [] then 0 else 3
  }

  function TotalEffort(workers: seq<Worker>, inboxes: seq<seq<bool>>): nat
    requires |workers| == |inboxes|
  {
    if workers == [] then 0
    else Effort(workers[0], inboxes[0]) + TotalEffort(workers[1..], inboxes[1..])
  }

  lemma {:induction false} EffortUpdated(workers: seq<Worker>, inboxes: seq<seq<bool>>, w: nat, worker: Worker,
                                         inbox: seq<bool>)
    requires |workers| == |inboxes| && w < |workers|
    ensures TotalEffort(workers[w := worker], inboxes[w := inbox]) + Effort(workers[w], inboxes[w])
         == TotalEffort(workers, inboxes) + Effort(worker, inbox)
    decreases w
  {
    if w > 0 {
      assert workers[w := worker][1..] == workers[1..][w - 1 := worker];
      assert inboxes[w := inbox][1..] == inboxes[1..][w - 1 := inbox];
      EffortUpdated(workers[1..], inboxes[1..], w - 1, worker, inbox);
    } else {
      assert workers[0 := worker][1..] == workers[1..] && inboxes[0 := inbox][1..] == inboxes[1..];
    }
  }

  lemma WorkerStepsUseEffort(s: State, action: Action)
    requires Conserved(s) && IsWorkerAction(action) && WorkerStep(s, action).Some?
    ensures var next := WorkerStep(s, action).value;
            |next.workers| == |next.inboxes|
            && TotalEffort(next.workers, next.inboxes) + 1 == TotalEffort(s.workers, s.inboxes)
  {
    var next := WorkerStep(s, action).value;
    var w := action.worker;
    assert Accounted(s, w) == if IsWaiting(s, w) then 1 else 0;
    assert |s.inboxes[w]| <= 1;
    EffortUpdated(s.workers, s.inboxes, w, next.workers[w], next.inboxes[w]);
    assert next.inboxes == s.inboxes[w := next.inboxes[w]];
  }

  lemma {:induction false} EffortIsBounded(workers: seq<Worker>, inboxes: seq<seq<bool>>)
    requires |workers| == |inboxes|
    ensures TotalEffort(workers, inboxes) <= 3 * |workers|
  {
    if workers == [] {
    } else {
      EffortIsBounded(workers[1..], inboxes[1..]);
    }
  }

  ghost predicate WorkersIdle(s: State) {
    forall action :: IsWorkerAction(action) ==> WorkerStep(s, action).None?
  }

  /** While the dispatcher waits for a number, the workers can take at most three steps each, in whatever order; and
      when they can take no more, a number is there, unless the numbers of all workers are lost. */
  lemma WaitEnds(s: State, actions: seq<Action>)
    requires Conserved(s) && s.dispatcher.Receiving?
    requires forall i | 0 <= i < |actions| :: IsWorkerAction(actions[i])
    requires Run(s, actions).Some?
    ensures |actions| <= 3 * |s.workers|
    ensures var end := Run(s, actions).value;
            end.dispatcher == s.dispatcher && end.lost == s.lost && |end.workers| == |s.workers|
            && (WorkersIdle(end) ==> end.ready != [] || |end.lost| == |end.workers|)
  {
    EffortSpent(s, actions);
    EffortIsBounded(s.workers, s.inboxes);
    RunConserves(s, actions);
    var end := Run(s, actions).value;
    if WorkersIdle(end) && end.ready == [] {
      assert Stuck(end) by {
        forall action
          ensures Step(end, action).None?
        {
        }
      }
      StuckOnlyWhenAllLost(end);
    }
  }

  lemma {:induction false} EffortSpent(s: State, actions: seq<Action>)
    requires Conserved(s)
    requires forall i | 0 <= i < |actions| :: IsWorkerAction(actions[i])
    requires Run(s, actions).Some?
    ensures |actions| <= TotalEffort(s.workers, s.inboxes)
    ensures var end := Run(s, actions).value;
            end.dispatcher == s.dispatcher && end.lost == s.lost && |end.workers| == |s.workers|
    decreases |actions|
  {
    if actions == [] {
    } else {
      WorkerStepConserves(s, actions[0]);
      WorkerStepsUseEffort(s, actions[0]);
      EffortSpent(WorkerStep(s, actions[0]).value, actions[1..]);
    }
  }
}

/** The dispatcher of src/main.rs as the loops it is written with, each of its channel operations preceded by
    whatever steps the workers take meanwhile. */
module PoolDispatch {
  import opened Text
  import opened Pool

  /** How one connection was passed on: not yet, because no worker has announced itself; to a worker; not at all,
      because accepting it had failed; or to a thread that does not exist. */
  datatype Passed = Blocked | Sent(worker: nat, overloaded: bool) | GivenUp(worker: nat) | OutOfBounds

  /** A connection was sent to a worker that waited with an empty inbox, with the load flag `overloaded`; if that is
      down, another worker waits whose number is on the channel. A failed accept costs its worker's number. */
  ghost predicate Handed(s: State, accepted: bool, lostBefore: seq<nat>, passed: Passed, overloaded: bool) {
    match passed
    case Sent(worker, flag) =>
      && accepted && flag == overloaded && s.lost == lostBefore
      && IsWaiting(s, worker) && worker < |s.inboxes| && s.inboxes[worker] == [flag]
      && (!flag ==> exists other :: other in s.ready && other != worker && IsWaiting(s, other))
    case GivenUp(worker) => !accepted && s.lost == lostBefore + [worker]
    case _ => false
  }

  lemma {:induction false} RunOneMore(s: State, actions: seq<Action>, action: Action)
    requires Run(s, actions).Some?
    ensures Run(s, actions + [action]) == Step(Run(s, actions).value, action)
    decreases |actions|
  {
    hide Step;
    if actions == [] {
      assert (actions + [action])[1..] == [];
    } else {
      assert (actions + [action])[1..] == actions[1..] + [action];
      RunOneMore(Step(s, actions[0]).value, actions[1..], action);
    }
  }

  class ThreadPool {
    var workers: seq<Worker>
    var ready: seq<nat>
    var inboxes: seq<seq<bool>>
    var lost: seq<nat>
    var failures: nat
    var outOfBounds: bool
    ghost var dispatcher: Dispatcher

    ghost function Now(): State
      reads this
    {
      State(workers, ready, inboxes, dispatcher, lost, failures, outOfBounds)
    }

    /** Spawns the workers one by one, each with a channel of its own. */
    constructor (numThreads: nat)
      ensures Now() == Spawned(numThreads)
    {
      workers, ready, inboxes := [], [], [];
      lost, failures, outOfBounds, dispatcher := [], 0, false, Accepting;
      new;
      for threadNum := 0 to numThreads
        invariant workers == seq(threadNum, _ => Announcing) && inboxes == seq(threadNum, _ => [])
        invariant ready == [] && lost == [] && failures == 0 && !outOfBounds && dispatcher == Accepting
      {
        workers, inboxes := workers + [Announcing], inboxes + [[]];
      }
    }

    /** The steps of workers that can be taken, in the order given. */
    method Others(actions: seq<Action>, ghost start: State, ghost before: seq<Action>)
      returns (ghost trace: seq<Action>)
      requires Conserved(Now()) && Run(start, before) == Some(Now())
      modifies this
      ensures Run(start, trace) == Some(Now()) && Conserved(Now())
      ensures dispatcher == old(dispatcher) && failures == old(failures) && lost == old(lost)
      ensures |workers| == old(|workers|)
    {
      hide Conserved, Run;
      trace := before;
      for i := 0 to |actions|
        invariant Run(start, trace) == Some(Now()) && Conserved(Now())
        invariant dispatcher == old(dispatcher) && failures == old(failures) && lost == old(lost)
        invariant |workers| == old(|workers|)
      {
        var action := actions[i];
        if IsWorkerAction(action) && action.worker < |workers| {
          ghost var s := Now();
          var taken := WorkerMoves(action);
          if taken {
            WorkerStepConserves(s, action);
            RunOneMore(start, trace, action);
            trace := trace + [action];
          }
        }
      }
    }

    /** One pass through `do_work`'s next channel operation or the end of its request, if the worker is there. */
    method WorkerMoves(action: Action) returns (taken: bool)
      requires IsWorkerAction(action) && action.worker < |workers| && Conserved(Now())
      modifies this
      ensures taken <==> WorkerStep(old(Now()), action).Some?
      ensures if taken then WorkerStep(old(Now()), action) == Some(Now()) else Now() == old(Now())
    {
      ShapeOf(Now());
      hide Conserved;
      var w := action.worker;
      taken := false;
      match action {
        case Announce(_) =>
          if workers[w].Announcing? {
            ready := ready + [w];
            workers := workers[w := Waiting];
            taken := true;
          }
        case TakeJob(_) =>
          if workers[w].Waiting? && inboxes[w] != [] {
            workers := workers[w := Working(inboxes[w][0])];
            inboxes := inboxes[w := inboxes[w][1..]];
            taken := true;
          }
        case Finish(_) =>
          if workers[w].Working? {
            workers := workers[w := Announcing];
            taken := true;
          }
      }
    }

    /** Passes one connection, or failed accept, to a worker. The drain ends although workers keep announcing
        themselves; the load flag is what the drain's first look said; the number is always that of a worker that
        waits with an empty inbox. */
    method PassToWorker(accepted: bool, others: nat -> seq<Action>)
      returns (passed: Passed, ghost trace: seq<Action>, ghost firstLookEmpty: bool)
      requires Conserved(Now()) && dispatcher.Accepting?
      modifies this
      ensures Run(old(Now()), trace) == Some(Now()) && Conserved(Now())
      ensures passed.Blocked? ==> ready == [] && dispatcher == Receiving(accepted)
      ensures !passed.Blocked? ==> Handed(Now(), accepted, old(lost), passed, firstLookEmpty)
    {
      hide Run, Conserved, DispatcherStep, Handed;
      ghost var start := Now();
      firstLookEmpty := false;
      assert Run(start, []) == Some(start) by { RunNothing(start); }
      dispatcher, failures := Receiving(accepted), if accepted then failures else failures + 1;
      assert DispatcherStep(start, Accept(accepted)) == Some(Now()) by { AcceptStep(start, accepted); }
      trace := Did(start, start, [], Accept(accepted));
      trace := Others(others(0), start, trace);
      if ready == [] {
        return Blocked, trace, firstLookEmpty;
      }
      var threadNum;
      threadNum, trace := TakeNumber(accepted, start, trace);
      trace := Others(others(1), start, trace);
      var drained;
      drained, trace, firstLookEmpty := Drain(accepted, threadNum, others, start, trace);
      var overloaded := |drained| == 0;
      trace := Refill(accepted, threadNum, drained, overloaded, others, start, trace);
      passed, trace := DeliverTo(accepted, threadNum, overloaded, start, trace);
    }

    lemma AcceptStep(s: State, accepted: bool)
      requires s.dispatcher.Accepting?
      ensures DispatcherStep(s, Accept(accepted))
           == Some(s.(dispatcher := Receiving(accepted), failures := if accepted then s.failures else s.failures + 1))
    {
    }

    method TakeNumber(accepted: bool, ghost start: State, ghost before: seq<Action>)
      returns (threadNum: nat, ghost trace: seq<Action>)
      requires Run(start, before) == Some(Now()) && Conserved(Now())
      requires dispatcher == Receiving(accepted) && ready != []
      modifies this
      ensures Run(start, trace) == Some(Now()) && Conserved(Now()) && lost == old(lost)
      ensures dispatcher == Draining(accepted, threadNum, [])
    {
      hide Run, Conserved;
      ghost var s := Now();
      threadNum := ready[0];
      ready, dispatcher := ready[1..], Draining(accepted, threadNum, []);
      trace := Did(start, s, before, Receive);
    }

    /** Collects the numbers on the channel until it is found empty, while workers go on announcing themselves. */
    method Drain(accepted: bool, threadNum: nat, others: nat -> seq<Action>, ghost start: State,
                 ghost before: seq<Action>)
      returns (drained: seq<nat>, ghost trace: seq<Action>, ghost firstLookEmpty: bool)
      requires Run(start, before) == Some(Now()) && Conserved(Now())
      requires dispatcher == Draining(accepted, threadNum, [])
      modifies this
      ensures Run(start, trace) == Some(Now()) && Conserved(Now()) && lost == old(lost)
      ensures firstLookEmpty <==> drained == []
      ensures dispatcher == Refilling(accepted, threadNum, drained, drained == [])
    {
      hide Run, Conserved;
      ghost var s := Now();
      trace := before;
      firstLookEmpty := ready == [];
      drained := [];
      while ready != []
        invariant dispatcher == Draining(accepted, threadNum, drained)
        invariant Run(start, trace) == Some(Now()) && Conserved(Now()) && lost == old(lost)
        invariant if firstLookEmpty then drained == [] && ready == [] else drained != [] || ready != []
        decreases |workers| - |drained|
      {
        s := Now();
        drained := drained + [ready[0]];
        ready, dispatcher := ready[1..], Draining(accepted, threadNum, drained);
        trace := Did(start, s, trace, DrainOne);
        DrainIsBounded(s);
        trace := Others(others(1 + |drained|), start, trace);
      }
      s := Now();
      dispatcher := Refilling(accepted, threadNum, drained, drained == []);
      trace := Did(start, s, trace, DrainEnd);
    }

    /** Sends the numbers collected back to the channel. */
    method Refill(accepted: bool, threadNum: nat, drained: seq<nat>, overloaded: bool, others: nat -> seq<Action>,
                  ghost start: State, ghost before: seq<Action>)
      returns (ghost trace: seq<Action>)
      requires Run(start, before) == Some(Now()) && Conserved(Now())
      requires dispatcher == Refilling(accepted, threadNum, drained, overloaded)
      modifies this
      ensures Run(start, trace) == Some(Now()) && Conserved(Now()) && lost == old(lost)
      ensures dispatcher == Delivering(accepted, threadNum, overloaded)
    {
      hide Run, Conserved;
      ghost var s := Now();
      trace := before;
      for i := 0 to |drained|
        invariant dispatcher == Refilling(accepted, threadNum, drained[i..], overloaded)
        invariant Run(start, trace) == Some(Now()) && Conserved(Now()) && lost == old(lost)
      {
        s := Now();
        assert drained[i..][1..] == drained[i + 1..];
        ready, dispatcher := ready + [drained[i]], Refilling(accepted, threadNum, drained[i + 1..], overloaded);
        trace := Did(start, s, trace, RefillOne);
        trace := Others(others(2 + |drained| + i), start, trace);
      }
      s := Now();
      dispatcher := Delivering(accepted, threadNum, overloaded);
      trace := Did(start, s, trace, RefillEnd);
    }

    /** Sends the connection to the worker whose number was taken. */
    method DeliverTo(accepted: bool, threadNum: nat, overloaded: bool, ghost start: State, ghost before: seq<Action>)
      returns (passed: Passed, ghost trace: seq<Action>)
      requires Run(start, before) == Some(Now()) && Conserved(Now())
      requires dispatcher == Delivering(accepted, threadNum, overloaded)
      modifies this
      ensures Run(start, trace) == Some(Now()) && Conserved(Now())
      ensures Handed(Now(), accepted, old(lost), passed, overloaded) && !passed.Blocked?
    {
      hide Run, Conserved;
      ghost var s := Now();
      ShapeOf(s);
      if threadNum >= |workers| {
        passed := OutOfBounds;
        dispatcher, outOfBounds := Accepting, true;
      } else if !accepted {
        passed := GivenUp(threadNum);
        dispatcher, lost := Accepting, lost + [threadNum];
      } else {
        passed := Sent(threadNum, overloaded);
        dispatcher, inboxes := Accepting, inboxes[threadNum := inboxes[threadNum] + [overloaded]];
      }
      trace := Did(start, s, before, Deliver);
      DeliveryIsSafe(s);
    }

    lemma RunNothing(s: State)
      ensures Run(s, []) == Some(s)
    {
    }

    /** Records the step the dispatcher has just taken from `s`. */
    ghost method Did(start: State, s: State, trace: seq<Action>, action: Action) returns (longer: seq<Action>)
      requires Run(start, trace) == Some(s) && Conserved(s)
      requires !IsWorkerAction(action) && DispatcherStep(s, action) == Some(Now())
      ensures longer == trace + [action] && Run(start, longer) == Some(Now()) && Conserved(Now())
    {
      hide Conserved, DispatcherStep;
      RunOneMore(start, trace, action);
      DispatcherStepConserves(s, action);
      longer := trace + [action];
    }
  }
}

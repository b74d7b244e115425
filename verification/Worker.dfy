/** A worker of an effect's pool: handle one event, commit, then ack; and one failure ack, from
    whichever place, when that does not work out. */
module Worker {
  import opened Prelude
  import opened EventLog
  import opened EffectActor
  import opened EffectDelivery

  /** How the guest's handler and the commit after it turn out. */
  datatype Outcome = Completes | HandlerFails | HandlerPanics | CommitFails

  class ModuleWorker {
    var currentPosition: Option<nat>
    var committed: seq<nat>
    var sent: seq<Ack>

    constructor ()
      ensures currentPosition == None && committed == [] && sent == []
    {
      currentPosition, committed, sent := None, [], [];
    }

    /** Returns whether the handler of the message ended without an error or a panic.  The ack
        goes out after the commit; an error of the guest is acked as a failure on the spot; a
        panic or a failed commit leaves the position set for `OnPanic`. */
    method ProcessEvent(position: nat, outcome: Outcome) returns (ok: bool)
      modifies this
      ensures ok <==> outcome == Completes
      ensures committed == if outcome == Completes then old(committed) + [position] else old(committed)
      ensures sent == (match outcome
                       case Completes => old(sent) + [Done(position)]
                       case HandlerFails => old(sent) + [Failed(position)]
                       case _ => old(sent))
      ensures currentPosition == if outcome in {Completes, HandlerFails} then None else Some(position)
    {
      currentPosition := Some(position);
      match outcome {
        case HandlerPanics =>
          return false;
        case HandlerFails =>
          sent := sent + [Failed(position)];
          ok := false;
        case CommitFails =>
          return false;
        case Completes =>
          committed := committed + [position];
          sent := sent + [Done(position)];
          ok := true;
      }
      currentPosition := None;
    }

    method OnPanic()
      modifies this
      ensures currentPosition == None && committed == old(committed)
      ensures sent == match old(currentPosition)
                      case None => old(sent)
                      case Some(position) => old(sent) + [Failed(position)]
    {
      var position := currentPosition;
      currentPosition := None;
      if position.Some? {
        sent := sent + [Failed(position.value)];
      }
    }

    /** One message from start to end: an error or a panic of the handler leads to `OnPanic`.
        Exactly one ack goes out for the event, and it is a success exactly when the event's
        effects are committed. */
    method Receive(position: nat, outcome: Outcome) returns (alive: bool)
      requires currentPosition == None
      modifies this
      ensures currentPosition == None
      ensures alive <==> outcome == Completes
      ensures sent == old(sent) + [if outcome == Completes then Done(position) else Failed(position)]
      ensures committed == old(committed) + if outcome == Completes then [position] else []
    {
      alive := ProcessEvent(position, outcome);
      if !alive {
        OnPanic();
      }
    }

    /** The mailbox, one message after another, until it is empty or the worker goes down. */
    method Drain(queue: seq<nat>, outcomes: seq<Outcome>) returns (n: nat)
      requires currentPosition == None && |outcomes| == |queue|
      modifies this
      ensures currentPosition == None && n <= |queue|
      ensures sent == old(sent) + Acks(queue[..n], outcomes[..n])
      ensures committed == old(committed) + Commits(queue[..n], outcomes[..n])
      ensures forall k :: 0 <= k < n - 1 ==> outcomes[k] == Completes
      ensures n < |queue| ==> n > 0 && outcomes[n - 1] != Completes
    {
      n := 0;
      var alive := true;
      while alive && n < |queue|
        invariant currentPosition == None && n <= |queue|
        invariant sent == old(sent) + Acks(queue[..n], outcomes[..n])
        invariant committed == old(committed) + Commits(queue[..n], outcomes[..n])
        invariant forall k :: 0 <= k < n - 1 ==> outcomes[k] == Completes
        invariant n > 0 ==> (alive <==> outcomes[n - 1] == Completes)
        invariant n == 0 ==> alive
        decreases |queue| - n
      {
        alive := Receive(queue[n], outcomes[n]);
        assert queue[..n + 1][..n] == queue[..n] && outcomes[..n + 1][..n] == outcomes[..n];
        n := n + 1;
      }
    }
  }

  function AckOf(position: nat, outcome: Outcome): Ack {
    if outcome == Completes then Done(position) else Failed(position)
  }

  function Acks(queue: seq<nat>, outcomes: seq<Outcome>): (r: seq<Ack>)
    requires |queue| == |outcomes|
  {
    if queue == [] then []
    else Acks(queue[..|queue| - 1], outcomes[..|queue| - 1]) + [AckOf(queue[|queue| - 1], outcomes[|queue| - 1])]
  }

  function Commits(queue: seq<nat>, outcomes: seq<Outcome>): seq<nat>
    requires |queue| == |outcomes|
  {
    if queue == [] then []
    else Commits(queue[..|queue| - 1], outcomes[..|queue| - 1])
         + if outcomes[|queue| - 1] == Completes then [queue[|queue| - 1]] else []
  }

  /** One ack for each event begun, in order; success acks are exactly the commits. */
  lemma {:induction false} OneAckEach(queue: seq<nat>, outcomes: seq<Outcome>)
    requires |queue| == |outcomes|
    ensures |Acks(queue, outcomes)| == |queue|
    ensures forall k :: 0 <= k < |queue| ==> Acks(queue, outcomes)[k].position == queue[k]
    ensures forall p :: Done(p) in Acks(queue, outcomes) <==> p in Commits(queue, outcomes)
  {
    if queue != [] {
      OneAckEach(queue[..|queue| - 1], outcomes[..|queue| - 1]);
    }
  }

  /** What the worker object does with the next event of its mailbox is a walk of the delivery
      system: take, finish and ack when it completes, take and fail when it does not. */
  function Walk(
    cfg: Config, log: Log, deleted: set<KeyId>, e: Effect, w: nat, outcome: Outcome): Effect
    requires WellFormed(cfg, e.actor)
  {
    var taken := Step(cfg, log, deleted, e, Take(w));
    if outcome == Completes then Step(cfg, log, deleted, Step(cfg, log, deleted, taken, Finish(w)), SendAck(w))
    else Step(cfg, log, deleted, taken, Fail(w))
  }

  function Step(cfg: Config, log: Log, deleted: set<KeyId>, e: Effect, step: ActorStep): (r: Effect)
    requires WellFormed(cfg, e.actor) && (step.Take? || step.Finish? || step.SendAck? || step.Fail?)
    ensures WellFormed(cfg, r.actor)
  {
    ActorNext(cfg, log, deleted, e.db, e.completed, e.actor, step)
  }

  lemma TakenWorker(cfg: Config, log: Log, deleted: set<KeyId>, e: Effect, w: nat)
    requires WellFormed(cfg, e.actor) && w < |e.actor.workers|
    requires e.actor.workers[w].running.Idle? && e.actor.workers[w].queue != []
    ensures
      var queue := e.actor.workers[w].queue;
      Step(cfg, log, deleted, e, Take(w))
      == Effect(SetWorker(e.actor, w, EffectDelivery.Worker(queue[1..], Handling(queue[0]), e.actor.workers[w].attempts + [queue[0]])),
                e.db, e.completed)
  {}

  lemma FinishedWorker(cfg: Config, log: Log, deleted: set<KeyId>, e: Effect, w: nat)
    requires WellFormed(cfg, e.actor) && w < |e.actor.workers| && e.actor.workers[w].running.Handling?
    ensures
      var worker := e.actor.workers[w];
      var position := worker.running.position;
      Step(cfg, log, deleted, Step(cfg, log, deleted, e, Finish(w)), SendAck(w))
      == Effect(SetWorker(e.actor, w, worker.(running := Idle)).(acks := e.actor.acks + [Done(position)]),
                e.db, e.completed + {position})
  {
    var worker := e.actor.workers[w];
    var finished := Step(cfg, log, deleted, e, Finish(w));
    assert finished.actor == SetWorker(e.actor, w, worker.(running := Finished(worker.running.position)));
    assert e.actor.workers[w := finished.actor.workers[w]][w := worker.(running := Idle)]
        == e.actor.workers[w := worker.(running := Idle)];
  }

  /** The walk sends the ack that the worker object sends, completes the event exactly when the
      object commits it, takes the worker down exactly when it does not, and touches nothing else
      of the actor. */
  lemma ReceiveIsAWalk(
    cfg: Config, log: Log, deleted: set<KeyId>, e: Effect, w: nat, outcome: Outcome)
    requires WellFormed(cfg, e.actor) && w < |e.actor.workers|
    requires e.actor.workers[w].running.Idle? && e.actor.workers[w].queue != []
    ensures
      var a, position := e.actor, e.actor.workers[w].queue[0];
      var r := Walk(cfg, log, deleted, e, w, outcome);
      && r.actor.acks == a.acks + [AckOf(position, outcome)]
      && r.completed == e.completed + (if outcome == Completes then {position} else {})
      && r.db == e.db && r.actor.workers[w].running == (if outcome == Completes then Idle else Down)
      && r.actor.workers[w].attempts == a.workers[w].attempts + [position]
      && r.actor.tracker == a.tracker && r.actor.phase == a.phase && r.actor.dispatched == a.dispatched
  {
    TakenWorker(cfg, log, deleted, e, w);
    if outcome == Completes {
      FinishedWorker(cfg, log, deleted, Step(cfg, log, deleted, e, Take(w)), w);
    }
  }
}

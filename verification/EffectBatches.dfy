/** The transition system delivers a batch in small steps; the dispatcher object delivers it in
    one call.  When nothing else runs in between, the two agree. */
module EffectBatches {
  import opened Prelude
  import opened EventLog
  import opened EffectActor
  import opened EffectDelivery

  function Queues(workers: seq<Worker>): (r: seq<seq<nat>>)
    ensures |r| == |workers|
  {
    seq(|workers|, w requires 0 <= w < |workers| => workers[w].queue)
  }

  function AsDelivery(e: Effect): Delivery {
    Delivery(e.actor.tracker, e.db, Queues(e.actor.workers), !e.actor.phase.Stopped?)
  }

  /** Deliver one event and, if it was told to a worker, record it. */
  function DeliverEvent(cfg: Config, log: Log, deleted: set<KeyId>, e: Effect): (r: Effect)
    requires WellFormed(cfg, e.actor) && e.actor.phase.Delivering?
    ensures WellFormed(cfg, r.actor)
    ensures r.actor.phase == Continue(e.actor.phase.rest[1..]) || r.actor.phase.Stopped?
  {
    var told := ActorNext(cfg, log, deleted, e.db, e.completed, e.actor, Deliver);
    ActorNext(cfg, log, deleted, told.db, told.completed, told.actor, Record)
  }

  /** Small steps until the batch is used up or the actor stops. */
  function DeliverBatch(cfg: Config, log: Log, deleted: set<KeyId>, e: Effect): Effect
    requires WellFormed(cfg, e.actor)
    decreases |Undelivered(e.actor.phase)|
  {
    if e.actor.phase.Delivering? then DeliverBatch(cfg, log, deleted, DeliverEvent(cfg, log, deleted, e)) else e
  }

  lemma DeliverEventIsDeliverOne(cfg: Config, log: Log, deleted: set<KeyId>, e: Effect)
    requires WellFormed(cfg, e.actor) && e.actor.phase.Delivering?
    ensures AsDelivery(DeliverEvent(cfg, log, deleted, e)) == DeliverOne(cfg, AsDelivery(e), e.actor.phase.rest[0], deleted)
  {
    var a, r := e.actor, DeliverEvent(cfg, log, deleted, e);
    var event := Reveal(deleted, a.phase.rest[0]);
    if Skipped(event) {
      assert r.actor.workers == a.workers;
    } else {
      var w := Route(cfg, cfg.partition(event));
      assert r.actor.workers == a.workers[w := a.workers[w].(queue := a.workers[w].queue + [event.position])];
      assert Queues(r.actor.workers) == Queues(a.workers)[w := a.workers[w].queue + [event.position]];
    }
  }

  lemma {:induction false} DeliverFirst(cfg: Config, d: Delivery, batch: seq<StoredEvent<Json>>, deleted: set<KeyId>)
    requires cfg.poolSize > 0 && |d.queues| == cfg.poolSize + 1 && 0 !in d.tracker.inFlight
    requires batch != [] && forall e :: e in batch ==> e.position > 0
    ensures DeliverAll(cfg, d, batch, deleted) == DeliverAll(cfg, DeliverOne(cfg, d, batch[0], deleted), batch[1..], deleted)
    decreases |batch|
  {
    if |batch| == 1 {
      assert batch[..0] == [] && batch[1..] == [];
    } else {
      var front := batch[..|batch| - 1];
      DeliverFirst(cfg, d, front, deleted);
      assert batch[1..][..|batch[1..]| - 1] == front[1..];
    }
  }

  /** The small steps of a batch compute what the dispatcher's one call computes: the same books,
      the same persisted position, the same worker queues, and the same verdict. */
  lemma {:induction false} SmallStepsAreOneCall(cfg: Config, log: Log, deleted: set<KeyId>, e: Effect)
    requires WellFormed(cfg, e.actor) && e.actor.phase.Delivering?
    ensures
      AsDelivery(DeliverBatch(cfg, log, deleted, e)) == DeliverAll(cfg, AsDelivery(e), e.actor.phase.rest, deleted)
    decreases |e.actor.phase.rest|
  {
    var batch, r := e.actor.phase.rest, DeliverEvent(cfg, log, deleted, e);
    DeliverEventIsDeliverOne(cfg, log, deleted, e);
    DeliverFirst(cfg, AsDelivery(e), batch, deleted);
    if r.actor.phase.Delivering? {
      SmallStepsAreOneCall(cfg, log, deleted, r);
    } else if r.actor.phase.Stopped? {
      assert batch[1..][..0] == [];
      StoppedStaysStopped(cfg, AsDelivery(r), batch[1..], deleted, 0);
    }
  }
}

/** The dispatcher of an effect module: it hands events to a worker pool, takes the acks back
    in any order, and persists a watermark below which nothing is outstanding. */
module EffectActor {
  import opened Prelude
  import opened EventLog

  const MAX_IN_FLIGHT: nat := 100

  /** The dispatcher's bookkeeping.  `cursor` is the subscription's position, `last` the
      watermark as this incarnation knows it to be persisted. */
  datatype Tracker = Tracker(inFlight: set<nat>, highestCompleted: nat, cursor: nat, last: Option<nat>)

  lemma {:induction false} LeastExists(s: set<nat>, x: nat)
    requires x in s
    ensures exists m :: m in s && forall y :: y in s ==> m <= y
    decreases x
  {
    if y :| y in s && y < x {
      LeastExists(s, y);
    } else {
      assert x in s && forall y :: y in s ==> x <= y;
    }
  }

  function Least(s: set<nat>): (m: nat)
    requires s != {}
    ensures m in s && forall x :: x in s ==> m <= x
  {
    assert exists x :: x in s;
    var x :| x in s;
    LeastExists(s, x);
    var m :| m in s && forall x :: x in s ==> m <= x;
    m
  }

  function Max(a: nat, b: nat): nat {
    if a >= b then a else b
  }

  /** While anything is in flight, one below the lowest of it; once drained, the cursor (or the
      highest completed position, if that is greater). */
  function CalculateWatermark(inFlight: set<nat>, cursor: nat, highestCompleted: nat): nat
    requires 0 !in inFlight
  {
    if inFlight == {} then Max(cursor, highestCompleted) else Least(inFlight) - 1
  }

  function ResumePosition(last: Option<nat>): nat {
    match last
    case None => 0
    case Some(position) => position
  }

  /** The result of an ack: the bookkeeping, the persisted watermark, and whether the
      compare-and-set on the persisted watermark went through. */
  datatype AckOutcome = AckOutcome(tracker: Tracker, db: Option<nat>, ok: bool)

  function Acked(t: Tracker, db: Option<nat>, position: nat): AckOutcome
    requires 0 !in t.inFlight
  {
    var after := t.(inFlight := t.inFlight - {position}, highestCompleted := Max(t.highestCompleted, position));
    var watermark := CalculateWatermark(after.inFlight, after.cursor, after.highestCompleted);
    if Some(watermark) == t.last then AckOutcome(after, db, true)
    else if db != t.last then AckOutcome(after, db, false)
    else AckOutcome(after.(last := Some(watermark)), Some(watermark), true)
  }

  /** An event reported in flight and acked at once, as for one that cannot be read any more. */
  function SkipAcked(t: Tracker, db: Option<nat>, position: nat): AckOutcome
    requires 0 !in t.inFlight
    requires position != 0
  {
    Acked(t.(inFlight := t.inFlight + {position}), db, position)
  }

  /** The watermark never reaches an event in flight, and with nothing in flight it is exactly
      the cursor, as long as nothing beyond the cursor has completed. */
  lemma WatermarkIsBelowInFlight(t: Tracker, db: Option<nat>, position: nat)
    requires 0 !in t.inFlight
    requires t.highestCompleted <= t.cursor && position <= t.cursor
    ensures
      var o := Acked(t, db, position);
      && (o.ok ==> o.tracker.last.Some? && forall p :: p in o.tracker.inFlight ==> o.tracker.last.value < p)
      && (o.ok && o.tracker.inFlight == {} ==> o.tracker.last == Some(t.cursor))
      && (o.ok && o.tracker.inFlight != {} ==> o.tracker.last.value + 1 in o.tracker.inFlight)
  {}

  // ---------- routing ----------

  datatype PartitionKey = Inline | Unkeyed | Keyed(key: string)

  /** What the module and the pool fix: the subscription, the partitioning, the key hash and the
      number of keyed workers. */
  datatype Config = Config(
    query: Query,
    partition: StoredEvent<Json> -> PartitionKey,
    hash: string -> nat,
    poolSize: nat)

  /** Worker 0 is the global one; the keyed workers follow. */
  function Route(cfg: Config, key: PartitionKey): (w: nat)
    requires cfg.poolSize > 0
    ensures w <= cfg.poolSize
    ensures key.Keyed? <==> w > 0
  {
    match key
    case Inline => 0
    case Unkeyed => 0
    case Keyed(k) => 1 + cfg.hash(k) % cfg.poolSize
  }

  /** Two keys share a worker exactly when their hashes agree modulo the number of keyed workers. */
  lemma KeysShareAWorkerExactly(cfg: Config, a: string, b: string)
    requires cfg.poolSize > 0
    ensures Route(cfg, Keyed(a)) == Route(cfg, Keyed(b)) <==> cfg.hash(a) % cfg.poolSize == cfg.hash(b) % cfg.poolSize
  {}

  // ---------- the dispatcher as an object ----------

  /** The module's own database, shared by every incarnation of the module. */
  class ModuleDb {
    var lastPosition: Option<nat>

    constructor (lastPosition: Option<nat>)
      ensures this.lastPosition == lastPosition
    {
      this.lastPosition := lastPosition;
    }

    /** Sets the position if it still is what the caller expects. */
    method CompareAndSet(expected: Option<nat>, position: nat) returns (ok: bool)
      modifies this
      ensures ok <==> old(lastPosition) == expected
      ensures lastPosition == if ok then Some(position) else old(lastPosition)
    {
      ok := lastPosition == expected;
      if ok {
        lastPosition := Some(position);
      }
    }
  }

  class Dispatcher {
    const cfg: Config
    const db: ModuleDb
    var inFlight: set<nat>
    var highestCompleted: nat
    var cursor: nat
    var last: Option<nat>
    var queues: seq<seq<nat>>

    function View(): Tracker
      reads this
    {
      Tracker(inFlight, highestCompleted, cursor, last)
    }

    ghost predicate Valid()
      reads this
    {
      && cfg.poolSize > 0
      && |queues| == cfg.poolSize + 1
      && 0 !in inFlight
    }

    /** A new incarnation subscribes strictly after the persisted position. */
    constructor (cfg: Config, db: ModuleDb)
      requires cfg.poolSize > 0
      ensures Valid() && this.cfg == cfg && this.db == db
      ensures View() == Tracker({}, 0, ResumePosition(db.lastPosition), db.lastPosition)
      ensures queues == seq(cfg.poolSize + 1, i => [])
    {
      this.cfg, this.db := cfg, db;
      inFlight, highestCompleted := {}, 0;
      cursor, last := ResumePosition(db.lastPosition), db.lastPosition;
      queues := seq(cfg.poolSize + 1, i => []);
    }

    method LeastInFlight() returns (m: nat)
      requires inFlight != {}
      ensures m == Least(inFlight)
    {
      m :| m in inFlight;
      var rest := inFlight - {m};
      while rest != {}
        invariant rest <= inFlight && m in inFlight
        invariant forall x :: x in inFlight && x !in rest ==> m <= x
        decreases rest
      {
        var x :| x in rest;
        if x < m {
          m := x;
        }
        rest := rest - {x};
      }
    }

    method HandleAck(position: nat) returns (ok: bool)
      requires Valid()
      modifies this, db
      ensures Valid() && queues == old(queues)
      ensures AckOutcome(View(), db.lastPosition, ok) == Acked(old(View()), old(db.lastPosition), position)
    {
      inFlight := inFlight - {position};
      if highestCompleted < position {
        highestCompleted := position;
      }
      var watermark := if cursor >= highestCompleted then cursor else highestCompleted;
      if inFlight != {} {
        var least := LeastInFlight();
        watermark := least - 1;
      }
      if Some(watermark) != last {
        ok := db.CompareAndSet(last, watermark);
        if !ok {
          return;
        }
        last := Some(watermark);
      }
      return true;
    }

    /** Delivers one batch: unreadable events are acked on the spot, the others are told to the
        worker of their partition and put in flight.  Stops at a lost compare-and-set. */
    method ProcessBatch(batch: seq<StoredEvent<Json>>, deleted: set<KeyId>) returns (ok: bool)
      requires Valid()
      requires forall e :: e in batch ==> e.position > 0
      modifies this, db
      ensures Valid()
      ensures Delivery(View(), db.lastPosition, queues, ok)
           == DeliverAll(cfg, Delivery(old(View()), old(db.lastPosition), old(queues), true), batch, deleted)
    {
      ghost var start := Delivery(View(), db.lastPosition, queues, true);
      assert batch[..0] == [];
      for i := 0 to |batch|
        invariant Valid()
        invariant Delivery(View(), db.lastPosition, queues, true) == DeliverAll(cfg, start, batch[..i], deleted)
      {
        var event := Reveal(deleted, batch[i]);
        assert batch[..i + 1][..i] == batch[..i];
        assert batch[i] in batch;
        if Skipped(event) {
          inFlight := inFlight + {event.position};
          var acked := HandleAck(event.position);
          if !acked {
            StoppedStaysStopped(cfg, start, batch, deleted, i + 1);
            return false;
          }
        } else {
          var worker := Route(cfg, cfg.partition(event));
          queues := queues[worker := queues[worker] + [event.position]];
          inFlight := inFlight + {event.position};
        }
      }
      assert batch[..|batch|] == batch;
      return true;
    }
  }

  // ---------- what delivering a batch computes ----------

  datatype Delivery = Delivery(tracker: Tracker, db: Option<nat>, queues: seq<seq<nat>>, ok: bool)

  function DeliverOne(cfg: Config, d: Delivery, raw: StoredEvent<Json>, deleted: set<KeyId>): (r: Delivery)
    requires cfg.poolSize > 0 && |d.queues| == cfg.poolSize + 1 && 0 !in d.tracker.inFlight && raw.position > 0
    ensures |r.queues| == cfg.poolSize + 1 && 0 !in r.tracker.inFlight
  {
    var event := Reveal(deleted, raw);
    if !d.ok then d
    else if Skipped(event) then
      var o := SkipAcked(d.tracker, d.db, event.position);
      Delivery(o.tracker, o.db, d.queues, o.ok)
    else
      var worker := Route(cfg, cfg.partition(event));
      d.(tracker := d.tracker.(inFlight := d.tracker.inFlight + {event.position}),
         queues := d.queues[worker := d.queues[worker] + [event.position]])
  }

  function DeliverAll(cfg: Config, d: Delivery, batch: seq<StoredEvent<Json>>, deleted: set<KeyId>): (r: Delivery)
    requires cfg.poolSize > 0 && |d.queues| == cfg.poolSize + 1 && 0 !in d.tracker.inFlight
    requires forall e :: e in batch ==> e.position > 0
    ensures |r.queues| == cfg.poolSize + 1 && 0 !in r.tracker.inFlight
  {
    if batch == [] then d
    else DeliverOne(cfg, DeliverAll(cfg, d, batch[..|batch| - 1], deleted), batch[|batch| - 1], deleted)
  }

  /** Exactly which events reach a worker, in terms of the event as it lies in the log.  One with a
      scope whose payload is null or whose key is gone reaches none and leaves what is in flight as it
      was; every other one goes to the end of the queue of its partition's worker, and is in flight. */
  lemma DeliveredExactly(cfg: Config, d: Delivery, raw: StoredEvent<Json>, deleted: set<KeyId>)
    requires cfg.poolSize > 0 && |d.queues| == cfg.poolSize + 1 && 0 !in d.tracker.inFlight && raw.position > 0
    requires d.ok && raw.position !in d.tracker.inFlight
    ensures
      var gone := raw.encryptionKeyId.Some? && raw.encryptionKeyId.value in deleted;
      var seen := raw.(data := if gone then Null else raw.data);
      var r := DeliverOne(cfg, d, raw, deleted);
      if raw.encryptionScope.Some? && (raw.data == Null || gone)
      then r.queues == d.queues && r.tracker.inFlight == d.tracker.inFlight
      else
        var w := Route(cfg, cfg.partition(seen));
        && r.queues == d.queues[w := d.queues[w] + [raw.position]]
        && r.tracker == d.tracker.(inFlight := d.tracker.inFlight + {raw.position})
        && r.db == d.db && r.ok
  {
    SeenExactly(deleted, raw);
    assert d.tracker.inFlight + {raw.position} - {raw.position} == d.tracker.inFlight;
  }

  lemma {:induction false} StoppedStaysStopped(
      cfg: Config, d: Delivery, batch: seq<StoredEvent<Json>>, deleted: set<KeyId>, k: nat)
    requires cfg.poolSize > 0 && |d.queues| == cfg.poolSize + 1 && 0 !in d.tracker.inFlight
    requires forall e :: e in batch ==> e.position > 0
    requires k <= |batch| && !DeliverAll(cfg, d, batch[..k], deleted).ok
    ensures DeliverAll(cfg, d, batch, deleted) == DeliverAll(cfg, d, batch[..k], deleted)
    decreases |batch|
  {
    if k == |batch| {
      assert batch[..k] == batch;
    } else {
      var front := batch[..|batch| - 1];
      assert front[..k] == batch[..k];
      StoppedStaysStopped(cfg, d, front, deleted, k);
    }
  }
}

/** What single steps of effect delivery keep: that everything live up to the cursor is
    completed or accounted for, so that only safe watermarks are written, and that watermarks
    only rise.  `EffectRuns` puts the steps together. */
module EffectGuarantees {
  import opened Prelude
  import opened EventLog
  import opened EffectActor
  import opened EffectDelivery

  // ---------- shapes of steps ----------

  predicate InBatch(batch: seq<StoredEvent<Json>>, p: nat) {
    exists i :: 0 <= i < |batch| && batch[i].position == p
  }

  function Outstanding(a: Actor): set<nat> {
    a.tracker.inFlight + ToldSet(a.phase)
  }

  ghost predicate Ahead(inFlight: set<nat>, batch: seq<StoredEvent<Json>>) {
    forall p, i :: p in inFlight && 0 <= i < |batch| ==> p < batch[i].position
  }

  /** What is in flight lies behind the cursor and the rest of the batch. */
  ghost predicate InStep(cfg: Config, log: Log, a: Actor) {
    && WellFormed(cfg, a)
    && a.tracker.highestCompleted <= a.tracker.cursor <= |log|
    && (forall p :: p in a.tracker.inFlight ==> p <= a.tracker.cursor)
    && Ahead(a.tracker.inFlight, Undelivered(a.phase))
    && BatchOk(cfg, log, Undelivered(a.phase), a.start, a.tracker.cursor)
  }

  lemma ActorIsInStep(cfg: Config, log: Log, completed: set<nat>, a: Actor)
    requires ActorOk(cfg, log, completed, a) && !a.phase.Stopped?
    ensures InStep(cfg, log, a)
  {
    assert forall p :: p in a.tracker.inFlight ==> p in a.dispatched;
  }

  lemma TailOfBatch(cfg: Config, log: Log, batch: seq<StoredEvent<Json>>, after: nat, upto: nat)
    requires BatchOk(cfg, log, batch, after, upto) && batch != []
    ensures BatchOk(cfg, log, batch[1..], after, upto)
  {
    var rest := batch[1..];
    assert forall i :: 0 <= i < |rest| ==> rest[i] == batch[i + 1];
  }

  lemma SkipShape(cfg: Config, deleted: set<KeyId>, db: Option<nat>, completed: set<nat>, a: Actor)
    requires WellFormed(cfg, a) && a.phase.Delivering? && Skipped(Reveal(deleted, a.phase.rest[0]))
    ensures
      var o := SkipAcked(a.tracker, db, a.phase.rest[0].position);
      DeliverNext(cfg, deleted, db, completed, a)
      == Effect(a.(tracker := o.tracker, phase := if o.ok then Continue(a.phase.rest[1..]) else Stopped), o.db, completed)
  {}

  lemma TellShape(cfg: Config, deleted: set<KeyId>, db: Option<nat>, completed: set<nat>, a: Actor)
    requires WellFormed(cfg, a) && a.phase.Delivering? && !Skipped(Reveal(deleted, a.phase.rest[0]))
    ensures
      var o := DeliverNext(cfg, deleted, db, completed, a);
      && o.actor.tracker == a.tracker && o.actor.phase == Told(a.phase.rest[0].position, a.phase.rest[1..])
      && o.db == db && o.completed == completed
  {}

  lemma AckShape(cfg: Config, log: Log, deleted: set<KeyId>, db: Option<nat>, completed: set<nat>, a: Actor)
    requires WellFormed(cfg, a) && a.phase.Ready? && a.acks != [] && a.acks[0].Done?
    ensures
      var o := Acked(a.tracker, db, a.acks[0].position);
      var e := ActorNext(cfg, log, deleted, db, completed, a, HandleAck);
      e.actor.tracker == o.tracker && e.actor.phase == (if o.ok then Ready else Stopped) && e.db == o.db && e.completed == completed
  {}

  lemma WorkerShape(
    cfg: Config, log: Log, deleted: set<KeyId>, db: Option<nat>, completed: set<nat>, a: Actor, step: ActorStep)
    requires WellFormed(cfg, a) && (step.Take? || step.Finish? || step.SendAck? || step.Fail? || step.Stop?)
    ensures
      var o := ActorNext(cfg, log, deleted, db, completed, a, step);
      && o.actor.tracker == a.tracker && (o.actor.phase == a.phase || o.actor.phase.Stopped?)
      && completed <= o.completed && o.db == db
  {}

  /** The steps that neither deliver an event nor handle an ack leave the database alone. */
  lemma QuietStep(
    cfg: Config, log: Log, deleted: set<KeyId>, db: Option<nat>, completed: set<nat>, a: Actor, step: ActorStep)
    requires WellFormed(cfg, a)
    requires step.Deliver? ==> a.phase.Delivering? ==> !Skipped(Reveal(deleted, a.phase.rest[0]))
    requires step.HandleAck? ==> !(a.phase.Ready? && a.acks != [] && a.acks[0].Done?)
    ensures ActorNext(cfg, log, deleted, db, completed, a, step).db == db
  {}

  // ---------- coverage ----------

  /** Every live event up to the cursor is completed or still accounted for. */
  ghost predicate Covered(
    cfg: Config, log: Log, deleted: set<KeyId>, completed: set<nat>, cursor: nat, inFlight: set<nat>, batch: seq<StoredEvent<Json>>)
  {
    forall p: nat :: p <= cursor && Live(cfg, log, deleted, p) ==> p in completed || p in inFlight || InBatch(batch, p)
  }

  ghost predicate ActorCovered(cfg: Config, log: Log, deleted: set<KeyId>, completed: set<nat>, a: Actor) {
    !a.phase.Stopped? ==>
      Covered(cfg, log, deleted, completed, a.tracker.cursor, Outstanding(a), Undelivered(a.phase))
  }

  ghost predicate CompletedUpTo(cfg: Config, log: Log, deleted: set<KeyId>, completed: set<nat>, watermark: nat) {
    forall p: nat :: p <= watermark && Live(cfg, log, deleted, p) ==> p in completed
  }

  ghost predicate Lossless(cfg: Config, log: Log, deleted: set<KeyId>, completed: set<nat>, db: Option<nat>) {
    db.Some? ==> db.value <= |log| && CompletedUpTo(cfg, log, deleted, completed, db.value)
  }

  /** The heart of the matter: with everything accounted for and the rest of the batch ahead of
      what is in flight, everything live up to the new watermark is completed, provided that a
      drained pool leaves nothing to be done in the batch. */
  lemma WatermarkIsSafe(
    cfg: Config, log: Log, deleted: set<KeyId>, completed: set<nat>,
    inFlight: set<nat>, cursor: nat, highestCompleted: nat, start: nat, batch: seq<StoredEvent<Json>>)
    requires 0 !in inFlight && highestCompleted <= cursor && forall p :: p in inFlight ==> p <= cursor
    requires Covered(cfg, log, deleted, completed, cursor, inFlight, batch)
    requires BatchOk(cfg, log, batch, start, cursor) && Ahead(inFlight, batch)
    requires inFlight == {} ==> NothingToDo(deleted, completed, batch)
    ensures CompletedUpTo(cfg, log, deleted, completed, CalculateWatermark(inFlight, cursor, highestCompleted))
  {
    var watermark := CalculateWatermark(inFlight, cursor, highestCompleted);
    forall p: nat | p <= watermark && Live(cfg, log, deleted, p) ensures p in completed {
      if i :| 0 <= i < |batch| && batch[i].position == p {
        assert batch[i] in batch;
      }
    }
  }

  /** The cursor is a safe watermark exactly when nothing in the batch is still to be done. */
  lemma CursorIsSafeExactly(
    cfg: Config, log: Log, deleted: set<KeyId>, completed: set<nat>, start: nat, cursor: nat, batch: seq<StoredEvent<Json>>)
    requires BatchOk(cfg, log, batch, start, cursor) && Covered(cfg, log, deleted, completed, cursor, {}, batch)
    ensures CompletedUpTo(cfg, log, deleted, completed, cursor) <==> NothingToDo(deleted, completed, batch)
  {
    if CompletedUpTo(cfg, log, deleted, completed, cursor) {
      forall e | e in batch && !Skipped(Reveal(deleted, e)) ensures e.position in completed {
        var i :| 0 <= i < |batch| && batch[i] == e;
        assert Live(cfg, log, deleted, e.position);
      }
    }
    if NothingToDo(deleted, completed, batch) {
      WatermarkIsSafe(cfg, log, deleted, completed, {}, cursor, 0, start, batch);
    }
  }

  /** An ack persists a safe watermark, or leaves the database alone. */
  lemma AckIsLossless(
    cfg: Config, log: Log, deleted: set<KeyId>, completed: set<nat>,
    t: Tracker, db: Option<nat>, position: nat, start: nat, batch: seq<StoredEvent<Json>>)
    requires 0 !in t.inFlight && t.highestCompleted <= t.cursor && position <= t.cursor
    requires forall p :: p in t.inFlight ==> p <= t.cursor
    requires Covered(cfg, log, deleted, completed, t.cursor, t.inFlight - {position}, batch)
    requires BatchOk(cfg, log, batch, start, t.cursor) && Ahead(t.inFlight - {position}, batch)
    requires t.inFlight - {position} == {} && t.last == db && t.last != Some(t.cursor) ==> NothingToDo(deleted, completed, batch)
    ensures
      var o := Acked(t, db, position);
      o.db != db ==> o.db.Some? && o.db.value <= t.cursor && CompletedUpTo(cfg, log, deleted, completed, o.db.value)
  {
    var inFlight := t.inFlight - {position};
    var highest := Max(t.highestCompleted, position);
    if Acked(t, db, position).db != db {
      WatermarkIsSafe(cfg, log, deleted, completed, inFlight, t.cursor, highest, start, batch);
    }
  }

  // ---------- each step keeps coverage ----------

  lemma FetchCovers(
    cfg: Config, log: Log, deleted: set<KeyId>, completed: set<nat>, cursor: nat, outstanding: set<nat>, upto: nat)
    requires cursor <= upto <= |log| && Covered(cfg, log, deleted, completed, cursor, outstanding, [])
    ensures Covered(cfg, log, deleted, completed, upto, outstanding, ReadRange(log, cfg.query, cursor, upto))
  {
    var batch := ReadRange(log, cfg.query, cursor, upto);
    forall p: nat | p <= upto && Live(cfg, log, deleted, p)
      ensures p in completed || p in outstanding || InBatch(batch, p)
    {
      if p > cursor {
        ReadIsComplete(log, cfg.query, cursor, upto, p);
        var i :| 0 <= i < |batch| && batch[i] == Stored(log[p - 1], p);
        assert InBatch(batch, p);
      }
    }
  }

  /** Moving the first event of the batch out of it keeps coverage when the event is skipped. */
  lemma SkipCovers(
    cfg: Config, log: Log, deleted: set<KeyId>, completed: set<nat>, start: nat, cursor: nat, inFlight: set<nat>,
    batch: seq<StoredEvent<Json>>)
    requires batch != [] && BatchOk(cfg, log, batch, start, cursor) && Skipped(Reveal(deleted, batch[0]))
    requires Covered(cfg, log, deleted, completed, cursor, inFlight, batch)
    ensures Covered(cfg, log, deleted, completed, cursor, inFlight, batch[1..])
  {
    forall p: nat | p <= cursor && Live(cfg, log, deleted, p)
      ensures p in completed || p in inFlight || InBatch(batch[1..], p)
    {
      if InBatch(batch, p) {
        var i :| 0 <= i < |batch| && batch[i].position == p;
        assert i != 0;
        assert batch[1..][i - 1] == batch[i];
      }
    }
  }

  lemma TellCovers(
    cfg: Config, log: Log, deleted: set<KeyId>, completed: set<nat>, cursor: nat, inFlight: set<nat>, batch: seq<StoredEvent<Json>>)
    requires batch != [] && Covered(cfg, log, deleted, completed, cursor, inFlight, batch)
    ensures Covered(cfg, log, deleted, completed, cursor, inFlight + {batch[0].position}, batch[1..])
  {
    forall p: nat | p <= cursor && Live(cfg, log, deleted, p)
      ensures p in completed || p in inFlight + {batch[0].position} || InBatch(batch[1..], p)
    {
      if InBatch(batch, p) && p != batch[0].position {
        var i :| 0 <= i < |batch| && batch[i].position == p;
        assert batch[1..][i - 1] == batch[i];
      }
    }
  }

  lemma AssembleCovered(
    cfg: Config, log: Log, deleted: set<KeyId>, completed: set<nat>, a: Actor,
    cursor: nat, outstanding: set<nat>, batch: seq<StoredEvent<Json>>)
    requires !a.phase.Stopped? ==>
               && a.tracker.cursor == cursor && Outstanding(a) == outstanding && Undelivered(a.phase) == batch
               && Covered(cfg, log, deleted, completed, cursor, outstanding, batch)
    ensures ActorCovered(cfg, log, deleted, completed, a)
  {}

  lemma FetchKeepsCovered(cfg: Config, log: Log, deleted: set<KeyId>, db: Option<nat>, completed: set<nat>, a: Actor, upto: nat)
    requires WellFormed(cfg, a) && ActorCovered(cfg, log, deleted, completed, a)
    ensures ActorCovered(cfg, log, deleted, completed, ActorNext(cfg, log, deleted, db, completed, a, Fetch(upto)).actor)
  {
    var cursor := a.tracker.cursor;
    if a.phase.Ready? && |a.tracker.inFlight| <= MAX_IN_FLIGHT && cursor <= upto <= |log| {
      FetchCovers(cfg, log, deleted, completed, cursor, Outstanding(a), upto);
      AssembleCovered(cfg, log, deleted, completed, ActorNext(cfg, log, deleted, db, completed, a, Fetch(upto)).actor,
                      upto, Outstanding(a), ReadRange(log, cfg.query, cursor, upto));
    }
  }

  lemma SkipIsLossless(
    cfg: Config, log: Log, deleted: set<KeyId>, completed: set<nat>,
    t: Tracker, db: Option<nat>, start: nat, batch: seq<StoredEvent<Json>>)
    requires 0 !in t.inFlight && t.highestCompleted <= t.cursor && forall p :: p in t.inFlight ==> p <= t.cursor
    requires batch != [] && BatchOk(cfg, log, batch, start, t.cursor) && Ahead(t.inFlight, batch)
    requires batch[0].position != 0 && Skipped(Reveal(deleted, batch[0]))
    requires t.inFlight == {} && t.last == db && t.last != Some(t.cursor) ==> NothingToDo(deleted, completed, batch[1..])
    requires Covered(cfg, log, deleted, completed, t.cursor, t.inFlight, batch)
    ensures Covered(cfg, log, deleted, completed, t.cursor, t.inFlight, batch[1..])
    ensures
      var o := SkipAcked(t, db, batch[0].position);
      && o.tracker.inFlight == t.inFlight && o.tracker.cursor == t.cursor
      && (o.db != db ==> o.db.Some? && o.db.value <= t.cursor && CompletedUpTo(cfg, log, deleted, completed, o.db.value))
  {
    var p, rest := batch[0].position, batch[1..];
    assert forall i :: 0 <= i < |rest| ==> rest[i] == batch[i + 1];
    TailOfBatch(cfg, log, batch, start, t.cursor);
    SkipCovers(cfg, log, deleted, completed, start, t.cursor, t.inFlight, batch);
    assert p !in t.inFlight;
    assert t.inFlight + {p} - {p} == t.inFlight;
    AckIsLossless(cfg, log, deleted, completed, t.(inFlight := t.inFlight + {p}), db, p, start, rest);
  }

  lemma SkipKeepsCovered(cfg: Config, log: Log, deleted: set<KeyId>, db: Option<nat>, completed: set<nat>, a: Actor)
    requires InStep(cfg, log, a) && ActorCovered(cfg, log, deleted, completed, a) && a.phase.Delivering?
    requires Skipped(Reveal(deleted, a.phase.rest[0])) && SkipIsExact(deleted, db, completed, a)
    requires Lossless(cfg, log, deleted, completed, db)
    ensures
      var o := DeliverNext(cfg, deleted, db, completed, a);
      ActorCovered(cfg, log, deleted, completed, o.actor) && Lossless(cfg, log, deleted, completed, o.db)
  {
    var t, batch := a.tracker, a.phase.rest;
    assert Outstanding(a) == t.inFlight;
    SkipIsLossless(cfg, log, deleted, completed, t, db, a.start, batch);
    SkipShape(cfg, deleted, db, completed, a);
    var next := DeliverNext(cfg, deleted, db, completed, a).actor;
    assert !next.phase.Stopped? ==> Outstanding(next) == t.inFlight && Undelivered(next.phase) == batch[1..];
    AssembleCovered(cfg, log, deleted, completed, next, t.cursor, t.inFlight, batch[1..]);
  }

  lemma TellKeepsCovered(cfg: Config, log: Log, deleted: set<KeyId>, db: Option<nat>, completed: set<nat>, a: Actor)
    requires InStep(cfg, log, a) && ActorCovered(cfg, log, deleted, completed, a) && a.phase.Delivering?
    requires !Skipped(Reveal(deleted, a.phase.rest[0]))
    ensures ActorCovered(cfg, log, deleted, completed, DeliverNext(cfg, deleted, db, completed, a).actor)
  {
    var t, batch := a.tracker, a.phase.rest;
    var p, rest := batch[0].position, batch[1..];
    assert Outstanding(a) == t.inFlight;
    TellCovers(cfg, log, deleted, completed, t.cursor, t.inFlight, batch);
    TellShape(cfg, deleted, db, completed, a);
    AssembleCovered(cfg, log, deleted, completed, DeliverNext(cfg, deleted, db, completed, a).actor,
                    t.cursor, t.inFlight + {p}, rest);
  }

  lemma DeliverKeepsCovered(cfg: Config, log: Log, deleted: set<KeyId>, db: Option<nat>, completed: set<nat>, a: Actor)
    requires ActorOk(cfg, log, completed, a) && ActorCovered(cfg, log, deleted, completed, a) && a.phase.Delivering?
    requires Lossless(cfg, log, deleted, completed, db) && SkipIsExact(deleted, db, completed, a)
    ensures
      var o := DeliverNext(cfg, deleted, db, completed, a);
      && ActorCovered(cfg, log, deleted, completed, o.actor) && o.completed == completed
      && Lossless(cfg, log, deleted, completed, o.db)
  {
    ActorIsInStep(cfg, log, completed, a);
    if Skipped(Reveal(deleted, a.phase.rest[0])) {
      SkipKeepsCovered(cfg, log, deleted, db, completed, a);
      SkipShape(cfg, deleted, db, completed, a);
    } else {
      TellKeepsCovered(cfg, log, deleted, db, completed, a);
      TellShape(cfg, deleted, db, completed, a);
    }
  }

  lemma AckedCovers(
      cfg: Config, log: Log, deleted: set<KeyId>, completed: set<nat>, cursor: nat, inFlight: set<nat>, position: nat)
    requires position in completed && Covered(cfg, log, deleted, completed, cursor, inFlight, [])
    ensures Covered(cfg, log, deleted, completed, cursor, inFlight - {position}, [])
  {}

  lemma AckLeavesCovered(cfg: Config, log: Log, deleted: set<KeyId>, db: Option<nat>, completed: set<nat>, a: Actor)
    requires InStep(cfg, log, a) && ActorCovered(cfg, log, deleted, completed, a)
    requires a.phase.Ready? && a.acks != [] && a.acks[0].Done?
    requires a.acks[0].position in completed && a.acks[0].position <= a.tracker.cursor
    requires Lossless(cfg, log, deleted, completed, db)
    ensures
      var o := ActorNext(cfg, log, deleted, db, completed, a, HandleAck);
      && ActorCovered(cfg, log, deleted, completed, o.actor) && o.completed == completed
      && Lossless(cfg, log, deleted, completed, o.db)
  {
    var t, p := a.tracker, a.acks[0].position;
    assert Outstanding(a) == t.inFlight;
    AckedCovers(cfg, log, deleted, completed, t.cursor, t.inFlight, p);
    AckIsLossless(cfg, log, deleted, completed, t, db, p, a.start, []);
    AckShape(cfg, log, deleted, db, completed, a);
    var next := ActorNext(cfg, log, deleted, db, completed, a, HandleAck).actor;
    assert Outstanding(next) == t.inFlight - {p};
    AssembleCovered(cfg, log, deleted, completed, next, t.cursor, t.inFlight - {p}, []);
  }

  lemma HandleAckKeepsCovered(cfg: Config, log: Log, deleted: set<KeyId>, db: Option<nat>, completed: set<nat>, a: Actor)
    requires ActorOk(cfg, log, completed, a) && ActorCovered(cfg, log, deleted, completed, a)
    requires Lossless(cfg, log, deleted, completed, db)
    ensures
      var o := ActorNext(cfg, log, deleted, db, completed, a, HandleAck);
      && ActorCovered(cfg, log, deleted, completed, o.actor) && o.completed == completed
      && Lossless(cfg, log, deleted, completed, o.db)
  {
    if a.phase.Ready? && a.acks != [] && a.acks[0].Done? {
      assert a.acks[0].position in completed && a.acks[0].position <= a.tracker.cursor by {
        assert AckOk(a.acks[0], a.dispatched, completed);
      }
      ActorIsInStep(cfg, log, completed, a);
      AckLeavesCovered(cfg, log, deleted, db, completed, a);
    }
  }

  lemma RecordKeepsCovered(cfg: Config, log: Log, deleted: set<KeyId>, db: Option<nat>, completed: set<nat>, a: Actor)
    requires WellFormed(cfg, a) && ActorCovered(cfg, log, deleted, completed, a)
    ensures ActorCovered(cfg, log, deleted, completed, ActorNext(cfg, log, deleted, db, completed, a, Record).actor)
  {
    if a.phase.Told? {
      var next := ActorNext(cfg, log, deleted, db, completed, a, Record).actor;
      assert Outstanding(next) == Outstanding(a);
      AssembleCovered(cfg, log, deleted, completed, next, a.tracker.cursor, Outstanding(a), Undelivered(a.phase));
    }
  }

  lemma MoreCompletedKeepsCovered(
    cfg: Config, log: Log, deleted: set<KeyId>, completed: set<nat>, more: set<nat>, a: Actor, next: Actor)
    requires ActorCovered(cfg, log, deleted, completed, a) && completed <= more
    requires next.tracker == a.tracker && (next.phase == a.phase || next.phase.Stopped?)
    ensures ActorCovered(cfg, log, deleted, more, next)
  {}

  lemma LosslessGrows(cfg: Config, log: Log, deleted: set<KeyId>, completed: set<nat>, more: set<nat>, db: Option<nat>)
    requires Lossless(cfg, log, deleted, completed, db) && completed <= more
    ensures Lossless(cfg, log, deleted, more, db)
  {}

  /** Every exact step of an actor keeps everything up to its cursor accounted for and writes only
      watermarks below which everything live is completed. */
  lemma ActorNextKeepsCovered(
    cfg: Config, log: Log, deleted: set<KeyId>, db: Option<nat>, completed: set<nat>, a: Actor, step: ActorStep)
    requires ActorOk(cfg, log, completed, a) && ActorCovered(cfg, log, deleted, completed, a)
    requires Lossless(cfg, log, deleted, completed, db)
    requires step.Deliver? ==> SkipIsExact(deleted, db, completed, a)
    ensures
      var o := ActorNext(cfg, log, deleted, db, completed, a, step);
      ActorCovered(cfg, log, deleted, o.completed, o.actor) && Lossless(cfg, log, deleted, o.completed, o.db)
  {
    match step
    case Fetch(upto) => FetchKeepsCovered(cfg, log, deleted, db, completed, a, upto);
    case Deliver =>
      if a.phase.Delivering? {
        DeliverKeepsCovered(cfg, log, deleted, db, completed, a);
      }
    case Record => RecordKeepsCovered(cfg, log, deleted, db, completed, a);
    case HandleAck => HandleAckKeepsCovered(cfg, log, deleted, db, completed, a);
    case _ =>
      var o := ActorNext(cfg, log, deleted, db, completed, a, step);
      WorkerShape(cfg, log, deleted, db, completed, a, step);
      MoreCompletedKeepsCovered(cfg, log, deleted, completed, o.completed, a, o.actor);
      LosslessGrows(cfg, log, deleted, completed, o.completed, db);
  }

  lemma SkipPersistsCursor(cfg: Config, log: Log, deleted: set<KeyId>, db: Option<nat>, completed: set<nat>, a: Actor)
    requires InStep(cfg, log, a) && SkipWritesCursor(deleted, db, a)
    ensures
      var o := DeliverNext(cfg, deleted, db, completed, a);
      o.db == Some(a.tracker.cursor) && o.completed == completed
  {
    var p := a.phase.rest[0].position;
    SkipShape(cfg, deleted, db, completed, a);
    assert a.tracker.inFlight + {p} - {p} == {};
  }

  /** A skip that writes the cursor loses nothing exactly when nothing behind it in the batch is
      still to be done. */
  lemma SkipLosesNothingExactly(cfg: Config, log: Log, deleted: set<KeyId>, db: Option<nat>, completed: set<nat>, a: Actor)
    requires ActorOk(cfg, log, completed, a) && ActorCovered(cfg, log, deleted, completed, a)
    requires SkipWritesCursor(deleted, db, a)
    ensures
      var o := DeliverNext(cfg, deleted, db, completed, a);
      && o.db == Some(a.tracker.cursor) && o.completed == completed
      && (CompletedUpTo(cfg, log, deleted, completed, a.tracker.cursor)
          <==> NothingToDo(deleted, completed, a.phase.rest[1..]))
  {
    var cursor, batch := a.tracker.cursor, a.phase.rest;
    ActorIsInStep(cfg, log, completed, a);
    SkipPersistsCursor(cfg, log, deleted, db, completed, a);
    assert Outstanding(a) == {};
    TailOfBatch(cfg, log, batch, a.start, cursor);
    SkipCovers(cfg, log, deleted, completed, a.start, cursor, {}, batch);
    CursorIsSafeExactly(cfg, log, deleted, completed, a.start, cursor, batch[1..]);
  }

  // ---------- rising watermarks ----------

  /** The persisted watermark is below everything that is still to be delivered or acked. */
  ghost predicate LowEnough(
      deleted: set<KeyId>, last: Option<nat>, cursor: nat, inFlight: set<nat>, batch: seq<StoredEvent<Json>>) {
    last.Some? ==>
      && last.value <= cursor
      && (forall p :: p in inFlight ==> last.value < p)
      && forall i :: 0 <= i < |batch| && !Skipped(Reveal(deleted, batch[i])) ==> last.value < batch[i].position
  }

  ghost predicate ActorLow(deleted: set<KeyId>, a: Actor) {
    !a.phase.Stopped? ==> LowEnough(deleted, a.tracker.last, a.tracker.cursor, Outstanding(a), Undelivered(a.phase))
  }

  ghost predicate AllSkipped(deleted: set<KeyId>, batch: seq<StoredEvent<Json>>) {
    forall i :: 0 <= i < |batch| ==> Skipped(Reveal(deleted, batch[i]))
  }

  ghost predicate Raised(before: Option<nat>, after: Option<nat>) {
    before.Some? ==> after.Some? && before.value <= after.value
  }

  /** An ack with the rest of the batch ahead keeps the mark low enough and never lowers the
      persisted one, provided that a drained pool has nothing readable left in the batch. */
  lemma AckRaises(deleted: set<KeyId>, t: Tracker, db: Option<nat>, position: nat, batch: seq<StoredEvent<Json>>)
    requires 0 !in t.inFlight && t.highestCompleted <= t.cursor && position <= t.cursor
    requires forall p :: p in t.inFlight ==> p <= t.cursor
    requires LowEnough(deleted, t.last, t.cursor, t.inFlight - {position}, batch) && Ahead(t.inFlight - {position}, batch)
    requires t.inFlight - {position} == {} ==> AllSkipped(deleted, batch)
    ensures
      var o := Acked(t, db, position);
      && (o.ok ==> LowEnough(deleted, o.tracker.last, t.cursor, o.tracker.inFlight, batch))
      && Raised(db, o.db)
  {}

  lemma AssembleLow(
    deleted: set<KeyId>, a: Actor, last: Option<nat>, cursor: nat, outstanding: set<nat>, batch: seq<StoredEvent<Json>>)
    requires !a.phase.Stopped? ==>
               && a.tracker.cursor == cursor && a.tracker.last == last
               && Outstanding(a) == outstanding && Undelivered(a.phase) == batch
               && LowEnough(deleted, last, cursor, outstanding, batch)
    ensures ActorLow(deleted, a)
  {}

  lemma FetchKeepsLow(cfg: Config, log: Log, deleted: set<KeyId>, db: Option<nat>, completed: set<nat>, a: Actor, upto: nat)
    requires WellFormed(cfg, a) && ActorLow(deleted, a)
    ensures ActorLow(deleted, ActorNext(cfg, log, deleted, db, completed, a, Fetch(upto)).actor)
  {
    var cursor := a.tracker.cursor;
    if a.phase.Ready? && |a.tracker.inFlight| <= MAX_IN_FLIGHT && cursor <= upto <= |log| {
      ReadIsBatch(cfg, log, cursor, upto);
      AssembleLow(deleted, ActorNext(cfg, log, deleted, db, completed, a, Fetch(upto)).actor,
                  a.tracker.last, upto, Outstanding(a), ReadRange(log, cfg.query, cursor, upto));
    }
  }

  lemma SkipRaises(deleted: set<KeyId>, t: Tracker, db: Option<nat>, batch: seq<StoredEvent<Json>>)
    requires 0 !in t.inFlight && t.highestCompleted <= t.cursor && forall p :: p in t.inFlight ==> p <= t.cursor
    requires batch != [] && Ahead(t.inFlight, batch) && 0 < batch[0].position <= t.cursor
    requires t.inFlight == {} ==> AllSkipped(deleted, batch[1..])
    requires LowEnough(deleted, t.last, t.cursor, t.inFlight, batch)
    ensures
      var o := SkipAcked(t, db, batch[0].position);
      && o.tracker.inFlight == t.inFlight && o.tracker.cursor == t.cursor
      && (o.ok ==> LowEnough(deleted, o.tracker.last, t.cursor, t.inFlight, batch[1..]))
      && Raised(db, o.db)
  {
    var p, rest := batch[0].position, batch[1..];
    assert forall i :: 0 <= i < |rest| ==> rest[i] == batch[i + 1];
    assert p !in t.inFlight;
    assert t.inFlight + {p} - {p} == t.inFlight;
    AckRaises(deleted, t.(inFlight := t.inFlight + {p}), db, p, rest);
  }

  lemma SkipKeepsLow(cfg: Config, log: Log, deleted: set<KeyId>, db: Option<nat>, completed: set<nat>, a: Actor)
    requires InStep(cfg, log, a) && ActorLow(deleted, a) && a.phase.Delivering?
    requires Skipped(Reveal(deleted, a.phase.rest[0])) && SkipIsSafe(deleted, a)
    ensures
      var o := DeliverNext(cfg, deleted, db, completed, a);
      ActorLow(deleted, o.actor) && Raised(db, o.db)
  {
    var t, batch := a.tracker, a.phase.rest;
    var rest := batch[1..];
    assert Outstanding(a) == t.inFlight;
    assert t.inFlight == {} ==> AllSkipped(deleted, rest) by {
      assert forall i :: 0 <= i < |rest| ==> rest[i] in rest;
    }
    SkipRaises(deleted, t, db, batch);
    SkipShape(cfg, deleted, db, completed, a);
    var o := SkipAcked(t, db, batch[0].position);
    var next := DeliverNext(cfg, deleted, db, completed, a).actor;
    assert !next.phase.Stopped? ==> Outstanding(next) == t.inFlight && Undelivered(next.phase) == rest;
    AssembleLow(deleted, next, o.tracker.last, t.cursor, t.inFlight, rest);
  }

  lemma TellKeepsLow(cfg: Config, deleted: set<KeyId>, db: Option<nat>, completed: set<nat>, a: Actor)
    requires WellFormed(cfg, a) && ActorLow(deleted, a) && a.phase.Delivering?
    requires !Skipped(Reveal(deleted, a.phase.rest[0]))
    ensures
      var o := DeliverNext(cfg, deleted, db, completed, a);
      ActorLow(deleted, o.actor) && o.db == db
  {
    var t, batch := a.tracker, a.phase.rest;
    var p, rest := batch[0].position, batch[1..];
    assert Outstanding(a) == t.inFlight;
    assert forall i :: 0 <= i < |rest| ==> rest[i] == batch[i + 1];
    TellShape(cfg, deleted, db, completed, a);
    AssembleLow(deleted, DeliverNext(cfg, deleted, db, completed, a).actor, t.last, t.cursor, t.inFlight + {p}, rest);
  }

  lemma AckKeepsLow(cfg: Config, log: Log, deleted: set<KeyId>, db: Option<nat>, completed: set<nat>, a: Actor)
    requires InStep(cfg, log, a) && ActorLow(deleted, a)
    requires a.phase.Ready? && a.acks != [] && a.acks[0].Done? && a.acks[0].position <= a.tracker.cursor
    ensures
      var o := ActorNext(cfg, log, deleted, db, completed, a, HandleAck);
      ActorLow(deleted, o.actor) && Raised(db, o.db)
  {
    var t, p := a.tracker, a.acks[0].position;
    assert Outstanding(a) == t.inFlight;
    AckRaises(deleted, t, db, p, []);
    AckShape(cfg, log, deleted, db, completed, a);
    var o := Acked(t, db, p);
    var next := ActorNext(cfg, log, deleted, db, completed, a, HandleAck).actor;
    assert Outstanding(next) == o.tracker.inFlight;
    AssembleLow(deleted, next, o.tracker.last, t.cursor, o.tracker.inFlight, []);
  }

  lemma DeliverKeepsLow(cfg: Config, log: Log, deleted: set<KeyId>, db: Option<nat>, completed: set<nat>, a: Actor)
    requires ActorOk(cfg, log, completed, a) && ActorLow(deleted, a) && a.phase.Delivering? && SkipIsSafe(deleted, a)
    ensures
      var o := DeliverNext(cfg, deleted, db, completed, a);
      ActorLow(deleted, o.actor) && Raised(db, o.db)
  {
    ActorIsInStep(cfg, log, completed, a);
    if Skipped(Reveal(deleted, a.phase.rest[0])) {
      SkipKeepsLow(cfg, log, deleted, db, completed, a);
    } else {
      TellKeepsLow(cfg, deleted, db, completed, a);
    }
  }

  lemma HandleAckKeepsLow(cfg: Config, log: Log, deleted: set<KeyId>, db: Option<nat>, completed: set<nat>, a: Actor)
    requires ActorOk(cfg, log, completed, a) && ActorLow(deleted, a)
    ensures
      var o := ActorNext(cfg, log, deleted, db, completed, a, HandleAck);
      ActorLow(deleted, o.actor) && Raised(db, o.db)
  {
    if a.phase.Ready? && a.acks != [] && a.acks[0].Done? {
      assert a.acks[0].position <= a.tracker.cursor by {
        assert AckOk(a.acks[0], a.dispatched, completed);
      }
      ActorIsInStep(cfg, log, completed, a);
      AckKeepsLow(cfg, log, deleted, db, completed, a);
    }
  }

  lemma RecordKeepsLow(cfg: Config, log: Log, deleted: set<KeyId>, db: Option<nat>, completed: set<nat>, a: Actor)
    requires WellFormed(cfg, a) && ActorLow(deleted, a)
    ensures ActorLow(deleted, ActorNext(cfg, log, deleted, db, completed, a, Record).actor)
  {
    if a.phase.Told? {
      var next := ActorNext(cfg, log, deleted, db, completed, a, Record).actor;
      assert Outstanding(next) == Outstanding(a);
      AssembleLow(deleted, next, a.tracker.last, a.tracker.cursor, Outstanding(a), Undelivered(a.phase));
    }
  }

  /** Every safe step of an actor writes watermarks at least as high as the one before. */
  lemma ActorNextRaises(
    cfg: Config, log: Log, deleted: set<KeyId>, db: Option<nat>, completed: set<nat>, a: Actor, step: ActorStep)
    requires ActorOk(cfg, log, completed, a) && ActorLow(deleted, a)
    requires step.Deliver? ==> SkipIsSafe(deleted, a)
    ensures
      var o := ActorNext(cfg, log, deleted, db, completed, a, step);
      ActorLow(deleted, o.actor) && Raised(db, o.db)
  {
    match step
    case Fetch(upto) => FetchKeepsLow(cfg, log, deleted, db, completed, a, upto);
    case Deliver =>
      if a.phase.Delivering? {
        DeliverKeepsLow(cfg, log, deleted, db, completed, a);
      }
    case Record => RecordKeepsLow(cfg, log, deleted, db, completed, a);
    case HandleAck => HandleAckKeepsLow(cfg, log, deleted, db, completed, a);
    case _ => WorkerShape(cfg, log, deleted, db, completed, a, step);
  }
}

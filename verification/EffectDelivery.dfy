/** Durable delivery to effects: any number of incarnations of one effect module on one
    database, each with a dispatcher and a pool of workers, over every interleaving of
    appends, shredding, batches, dispatches, worker steps, failures, acks and restarts. */
module EffectDelivery {
  import opened Prelude
  import opened EventLog
  import opened EffectActor

  // ---------- state ----------

  /** What a worker is doing.  A handler that fails takes its worker down, and within the
      incarnation for good: the worker would be restarted by the dispatcher, but its failure ack is
      ahead of the notice of its death in the dispatcher's mailbox and stops the dispatcher. */
  datatype Running = Idle | Handling(position: nat) | Finished(position: nat) | Down

  /** A worker: its mailbox, what it is doing, and every event it ever began. */
  datatype Worker = Worker(queue: seq<nat>, running: Running, attempts: seq<nat>)

  datatype Ack = Done(position: nat) | Failed(position: nat)

  /** Acks are handled only between batches.  `Told` is the moment after an event has been
      handed to a worker and before it is recorded as in flight. */
  datatype Phase = Ready | Delivering(rest: seq<StoredEvent<Json>>) | Told(position: nat, left: seq<StoredEvent<Json>>) | Stopped

  /** One incarnation.  `dispatched`, `acked`, `keys` and `largest` record its history: what it
      told to workers, which acks it handled, the partition key each event was dispatched under,
      and its largest batch. */
  datatype Actor = Actor(
    start: nat,
    tracker: Tracker,
    phase: Phase,
    workers: seq<Worker>,
    acks: seq<Ack>,
    dispatched: seq<nat>,
    acked: set<nat>,
    keys: map<nat, PartitionKey>,
    largest: nat)

  /** `completed` holds the events whose handler has committed, in any incarnation. */
  datatype System = System(
    log: Log,
    deleted: set<KeyId>,
    db: Option<nat>,
    completed: set<nat>,
    actors: map<nat, Actor>)

  datatype ActorStep =
    | Fetch(upto: nat)
    | Deliver
    | Record
    | HandleAck
    | Take(w: nat)
    | Finish(w: nat)
    | SendAck(w: nat)
    | Fail(w: nat)
    | Stop

  datatype Step =
    | Append(event: Event)
    | Shred(key: KeyId)
    | Start(id: nat)
    | Act(id: nat, step: ActorStep)

  // ---------- steps ----------

  function Fresh(cfg: Config, db: Option<nat>): Actor {
    Actor(ResumePosition(db), Tracker({}, 0, ResumePosition(db), db), Ready,
          seq(cfg.poolSize + 1, i => Worker([], Idle, [])), [], [], {}, map[], 0)
  }

  predicate Busy(running: Running) {
    running.Handling? || running.Finished?
  }

  function Continue(rest: seq<StoredEvent<Json>>): Phase {
    if rest == [] then Ready else Delivering(rest)
  }

  datatype Effect = Effect(actor: Actor, db: Option<nat>, completed: set<nat>)

  /** An ack's outcome becomes the actor's state; a lost compare-and-set stops the actor. */
  function Settled(a: Actor, o: AckOutcome, phase: Phase): Actor {
    a.(tracker := o.tracker, phase := if o.ok then phase else Stopped)
  }

  function SetWorker(a: Actor, w: nat, worker: Worker): Actor
    requires w < |a.workers|
  {
    a.(workers := a.workers[w := worker])
  }

  /** The next event of the batch: skipped and acked when it cannot be read, otherwise told to
      the worker of its partition. */
  function DeliverNext(cfg: Config, deleted: set<KeyId>, db: Option<nat>, completed: set<nat>, a: Actor): Effect
    requires a.phase.Delivering? && a.phase.rest != []
    requires cfg.poolSize > 0 && |a.workers| == cfg.poolSize + 1
    requires 0 !in a.tracker.inFlight && a.phase.rest[0].position != 0
  {
    var event := Reveal(deleted, a.phase.rest[0]);
    var rest := a.phase.rest[1..];
    if Skipped(event) then
      var o := SkipAcked(a.tracker, db, event.position);
      Effect(Settled(a, o, Continue(rest)), o.db, completed)
    else
      var key := cfg.partition(event);
      var w := Route(cfg, key);
      var worker := a.workers[w];
      Effect(SetWorker(a, w, worker.(queue := worker.queue + [event.position]))
               .(phase := Told(event.position, rest),
                 dispatched := a.dispatched + [event.position],
                 keys := a.keys[event.position := key]),
             db, completed)
  }

  function ActorNext(
      cfg: Config, log: Log, deleted: set<KeyId>, db: Option<nat>, completed: set<nat>, a: Actor, step: ActorStep): Effect
    requires WellFormed(cfg, a)
  {
    var same := Effect(a, db, completed);
    match step
    case Fetch(upto) =>
      if a.phase.Ready? && |a.tracker.inFlight| <= MAX_IN_FLIGHT && a.tracker.cursor <= upto <= |log| then
        var batch := ReadRange(log, cfg.query, a.tracker.cursor, upto);
        same.(actor := a.(tracker := a.tracker.(cursor := upto),
                          phase := Continue(batch),
                          largest := Max(a.largest, |batch|)))
      else same
    case Deliver =>
      if a.phase.Delivering? then DeliverNext(cfg, deleted, db, completed, a) else same
    case Record =>
      if a.phase.Told? then
        same.(actor := a.(tracker := a.tracker.(inFlight := a.tracker.inFlight + {a.phase.position}),
                          phase := Continue(a.phase.left)))
      else same
    case HandleAck =>
      if a.phase.Ready? && a.acks != [] then
        match a.acks[0]
        case Failed(_) => same.(actor := a.(phase := Stopped))
        case Done(position) =>
          var o := Acked(a.tracker, db, position);
          Effect(Settled(a, o, Ready).(acks := a.acks[1..], acked := a.acked + {position}), o.db, completed)
      else same
    case Take(w) =>
      if w < |a.workers| && a.workers[w].running.Idle? && a.workers[w].queue != [] then
        var worker := a.workers[w];
        same.(actor := SetWorker(a, w,
          Worker(worker.queue[1..], Handling(worker.queue[0]), worker.attempts + [worker.queue[0]])))
      else same
    case Finish(w) =>
      if w < |a.workers| && a.workers[w].running.Handling? then
        var position := a.workers[w].running.position;
        Effect(SetWorker(a, w, a.workers[w].(running := Finished(position))), db, completed + {position})
      else same
    case SendAck(w) =>
      if w < |a.workers| && a.workers[w].running.Finished? then
        same.(actor := SetWorker(a, w, a.workers[w].(running := Idle))
                         .(acks := a.acks + [Done(a.workers[w].running.position)]))
      else same
    case Fail(w) =>
      if w < |a.workers| && Busy(a.workers[w].running) then
        same.(actor := SetWorker(a, w, a.workers[w].(running := Down))
                         .(acks := a.acks + [Failed(a.workers[w].running.position)]))
      else same
    case Stop => same.(actor := a.(phase := Stopped))
  }

  predicate WellFormed(cfg: Config, a: Actor) {
    && cfg.poolSize > 0
    && |a.workers| == cfg.poolSize + 1
    && 0 !in a.tracker.inFlight
    && (a.phase.Delivering? ==> a.phase.rest != [] && forall e :: e in a.phase.rest ==> e.position != 0)
    && (a.phase.Told? ==> a.phase.position != 0)
  }

  /** One step of the system; a step that is not enabled changes nothing. */
  function Apply(cfg: Config, s: System, step: Step): System {
    match step
    case Append(event) => s.(log := s.log + [event])
    case Shred(key) => s.(deleted := s.deleted + {key})
    case Start(id) => if id in s.actors then s else s.(actors := s.actors[id := Fresh(cfg, s.db)])
    case Act(id, actorStep) =>
      if id !in s.actors || !WellFormed(cfg, s.actors[id]) then s
      else
        var o := ActorNext(cfg, s.log, s.deleted, s.db, s.completed, s.actors[id], actorStep);
        System(s.log, s.deleted, o.db, o.completed, s.actors[id := o.actor])
  }

  function Exec(cfg: Config, s: System, steps: seq<Step>): System {
    if steps == [] then s else Apply(cfg, Exec(cfg, s, steps[..|steps| - 1]), steps[|steps| - 1])
  }

  function Initial(log: Log): System {
    System(log, {}, None, {}, map[])
  }

  // ---------- what is claimed ----------

  /** A matching event that can still be read. */
  predicate Live(cfg: Config, log: Log, deleted: set<KeyId>, p: nat) {
    MatchesAt(log, cfg.query, p) && !Skipped(Reveal(deleted, Stored(log[p - 1], p)))
  }

  /** A live event, in terms of what lies in the log: it matches, and it has no scope, or a payload
      whose key is not gone. */
  lemma LiveExactly(cfg: Config, log: Log, deleted: set<KeyId>, p: nat)
    ensures Live(cfg, log, deleted, p) <==>
            && 1 <= p <= |log| && Matches(cfg.query, log[p - 1].eventType, log[p - 1].tags)
            && (log[p - 1].encryptionScope.None?
                || (log[p - 1].data != Null
                    && !(log[p - 1].encryptionKeyId.Some? && log[p - 1].encryptionKeyId.value in deleted)))
  {
    if 1 <= p <= |log| {
      SeenExactly(deleted, Stored(log[p - 1], p));
    }
  }

  /** At-least-once: every live matching event at or below the persisted watermark has been
      completed, so that resuming strictly after it loses none. */
  ghost predicate NothingLost(cfg: Config, s: System) {
    s.db.Some? ==> forall p: nat :: p <= s.db.value && Live(cfg, s.log, s.deleted, p) ==> p in s.completed
  }

  /** Nothing in the batch is still to be done: every event is unreadable or completed. */
  ghost predicate NothingToDo(deleted: set<KeyId>, completed: set<nat>, batch: seq<StoredEvent<Json>>) {
    forall e :: e in batch ==> Skipped(Reveal(deleted, e)) || e.position in completed
  }

  /** The next event of the batch is skipped with an empty pool by an incarnation that holds the
      persisted position and has not written the cursor yet. */
  predicate SkipWritesCursor(deleted: set<KeyId>, db: Option<nat>, a: Actor) {
    && a.phase.Delivering? && a.phase.rest != [] && Skipped(Reveal(deleted, a.phase.rest[0]))
    && a.tracker.inFlight == {} && a.tracker.last == db && a.tracker.last != Some(a.tracker.cursor)
  }

  /** A skip that writes the cursor has nothing behind it in the batch that is still to be done. */
  ghost predicate SkipIsExact(deleted: set<KeyId>, db: Option<nat>, completed: set<nat>, a: Actor) {
    SkipWritesCursor(deleted, db, a) ==> NothingToDo(deleted, completed, a.phase.rest[1..])
  }

  ghost predicate ExactStep(s: System, step: Step) {
    step.Act? && step.step.Deliver? && step.id in s.actors ==>
      SkipIsExact(s.deleted, s.db, s.completed, s.actors[step.id])
  }

  ghost predicate ExactRun(cfg: Config, s: System, steps: seq<Step>) {
    forall i :: 0 <= i < |steps| ==> ExactStep(Exec(cfg, s, steps[..i]), steps[i])
  }

  /** The stronger condition for the order of watermarks: a skip with an empty pool has no
      readable event behind it in the batch. */
  ghost predicate SkipIsSafe(deleted: set<KeyId>, a: Actor) {
    a.phase.Delivering? && a.phase.rest != [] && Skipped(Reveal(deleted, a.phase.rest[0])) && a.tracker.inFlight == {}
    ==> forall e :: e in a.phase.rest[1..] ==> Skipped(Reveal(deleted, e))
  }

  ghost predicate SafeStep(s: System, step: Step) {
    step.Act? && step.step.Deliver? && step.id in s.actors ==> SkipIsSafe(s.deleted, s.actors[step.id])
  }

  ghost predicate SafeRun(cfg: Config, s: System, steps: seq<Step>) {
    forall i :: 0 <= i < |steps| ==> SafeStep(Exec(cfg, s, steps[..i]), steps[i])
  }

  // ---------- invariants of one actor ----------

  /** The part of the current batch that is not in flight yet. */
  function Undelivered(phase: Phase): seq<StoredEvent<Json>> {
    match phase
    case Delivering(rest) => rest
    case Told(_, left) => left
    case _ => []
  }

  function ToldSet(phase: Phase): set<nat> {
    if phase.Told? then {phase.position} else {}
  }

  /** A stretch of the log, in order, between two positions. */
  ghost predicate BatchOk(cfg: Config, log: Log, batch: seq<StoredEvent<Json>>, after: nat, upto: nat) {
    && (forall i :: 0 <= i < |batch| ==>
          && after < batch[i].position <= upto
          && MatchesAt(log, cfg.query, batch[i].position)
          && batch[i] == Stored(log[batch[i].position - 1], batch[i].position))
    && forall i, j :: 0 <= i < j < |batch| ==> batch[i].position < batch[j].position
  }

  /** A worker's events are exactly those routed to it, in log order; it works on one at a time,
      and every event it began before the last one is completed. */
  ghost predicate WorkerOk(
      cfg: Config, worker: Worker, w: nat, dispatched: seq<nat>, keys: map<nat, PartitionKey>, completed: set<nat>)
    requires cfg.poolSize > 0
  {
    && Increasing(worker.attempts + worker.queue)
    && (forall p :: p in worker.attempts || p in worker.queue <==> p in dispatched && p in keys && Route(cfg, keys[p]) == w)
    && (Busy(worker.running) ==> worker.attempts != [] && worker.running.position == worker.attempts[|worker.attempts| - 1])
    && (worker.running.Finished? ==> worker.running.position in completed)
    && (forall i :: 0 <= i < |worker.attempts| && (worker.running.Idle? || i < |worker.attempts| - 1)
          ==> worker.attempts[i] in completed)
  }

  ghost predicate AckOk(ack: Ack, dispatched: seq<nat>, completed: set<nat>) {
    && ack.position in dispatched
    && (ack.Done? ==> ack.position in completed)
  }

  /** Cursor, dispatches and undelivered events are in step with the log. */
  ghost predicate PlaceOk(
      cfg: Config, log: Log, start: nat, cursor: nat, dispatched: seq<nat>, batch: seq<StoredEvent<Json>>) {
    && start <= cursor <= |log|
    && Increasing(dispatched)
    && (forall p :: p in dispatched ==> start < p <= cursor)
    && BatchOk(cfg, log, batch, start, cursor)
    && (forall p, i :: p in dispatched && 0 <= i < |batch| ==> p < batch[i].position)
  }

  /** In flight is what was dispatched and is not acked, except for the event just told; and the
      window of outstanding events is bounded. */
  ghost predicate BooksOk(
      inFlight: set<nat>, dispatched: set<nat>, acked: set<nat>, told: set<nat>, pending: nat, largest: nat) {
    && inFlight == dispatched - acked - told
    && acked <= dispatched
    && told <= dispatched - acked
    && |inFlight| + |told| + pending <= MAX_IN_FLIGHT + largest
  }

  ghost predicate WorkersOk(
    cfg: Config, workers: seq<Worker>, acks: seq<Ack>, dispatched: seq<nat>, keys: map<nat, PartitionKey>, completed: set<nat>)
    requires cfg.poolSize > 0
  {
    && keys.Keys == Elements(dispatched)
    && (forall w :: 0 <= w < |workers| ==> WorkerOk(cfg, workers[w], w, dispatched, keys, completed))
    && (forall ack :: ack in acks ==> AckOk(ack, dispatched, completed))
  }

  ghost predicate ActorBooksOk(a: Actor) {
    BooksOk(a.tracker.inFlight, Elements(a.dispatched), a.acked, ToldSet(a.phase), |Undelivered(a.phase)|, a.largest)
  }

  ghost predicate ActorOk(cfg: Config, log: Log, completed: set<nat>, a: Actor) {
    && WellFormed(cfg, a)
    && a.tracker.highestCompleted <= a.tracker.cursor
    && PlaceOk(cfg, log, a.start, a.tracker.cursor, a.dispatched, Undelivered(a.phase))
    && (!a.phase.Stopped? ==> ActorBooksOk(a))
    && WorkersOk(cfg, a.workers, a.acks, a.dispatched, a.keys, completed)
  }

  // ---------- each step keeps them ----------

  lemma IncreasingSnoc(s: seq<nat>, x: nat)
    requires Increasing(s) && forall y :: y in s ==> y < x
    ensures Increasing(s + [x]) && Elements(s + [x]) == Elements(s) + {x}
  {
    forall i, j | 0 <= i < j < |s + [x]| ensures (s + [x])[i] < (s + [x])[j] {
      assert (s + [x])[i] == s[i] && s[i] in s;
    }
  }

  lemma ReadIsBatch(cfg: Config, log: Log, after: nat, upto: nat)
    requires after <= upto <= |log|
    ensures BatchOk(cfg, log, ReadRange(log, cfg.query, after, upto), after, upto)
  {
    var batch := ReadRange(log, cfg.query, after, upto);
    forall i | 0 <= i < |batch|
      ensures after < batch[i].position <= upto && MatchesAt(log, cfg.query, batch[i].position)
      ensures batch[i] == Stored(log[batch[i].position - 1], batch[i].position)
    {
      ReadIsSound(log, cfg.query, after, upto, batch[i]);
    }
    forall i, j | 0 <= i < j < |batch| ensures batch[i].position < batch[j].position {
      ReadIsOrdered(log, cfg.query, after, upto, i, j);
    }
  }

  lemma FetchedPlace(cfg: Config, log: Log, start: nat, cursor: nat, dispatched: seq<nat>, upto: nat)
    requires PlaceOk(cfg, log, start, cursor, dispatched, []) && cursor <= upto <= |log|
    ensures PlaceOk(cfg, log, start, upto, dispatched, ReadRange(log, cfg.query, cursor, upto))
    ensures forall e :: e in ReadRange(log, cfg.query, cursor, upto) ==> e.position != 0
  {
    ReadIsBatch(cfg, log, cursor, upto);
  }

  lemma SkippedPlace(cfg: Config, log: Log, start: nat, cursor: nat, dispatched: seq<nat>, batch: seq<StoredEvent<Json>>)
    requires PlaceOk(cfg, log, start, cursor, dispatched, batch) && batch != []
    ensures PlaceOk(cfg, log, start, cursor, dispatched, batch[1..])
    ensures PlaceOk(cfg, log, start, cursor, dispatched, [])
    ensures batch[0].position !in dispatched && start < batch[0].position <= cursor
  {
    var rest := batch[1..];
    assert forall i :: 0 <= i < |rest| ==> rest[i] == batch[i + 1];
  }

  lemma ToldPlace(cfg: Config, log: Log, start: nat, cursor: nat, dispatched: seq<nat>, batch: seq<StoredEvent<Json>>)
    requires PlaceOk(cfg, log, start, cursor, dispatched, batch) && batch != []
    ensures PlaceOk(cfg, log, start, cursor, dispatched + [batch[0].position], batch[1..])
  {
    var p, rest := batch[0].position, batch[1..];
    SkippedPlace(cfg, log, start, cursor, dispatched, batch);
    IncreasingSnoc(dispatched, p);
    forall d, i | d in dispatched + [p] && 0 <= i < |rest| ensures d < rest[i].position {
      assert rest[i] == batch[i + 1];
      assert d in dispatched || d == p;
    }
  }

  /** An actor is in order when its parts are. */
  lemma Assemble(
    cfg: Config, log: Log, completed: set<nat>, a: Actor,
    cursor: nat, dispatched: seq<nat>, batch: seq<StoredEvent<Json>>, inFlight: set<nat>, acked: set<nat>, told: set<nat>,
    workers: seq<Worker>, acks: seq<Ack>, keys: map<nat, PartitionKey>)
    requires WellFormed(cfg, a) && a.tracker.highestCompleted <= a.tracker.cursor == cursor
    requires a.dispatched == dispatched && Undelivered(a.phase) == batch
    requires PlaceOk(cfg, log, a.start, cursor, dispatched, batch)
    requires a.tracker.inFlight == inFlight && a.acked == acked && ToldSet(a.phase) == told
    requires !a.phase.Stopped? ==> BooksOk(inFlight, Elements(dispatched), acked, told, |batch|, a.largest)
    requires a.workers == workers && a.acks == acks && a.keys == keys
    requires WorkersOk(cfg, workers, acks, dispatched, keys, completed)
    ensures ActorOk(cfg, log, completed, a)
  {}

  lemma FetchKeepsActor(
      cfg: Config, log: Log, deleted: set<KeyId>, db: Option<nat>, completed: set<nat>, a: Actor, upto: nat)
    requires ActorOk(cfg, log, completed, a)
    ensures ActorOk(cfg, log, completed, ActorNext(cfg, log, deleted, db, completed, a, Fetch(upto)).actor)
  {
    if a.phase.Ready? && |a.tracker.inFlight| <= MAX_IN_FLIGHT && a.tracker.cursor <= upto <= |log| {
      FetchedPlace(cfg, log, a.start, a.tracker.cursor, a.dispatched, upto);
      var batch, next := ReadRange(log, cfg.query, a.tracker.cursor, upto), ActorNext(cfg, log, deleted, db, completed, a, Fetch(upto)).actor;
      assert Undelivered(next.phase) == batch && ToldSet(next.phase) == {};
      assert BooksOk(a.tracker.inFlight, Elements(a.dispatched), a.acked, {}, |batch|, Max(a.largest, |batch|));
      Assemble(cfg, log, completed, next, upto, a.dispatched, batch, a.tracker.inFlight, a.acked, {}, a.workers, a.acks, a.keys);
    }
  }

  /** An ack takes its position out of flight and touches nothing else but the records of
      progress. */
  lemma AckedTracker(t: Tracker, db: Option<nat>, position: nat)
    requires 0 !in t.inFlight && t.highestCompleted <= t.cursor && position <= t.cursor
    ensures
      var after := Acked(t, db, position).tracker;
      after.inFlight == t.inFlight - {position} && after.cursor == t.cursor && after.highestCompleted <= after.cursor
  {}

  /** A skipped event passes through the books without a trace. */
  lemma SkippedTracker(t: Tracker, db: Option<nat>, position: nat)
    requires 0 !in t.inFlight && t.highestCompleted <= t.cursor && position <= t.cursor
    requires position !in t.inFlight && position != 0
    ensures
      var after := SkipAcked(t, db, position).tracker;
      after.inFlight == t.inFlight && after.cursor == t.cursor && after.highestCompleted <= after.cursor
  {}

  lemma SkippedActor(cfg: Config, log: Log, completed: set<nat>, a: Actor, t: Tracker, phase: Phase)
    requires ActorOk(cfg, log, completed, a) && a.phase.Delivering?
    requires t.inFlight == a.tracker.inFlight && t.cursor == a.tracker.cursor && t.highestCompleted <= t.cursor
    requires phase == Continue(a.phase.rest[1..]) || phase == Stopped
    ensures ActorOk(cfg, log, completed, a.(tracker := t, phase := phase))
  {
    var rest := a.phase.rest[1..];
    SkippedPlace(cfg, log, a.start, t.cursor, a.dispatched, a.phase.rest);
    assert forall e :: e in rest ==> e in a.phase.rest;
    assert BooksOk(t.inFlight, Elements(a.dispatched), a.acked, {}, |rest|, a.largest);
    Assemble(cfg, log, completed, a.(tracker := t, phase := phase), t.cursor, a.dispatched,
             if phase.Stopped? then [] else rest, t.inFlight, a.acked, {}, a.workers, a.acks, a.keys);
  }

  lemma SkipKeepsActor(cfg: Config, log: Log, deleted: set<KeyId>, db: Option<nat>, completed: set<nat>, a: Actor)
    requires ActorOk(cfg, log, completed, a) && a.phase.Delivering?
    requires Skipped(Reveal(deleted, a.phase.rest[0]))
    ensures ActorOk(cfg, log, completed, DeliverNext(cfg, deleted, db, completed, a).actor)
  {
    var p := a.phase.rest[0].position;
    assert p !in a.tracker.inFlight && p <= a.tracker.cursor by {
      SkippedPlace(cfg, log, a.start, a.tracker.cursor, a.dispatched, a.phase.rest);
    }
    SkippedTracker(a.tracker, db, p);
    var o := SkipAcked(a.tracker, db, p);
    var phase := if o.ok then Continue(a.phase.rest[1..]) else Stopped;
    assert DeliverNext(cfg, deleted, db, completed, a).actor == a.(tracker := o.tracker, phase := phase);
    SkippedActor(cfg, log, completed, a, o.tracker, phase);
  }

  lemma ToldBooks(inFlight: set<nat>, dispatched: seq<nat>, acked: set<nat>, pending: nat, largest: nat, p: nat)
    requires BooksOk(inFlight, Elements(dispatched), acked, {}, pending + 1, largest) && p !in dispatched
    ensures BooksOk(inFlight, Elements(dispatched + [p]), acked, {p}, pending, largest)
  {
    assert Elements(dispatched + [p]) == Elements(dispatched) + {p};
  }

  lemma ToldWorker(
    cfg: Config, worker: Worker, w: nat, dispatched: seq<nat>, keys: map<nat, PartitionKey>, completed: set<nat>, p: nat, key: PartitionKey)
    requires cfg.poolSize > 0 && WorkerOk(cfg, worker, w, dispatched, keys, completed)
    requires Route(cfg, key) == w && forall d :: d in dispatched ==> d < p
    ensures WorkerOk(cfg, worker.(queue := worker.queue + [p]), w, dispatched + [p], keys[p := key], completed)
  {
    var line := worker.attempts + worker.queue;
    IncreasingSnoc(line, p);
    assert worker.attempts + (worker.queue + [p]) == line + [p];
  }

  lemma ToldWorkers(
    cfg: Config, workers: seq<Worker>, acks: seq<Ack>, dispatched: seq<nat>, keys: map<nat, PartitionKey>, completed: set<nat>,
    p: nat, key: PartitionKey)
    requires cfg.poolSize > 0 && |workers| == cfg.poolSize + 1
    requires WorkersOk(cfg, workers, acks, dispatched, keys, completed)
    requires forall d :: d in dispatched ==> d < p
    ensures
      var w := Route(cfg, key);
      WorkersOk(cfg, workers[w := workers[w].(queue := workers[w].queue + [p])], acks, dispatched + [p], keys[p := key], completed)
  {
    var w := Route(cfg, key);
    var next := workers[w := workers[w].(queue := workers[w].queue + [p])];
    forall v | 0 <= v < |next| ensures WorkerOk(cfg, next[v], v, dispatched + [p], keys[p := key], completed) {
      assert WorkerOk(cfg, workers[v], v, dispatched, keys, completed);
      if v == w {
        ToldWorker(cfg, workers[w], w, dispatched, keys, completed, p, key);
      }
    }
    forall ack | ack in acks ensures AckOk(ack, dispatched + [p], completed) {
      assert AckOk(ack, dispatched, completed);
    }
  }

  lemma TellKeepsActor(cfg: Config, log: Log, deleted: set<KeyId>, db: Option<nat>, completed: set<nat>, a: Actor)
    requires ActorOk(cfg, log, completed, a) && a.phase.Delivering?
    requires !Skipped(Reveal(deleted, a.phase.rest[0]))
    ensures ActorOk(cfg, log, completed, DeliverNext(cfg, deleted, db, completed, a).actor)
  {
    var event := Reveal(deleted, a.phase.rest[0]);
    var p, rest := event.position, a.phase.rest[1..];
    SkippedPlace(cfg, log, a.start, a.tracker.cursor, a.dispatched, a.phase.rest);
    ToldPlace(cfg, log, a.start, a.tracker.cursor, a.dispatched, a.phase.rest);
    ToldBooks(a.tracker.inFlight, a.dispatched, a.acked, |rest|, a.largest, p);
    forall d | d in a.dispatched ensures d < p {
      assert p == a.phase.rest[0].position;
    }
    var key := cfg.partition(event);
    ToldWorkers(cfg, a.workers, a.acks, a.dispatched, a.keys, completed, p, key);
    var next := DeliverNext(cfg, deleted, db, completed, a).actor;
    var w := Route(cfg, key);
    assert p == a.phase.rest[0].position;
    Assemble(cfg, log, completed, next, a.tracker.cursor, a.dispatched + [p], rest, a.tracker.inFlight, a.acked, {p},
             a.workers[w := a.workers[w].(queue := a.workers[w].queue + [p])], a.acks, a.keys[p := key]);
  }

  lemma RecordedBooks(inFlight: set<nat>, dispatched: set<nat>, acked: set<nat>, p: nat, pending: nat, largest: nat)
    requires BooksOk(inFlight, dispatched, acked, {p}, pending, largest)
    ensures BooksOk(inFlight + {p}, dispatched, acked, {}, pending, largest)
  {
    assert |inFlight + {p}| == |inFlight| + |{p}|;
  }

  lemma RecordKeepsActor(cfg: Config, log: Log, deleted: set<KeyId>, db: Option<nat>, completed: set<nat>, a: Actor)
    requires ActorOk(cfg, log, completed, a)
    ensures ActorOk(cfg, log, completed, ActorNext(cfg, log, deleted, db, completed, a, Record).actor)
  {
    if a.phase.Told? {
      RecordedBooks(a.tracker.inFlight, Elements(a.dispatched), a.acked, a.phase.position, |a.phase.left|, a.largest);
      var next := ActorNext(cfg, log, deleted, db, completed, a, Record).actor;
      assert Undelivered(a.phase) == a.phase.left == Undelivered(next.phase);
      Assemble(cfg, log, completed, next, a.tracker.cursor, a.dispatched, a.phase.left, a.tracker.inFlight + {a.phase.position},
               a.acked, {}, a.workers, a.acks, a.keys);
    }
  }

  lemma SmallerSet(s: set<nat>, t: set<nat>)
    requires s <= t
    ensures |s| <= |t|
  {
    assert t == s + (t - s);
  }

  lemma AckedBooks(inFlight: set<nat>, dispatched: set<nat>, acked: set<nat>, p: nat, largest: nat)
    requires BooksOk(inFlight, dispatched, acked, {}, 0, largest) && p in dispatched
    ensures BooksOk(inFlight - {p}, dispatched, acked + {p}, {}, 0, largest)
  {
    SmallerSet(inFlight - {p}, inFlight);
  }

  lemma AckedActor(cfg: Config, log: Log, completed: set<nat>, a: Actor, t: Tracker, phase: Phase)
    requires ActorOk(cfg, log, completed, a) && a.phase.Ready? && a.acks != []
    requires t.inFlight == a.tracker.inFlight - {a.acks[0].position}
    requires t.cursor == a.tracker.cursor && t.highestCompleted <= t.cursor
    requires phase == Ready || phase == Stopped
    ensures ActorOk(cfg, log, completed,
                    a.(tracker := t, phase := phase, acks := a.acks[1..], acked := a.acked + {a.acks[0].position}))
  {
    var p := a.acks[0].position;
    assert AckOk(a.acks[0], a.dispatched, completed);
    AckedBooks(a.tracker.inFlight, Elements(a.dispatched), a.acked, p, a.largest);
    assert WorkersOk(cfg, a.workers, a.acks[1..], a.dispatched, a.keys, completed) by {
      assert forall ack :: ack in a.acks[1..] ==> ack in a.acks;
    }
    Assemble(cfg, log, completed,
             a.(tracker := t, phase := phase, acks := a.acks[1..], acked := a.acked + {p}),
             t.cursor, a.dispatched, [], t.inFlight, a.acked + {p}, {}, a.workers, a.acks[1..], a.keys);
  }

  lemma AckKeepsActor(cfg: Config, log: Log, deleted: set<KeyId>, db: Option<nat>, completed: set<nat>, a: Actor)
    requires ActorOk(cfg, log, completed, a)
    ensures ActorOk(cfg, log, completed, ActorNext(cfg, log, deleted, db, completed, a, HandleAck).actor)
  {
    if a.phase.Ready? && a.acks != [] && a.acks[0].Done? {
      var p := a.acks[0].position;
      assert p <= a.tracker.cursor by {
        assert AckOk(a.acks[0], a.dispatched, completed);
      }
      AckedTracker(a.tracker, db, p);
      var o := Acked(a.tracker, db, p);
      var phase := if o.ok then Ready else Stopped;
      assert ActorNext(cfg, log, deleted, db, completed, a, HandleAck).actor
          == a.(tracker := o.tracker, phase := phase, acks := a.acks[1..], acked := a.acked + {p});
      AckedActor(cfg, log, completed, a, o.tracker, phase);
    }
  }

  /** What a worker may do on its own: take its next event, finish it, or give up. */
  ghost predicate WorkerMoves(before: Worker, after: Worker, completed: set<nat>) {
    || (before.running.Idle? && before.queue != []
        && after == Worker(before.queue[1..], Handling(before.queue[0]), before.attempts + [before.queue[0]]))
    || (before.running.Handling? && before.running.position in completed
        && after == before.(running := Finished(before.running.position)))
    || (before.running.Finished? && after == before.(running := Idle))
    || (Busy(before.running) && after == before.(running := Down))
  }

  lemma MovingKeepsWorker(
    cfg: Config, before: Worker, after: Worker, w: nat, dispatched: seq<nat>, keys: map<nat, PartitionKey>, completed: set<nat>)
    requires cfg.poolSize > 0 && WorkerOk(cfg, before, w, dispatched, keys, completed)
    requires WorkerMoves(before, after, completed)
    ensures WorkerOk(cfg, after, w, dispatched, keys, completed)
  {
    if before.running.Idle? && before.queue != [] && after.running.Handling? {
      var p, rest := before.queue[0], before.queue[1..];
      assert before.queue == [p] + rest;
      assert before.attempts + [p] + rest == before.attempts + before.queue;
    }
  }

  lemma MoreCompleted(
    cfg: Config, workers: seq<Worker>, acks: seq<Ack>, dispatched: seq<nat>, keys: map<nat, PartitionKey>,
    completed: set<nat>, more: set<nat>)
    requires cfg.poolSize > 0 && WorkersOk(cfg, workers, acks, dispatched, keys, completed) && completed <= more
    ensures WorkersOk(cfg, workers, acks, dispatched, keys, more)
  {
    forall w | 0 <= w < |workers| ensures WorkerOk(cfg, workers[w], w, dispatched, keys, more) {
      assert WorkerOk(cfg, workers[w], w, dispatched, keys, completed);
    }
    forall ack | ack in acks ensures AckOk(ack, dispatched, more) {
      assert AckOk(ack, dispatched, completed);
    }
  }

  lemma MovingKeepsWorkers(
    cfg: Config, workers: seq<Worker>, after: Worker, w: nat, acks: seq<Ack>, sent: seq<Ack>,
    dispatched: seq<nat>, keys: map<nat, PartitionKey>, completed: set<nat>)
    requires cfg.poolSize > 0 && w < |workers|
    requires WorkersOk(cfg, workers, acks, dispatched, keys, completed)
    requires WorkerMoves(workers[w], after, completed)
    requires forall ack :: ack in sent ==> AckOk(ack, dispatched, completed)
    ensures WorkersOk(cfg, workers[w := after], acks + sent, dispatched, keys, completed)
  {
    var next := workers[w := after];
    forall v | 0 <= v < |next| ensures WorkerOk(cfg, next[v], v, dispatched, keys, completed) {
      assert WorkerOk(cfg, workers[v], v, dispatched, keys, completed);
      if v == w {
        MovingKeepsWorker(cfg, workers[w], after, w, dispatched, keys, completed);
      }
    }
  }

  lemma MovedActor(cfg: Config, log: Log, completed: set<nat>, a: Actor, w: nat, moved: Worker, sent: seq<Ack>)
    requires ActorOk(cfg, log, completed, a) && w < |a.workers|
    requires WorkerMoves(a.workers[w], moved, completed)
    requires forall ack :: ack in sent ==> AckOk(ack, a.dispatched, completed)
    ensures ActorOk(cfg, log, completed, SetWorker(a, w, moved).(acks := a.acks + sent))
  {
    MovingKeepsWorkers(cfg, a.workers, moved, w, a.acks, sent, a.dispatched, a.keys, completed);
    Assemble(cfg, log, completed, SetWorker(a, w, moved).(acks := a.acks + sent), a.tracker.cursor, a.dispatched,
             Undelivered(a.phase), a.tracker.inFlight, a.acked, ToldSet(a.phase), a.workers[w := moved], a.acks + sent, a.keys);
  }

  lemma CompletedActor(cfg: Config, log: Log, completed: set<nat>, more: set<nat>, a: Actor)
    requires ActorOk(cfg, log, completed, a) && completed <= more
    ensures ActorOk(cfg, log, more, a)
  {
    MoreCompleted(cfg, a.workers, a.acks, a.dispatched, a.keys, completed, more);
  }

  lemma TakeKeepsActor(cfg: Config, log: Log, completed: set<nat>, a: Actor, w: nat)
    requires ActorOk(cfg, log, completed, a) && w < |a.workers|
    requires a.workers[w].running.Idle? && a.workers[w].queue != []
    ensures
      var worker := a.workers[w];
      ActorOk(cfg, log, completed,
              SetWorker(a, w, Worker(worker.queue[1..], Handling(worker.queue[0]), worker.attempts + [worker.queue[0]])))
  {
    var worker := a.workers[w];
    var moved := Worker(worker.queue[1..], Handling(worker.queue[0]), worker.attempts + [worker.queue[0]]);
    MovedActor(cfg, log, completed, a, w, moved, []);
    assert SetWorker(a, w, moved).(acks := a.acks + []) == SetWorker(a, w, moved);
  }

  lemma FinishKeepsActor(cfg: Config, log: Log, completed: set<nat>, a: Actor, w: nat)
    requires ActorOk(cfg, log, completed, a) && w < |a.workers| && a.workers[w].running.Handling?
    ensures
      var position := a.workers[w].running.position;
      ActorOk(cfg, log, completed + {position}, SetWorker(a, w, a.workers[w].(running := Finished(position))))
  {
    var position := a.workers[w].running.position;
    var moved := a.workers[w].(running := Finished(position));
    CompletedActor(cfg, log, completed, completed + {position}, a);
    MovedActor(cfg, log, completed + {position}, a, w, moved, []);
    assert SetWorker(a, w, moved).(acks := a.acks + []) == SetWorker(a, w, moved);
  }

  lemma RunningIsDispatched(cfg: Config, log: Log, completed: set<nat>, a: Actor, w: nat)
    requires ActorOk(cfg, log, completed, a) && w < |a.workers| && Busy(a.workers[w].running)
    ensures a.workers[w].running.position in a.dispatched
    ensures a.workers[w].running.Finished? ==> a.workers[w].running.position in completed
  {
    assert WorkerOk(cfg, a.workers[w], w, a.dispatched, a.keys, completed);
  }

  lemma FailKeepsActor(cfg: Config, log: Log, completed: set<nat>, a: Actor, w: nat)
    requires ActorOk(cfg, log, completed, a) && w < |a.workers| && Busy(a.workers[w].running)
    ensures
      var worker := a.workers[w];
      ActorOk(cfg, log, completed,
              SetWorker(a, w, worker.(running := Down)).(acks := a.acks + [Failed(worker.running.position)]))
  {
    RunningIsDispatched(cfg, log, completed, a, w);
    MovedActor(cfg, log, completed, a, w, a.workers[w].(running := Down), [Failed(a.workers[w].running.position)]);
  }

  lemma SendAckKeepsActor(cfg: Config, log: Log, completed: set<nat>, a: Actor, w: nat)
    requires ActorOk(cfg, log, completed, a) && w < |a.workers| && a.workers[w].running.Finished?
    ensures
      var worker := a.workers[w];
      ActorOk(cfg, log, completed,
              SetWorker(a, w, worker.(running := Idle)).(acks := a.acks + [Done(worker.running.position)]))
  {
    RunningIsDispatched(cfg, log, completed, a, w);
    MovedActor(cfg, log, completed, a, w, a.workers[w].(running := Idle), [Done(a.workers[w].running.position)]);
  }

  lemma WorkerStepKeepsActor(
    cfg: Config, log: Log, deleted: set<KeyId>, db: Option<nat>, completed: set<nat>, a: Actor, step: ActorStep)
    requires ActorOk(cfg, log, completed, a)
    requires step.Take? || step.Finish? || step.SendAck? || step.Fail?
    ensures
      var o := ActorNext(cfg, log, deleted, db, completed, a, step);
      ActorOk(cfg, log, o.completed, o.actor) && completed <= o.completed
  {
    var w := step.w;
    if step.SendAck? {
      if w < |a.workers| && a.workers[w].running.Finished? {
        SendAckKeepsActor(cfg, log, completed, a, w);
      }
    } else if step.Fail? {
      if w < |a.workers| && Busy(a.workers[w].running) {
        FailKeepsActor(cfg, log, completed, a, w);
      }
    } else if step.Take? {
      if w < |a.workers| && a.workers[w].running.Idle? && a.workers[w].queue != [] {
        TakeKeepsActor(cfg, log, completed, a, w);
      }
    } else if w < |a.workers| && a.workers[w].running.Handling? {
      FinishKeepsActor(cfg, log, completed, a, w);
    }
  }

  lemma DeliverKeepsActor(cfg: Config, log: Log, deleted: set<KeyId>, db: Option<nat>, completed: set<nat>, a: Actor)
    requires ActorOk(cfg, log, completed, a) && a.phase.Delivering?
    ensures
      var o := DeliverNext(cfg, deleted, db, completed, a);
      ActorOk(cfg, log, o.completed, o.actor) && completed <= o.completed
  {
    if Skipped(Reveal(deleted, a.phase.rest[0])) {
      SkipKeepsActor(cfg, log, deleted, db, completed, a);
    } else {
      TellKeepsActor(cfg, log, deleted, db, completed, a);
    }
  }

  lemma DispatcherCompletesNothing(
    cfg: Config, log: Log, deleted: set<KeyId>, db: Option<nat>, completed: set<nat>, a: Actor, step: ActorStep)
    requires WellFormed(cfg, a) && (step.Fetch? || step.Record? || step.HandleAck? || step.Stop?)
    ensures ActorNext(cfg, log, deleted, db, completed, a, step).completed == completed
  {}

  lemma DispatcherStepKeepsActor(
    cfg: Config, log: Log, deleted: set<KeyId>, db: Option<nat>, completed: set<nat>, a: Actor, step: ActorStep)
    requires ActorOk(cfg, log, completed, a) && (step.Fetch? || step.Record? || step.HandleAck? || step.Stop?)
    ensures
      var o := ActorNext(cfg, log, deleted, db, completed, a, step);
      ActorOk(cfg, log, o.completed, o.actor) && completed <= o.completed
  {
    DispatcherCompletesNothing(cfg, log, deleted, db, completed, a, step);
    match step
    case Fetch(upto) => FetchKeepsActor(cfg, log, deleted, db, completed, a, upto);
    case Record => RecordKeepsActor(cfg, log, deleted, db, completed, a);
    case HandleAck => AckKeepsActor(cfg, log, deleted, db, completed, a);
    case Stop => StopKeepsActor(cfg, log, completed, a);
  }

  lemma StopKeepsActor(cfg: Config, log: Log, completed: set<nat>, a: Actor)
    requires ActorOk(cfg, log, completed, a)
    ensures ActorOk(cfg, log, completed, a.(phase := Stopped))
  {
    assert Undelivered(Stopped) == [];
    assert PlaceOk(cfg, log, a.start, a.tracker.cursor, a.dispatched, []);
  }

  /** Every step of an actor keeps its invariant, and completions are never taken back. */
  lemma ActorNextKeepsActor(
    cfg: Config, log: Log, deleted: set<KeyId>, db: Option<nat>, completed: set<nat>, a: Actor, step: ActorStep)
    requires ActorOk(cfg, log, completed, a)
    ensures
      var o := ActorNext(cfg, log, deleted, db, completed, a, step);
      ActorOk(cfg, log, o.completed, o.actor) && completed <= o.completed
  {
    if step.Deliver? {
      if a.phase.Delivering? {
        DeliverKeepsActor(cfg, log, deleted, db, completed, a);
      }
    } else if step.Fetch? || step.Record? || step.HandleAck? || step.Stop? {
      DispatcherStepKeepsActor(cfg, log, deleted, db, completed, a, step);
    } else {
      WorkerStepKeepsActor(cfg, log, deleted, db, completed, a, step);
    }
  }
}

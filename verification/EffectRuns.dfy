/** The guarantees of effect delivery over whole runs. */
module EffectRuns {
  import opened Prelude
  import opened EventLog
  import opened EffectActor
  import opened EffectDelivery
  import opened EffectGuarantees

  // ---------- what the environment does to an actor ----------

  lemma AppendedBatch(cfg: Config, log: Log, e: Event, batch: seq<StoredEvent<Json>>, after: nat, upto: nat)
    requires upto <= |log| && BatchOk(cfg, log, batch, after, upto)
    ensures BatchOk(cfg, log + [e], batch, after, upto)
  {
    forall i | 0 <= i < |batch|
      ensures MatchesAt(log + [e], cfg.query, batch[i].position)
      ensures batch[i] == Stored((log + [e])[batch[i].position - 1], batch[i].position)
    {
      assert (log + [e])[batch[i].position - 1] == log[batch[i].position - 1];
    }
  }

  lemma AppendKeepsActor(cfg: Config, log: Log, e: Event, completed: set<nat>, a: Actor)
    requires ActorOk(cfg, log, completed, a)
    ensures ActorOk(cfg, log + [e], completed, a)
  {
    AppendedBatch(cfg, log, e, Undelivered(a.phase), a.start, a.tracker.cursor);
    assert PlaceOk(cfg, log + [e], a.start, a.tracker.cursor, a.dispatched, Undelivered(a.phase));
  }

  lemma AppendedLive(cfg: Config, log: Log, e: Event, deleted: set<KeyId>, p: nat)
    requires p <= |log|
    ensures Live(cfg, log + [e], deleted, p) <==> Live(cfg, log, deleted, p)
  {
    if p > 0 {
      assert (log + [e])[p - 1] == log[p - 1];
    }
  }

  lemma AppendKeepsCovered(cfg: Config, log: Log, e: Event, deleted: set<KeyId>, completed: set<nat>, a: Actor)
    requires a.tracker.cursor <= |log| && ActorCovered(cfg, log, deleted, completed, a)
    ensures ActorCovered(cfg, log + [e], deleted, completed, a)
  {
    forall p: nat | p <= a.tracker.cursor && Live(cfg, log + [e], deleted, p) ensures Live(cfg, log, deleted, p) {
      AppendedLive(cfg, log, e, deleted, p);
    }
  }

  lemma AppendKeepsLossless(cfg: Config, log: Log, e: Event, deleted: set<KeyId>, completed: set<nat>, db: Option<nat>)
    requires Lossless(cfg, log, deleted, completed, db)
    ensures Lossless(cfg, log + [e], deleted, completed, db)
  {
    if db.Some? {
      forall p: nat | p <= db.value && Live(cfg, log + [e], deleted, p) ensures p in completed {
        AppendedLive(cfg, log, e, deleted, p);
      }
    }
  }

  /** Shredding only ever takes events out of the live ones. */
  lemma ShreddingSkipsMore(deleted: set<KeyId>, key: KeyId, e: StoredEvent<Json>)
    requires Skipped(Reveal(deleted, e))
    ensures Skipped(Reveal(deleted + {key}, e))
  {}

  lemma ShreddedLive(cfg: Config, log: Log, deleted: set<KeyId>, key: KeyId, p: nat)
    requires Live(cfg, log, deleted + {key}, p)
    ensures Live(cfg, log, deleted, p)
  {
    if Skipped(Reveal(deleted, Stored(log[p - 1], p))) {
      ShreddingSkipsMore(deleted, key, Stored(log[p - 1], p));
    }
  }

  lemma ShredKeepsCovered(cfg: Config, log: Log, deleted: set<KeyId>, key: KeyId, completed: set<nat>, a: Actor)
    requires ActorCovered(cfg, log, deleted, completed, a)
    ensures ActorCovered(cfg, log, deleted + {key}, completed, a)
  {
    forall p: nat | Live(cfg, log, deleted + {key}, p) ensures Live(cfg, log, deleted, p) {
      ShreddedLive(cfg, log, deleted, key, p);
    }
  }

  lemma ShredKeepsLow(deleted: set<KeyId>, key: KeyId, a: Actor)
    requires ActorLow(deleted, a)
    ensures ActorLow(deleted + {key}, a)
  {
    forall e | Skipped(Reveal(deleted, e)) ensures Skipped(Reveal(deleted + {key}, e)) {
      ShreddingSkipsMore(deleted, key, e);
    }
  }

  lemma ShredKeepsLossless(cfg: Config, log: Log, deleted: set<KeyId>, key: KeyId, completed: set<nat>, db: Option<nat>)
    requires Lossless(cfg, log, deleted, completed, db)
    ensures Lossless(cfg, log, deleted + {key}, completed, db)
  {
    forall p: nat | Live(cfg, log, deleted + {key}, p) ensures Live(cfg, log, deleted, p) {
      ShreddedLive(cfg, log, deleted, key, p);
    }
  }

  lemma FreshIsOk(cfg: Config, log: Log, completed: set<nat>, db: Option<nat>)
    requires cfg.poolSize > 0 && (db.Some? ==> db.value <= |log|)
    ensures ActorOk(cfg, log, completed, Fresh(cfg, db))
  {
    var a := Fresh(cfg, db);
    forall w | 0 <= w < |a.workers| ensures WorkerOk(cfg, a.workers[w], w, [], map[], completed) {
      assert a.workers[w] == Worker([], Idle, []);
    }
    Assemble(cfg, log, completed, a, ResumePosition(db), [], [], {}, {}, {}, a.workers, [], map[]);
  }

  lemma FreshIsCovered(cfg: Config, log: Log, deleted: set<KeyId>, completed: set<nat>, db: Option<nat>)
    requires Lossless(cfg, log, deleted, completed, db)
    ensures ActorCovered(cfg, log, deleted, completed, Fresh(cfg, db))
  {}

  // ---------- always ----------

  ghost predicate SystemOk(cfg: Config, s: System) {
    && (s.db.Some? ==> s.db.value <= |s.log|)
    && forall id :: id in s.actors ==> ActorOk(cfg, s.log, s.completed, s.actors[id])
  }

  lemma AckWritesWithinCursor(t: Tracker, db: Option<nat>, position: nat)
    requires 0 !in t.inFlight && t.highestCompleted <= t.cursor && position <= t.cursor
    requires forall p :: p in t.inFlight ==> p <= t.cursor
    ensures
      var o := Acked(t, db, position);
      o.db != db ==> o.db.Some? && o.db.value <= t.cursor
  {}

  lemma SkipWritesWithinLog(cfg: Config, log: Log, deleted: set<KeyId>, db: Option<nat>, completed: set<nat>, a: Actor)
    requires InStep(cfg, log, a) && a.phase.Delivering? && Skipped(Reveal(deleted, a.phase.rest[0]))
    ensures
      var o := DeliverNext(cfg, deleted, db, completed, a);
      o.db != db ==> o.db.Some? && o.db.value <= |log|
  {
    var p := a.phase.rest[0].position;
    SkipShape(cfg, deleted, db, completed, a);
    AckWritesWithinCursor(a.tracker.(inFlight := a.tracker.inFlight + {p}), db, p);
  }

  lemma AckStepWritesWithinLog(cfg: Config, log: Log, deleted: set<KeyId>, db: Option<nat>, completed: set<nat>, a: Actor)
    requires InStep(cfg, log, a) && a.phase.Ready? && a.acks != [] && a.acks[0].Done?
    requires a.acks[0].position <= a.tracker.cursor
    ensures
      var o := ActorNext(cfg, log, deleted, db, completed, a, HandleAck);
      o.db != db ==> o.db.Some? && o.db.value <= |log|
  {
    AckShape(cfg, log, deleted, db, completed, a);
    AckWritesWithinCursor(a.tracker, db, a.acks[0].position);
  }

  lemma StepWritesWithinLog(
    cfg: Config, log: Log, deleted: set<KeyId>, db: Option<nat>, completed: set<nat>, a: Actor, step: ActorStep)
    requires ActorOk(cfg, log, completed, a) && (db.Some? ==> db.value <= |log|)
    ensures
      var o := ActorNext(cfg, log, deleted, db, completed, a, step);
      o.db.Some? ==> o.db.value <= |log|
  {
    if step.Deliver? && a.phase.Delivering? && Skipped(Reveal(deleted, a.phase.rest[0])) {
      ActorIsInStep(cfg, log, completed, a);
      SkipWritesWithinLog(cfg, log, deleted, db, completed, a);
    } else if step.HandleAck? && a.phase.Ready? && a.acks != [] && a.acks[0].Done? {
      ActorIsInStep(cfg, log, completed, a);
      assert AckOk(a.acks[0], a.dispatched, completed);
      AckStepWritesWithinLog(cfg, log, deleted, db, completed, a);
    } else {
      QuietStep(cfg, log, deleted, db, completed, a, step);
    }
  }

  lemma ActKeepsOk(cfg: Config, s: System, id: nat, step: ActorStep)
    requires SystemOk(cfg, s) && id in s.actors
    ensures SystemOk(cfg, Apply(cfg, s, Act(id, step)))
  {
    assert ActorOk(cfg, s.log, s.completed, s.actors[id]);
    var o := ActorNext(cfg, s.log, s.deleted, s.db, s.completed, s.actors[id], step);
    var next := Apply(cfg, s, Act(id, step));
    assert next == System(s.log, s.deleted, o.db, o.completed, s.actors[id := o.actor]);
    ActorNextKeepsActor(cfg, s.log, s.deleted, s.db, s.completed, s.actors[id], step);
    StepWritesWithinLog(cfg, s.log, s.deleted, s.db, s.completed, s.actors[id], step);
    forall other | other in next.actors ensures ActorOk(cfg, s.log, o.completed, next.actors[other]) {
      if other != id {
        CompletedActor(cfg, s.log, s.completed, o.completed, s.actors[other]);
      }
    }
  }

  lemma AppendKeepsOk(cfg: Config, s: System, e: Event)
    requires SystemOk(cfg, s)
    ensures SystemOk(cfg, s.(log := s.log + [e]))
  {
    forall id | id in s.actors ensures ActorOk(cfg, s.log + [e], s.completed, s.actors[id]) {
      AppendKeepsActor(cfg, s.log, e, s.completed, s.actors[id]);
    }
  }

  lemma StartKeepsOk(cfg: Config, s: System, id: nat)
    requires cfg.poolSize > 0 && SystemOk(cfg, s)
    ensures SystemOk(cfg, s.(actors := s.actors[id := Fresh(cfg, s.db)]))
  {
    FreshIsOk(cfg, s.log, s.completed, s.db);
  }

  lemma StepKeepsOk(cfg: Config, s: System, step: Step)
    requires cfg.poolSize > 0 && SystemOk(cfg, s)
    ensures SystemOk(cfg, Apply(cfg, s, step))
  {
    match step
    case Append(e) => AppendKeepsOk(cfg, s, e);
    case Shred(_) =>
    case Start(id) => StartKeepsOk(cfg, s, id);
    case Act(id, actorStep) =>
      if id in s.actors {
        ActKeepsOk(cfg, s, id, actorStep);
      }
  }

  lemma RunKeepsOk(cfg: Config, s: System, steps: seq<Step>)
    requires cfg.poolSize > 0 && SystemOk(cfg, s)
    ensures SystemOk(cfg, Exec(cfg, s, steps))
  {
    var allowed := (t: System, step: Step) => true;
    var holds := (t: System) => SystemOk(cfg, t);
    forall t, step | holds(t) && allowed(t, step) ensures holds(Apply(cfg, t, step)) {
      StepKeepsOk(cfg, t, step);
    }
    RunInduction(cfg, s, steps, allowed, holds);
  }

  // ---------- what loses nothing ----------

  /** Everything up to the persisted watermark is completed, and everything up to each cursor is
      completed or accounted for. */
  ghost predicate SystemCovered(cfg: Config, s: System) {
    && Lossless(cfg, s.log, s.deleted, s.completed, s.db)
    && forall id :: id in s.actors ==> ActorCovered(cfg, s.log, s.deleted, s.completed, s.actors[id])
  }

  lemma ActKeepsCovered(cfg: Config, s: System, id: nat, step: ActorStep)
    requires SystemOk(cfg, s) && SystemCovered(cfg, s) && ExactStep(s, Act(id, step)) && id in s.actors
    ensures SystemCovered(cfg, Apply(cfg, s, Act(id, step)))
  {
    var a := s.actors[id];
    assert ActorOk(cfg, s.log, s.completed, a) && ActorCovered(cfg, s.log, s.deleted, s.completed, a);
    var o := ActorNext(cfg, s.log, s.deleted, s.db, s.completed, a, step);
    var next := Apply(cfg, s, Act(id, step));
    assert next == System(s.log, s.deleted, o.db, o.completed, s.actors[id := o.actor]);
    ActorNextKeepsActor(cfg, s.log, s.deleted, s.db, s.completed, a, step);
    ActorNextKeepsCovered(cfg, s.log, s.deleted, s.db, s.completed, a, step);
    forall other | other in next.actors ensures ActorCovered(cfg, s.log, s.deleted, o.completed, next.actors[other]) {
      if other != id {
        MoreCompletedKeepsCovered(cfg, s.log, s.deleted, s.completed, o.completed, s.actors[other], s.actors[other]);
      }
    }
  }

  lemma StepKeepsCovered(cfg: Config, s: System, step: Step)
    requires SystemOk(cfg, s) && SystemCovered(cfg, s) && ExactStep(s, step)
    ensures SystemCovered(cfg, Apply(cfg, s, step))
  {
    match step
    case Append(e) =>
      AppendKeepsLossless(cfg, s.log, e, s.deleted, s.completed, s.db);
      forall id | id in s.actors ensures ActorCovered(cfg, s.log + [e], s.deleted, s.completed, s.actors[id]) {
        assert ActorOk(cfg, s.log, s.completed, s.actors[id]);
        AppendKeepsCovered(cfg, s.log, e, s.deleted, s.completed, s.actors[id]);
      }
    case Shred(key) =>
      ShredKeepsLossless(cfg, s.log, s.deleted, key, s.completed, s.db);
      forall id | id in s.actors ensures ActorCovered(cfg, s.log, s.deleted + {key}, s.completed, s.actors[id]) {
        ShredKeepsCovered(cfg, s.log, s.deleted, key, s.completed, s.actors[id]);
      }
    case Start(id) => FreshIsCovered(cfg, s.log, s.deleted, s.completed, s.db);
    case Act(id, actorStep) =>
      if id in s.actors {
        ActKeepsCovered(cfg, s, id, actorStep);
      }
  }

  lemma DeliverIsDeliverNext(cfg: Config, s: System, id: nat)
    requires id in s.actors && WellFormed(cfg, s.actors[id]) && s.actors[id].phase.Delivering?
    ensures
      var o := DeliverNext(cfg, s.deleted, s.db, s.completed, s.actors[id]);
      Apply(cfg, s, Act(id, Deliver)) == System(s.log, s.deleted, o.db, o.completed, s.actors[id := o.actor])
  {}

  /** A step that is not exact loses an event on the spot. */
  lemma InexactStepLoses(cfg: Config, s: System, step: Step)
    requires SystemOk(cfg, s) && SystemCovered(cfg, s) && !ExactStep(s, step)
    ensures !NothingLost(cfg, Apply(cfg, s, step))
  {
    var a := s.actors[step.id];
    assert ActorOk(cfg, s.log, s.completed, a) && ActorCovered(cfg, s.log, s.deleted, s.completed, a);
    SkipLosesNothingExactly(cfg, s.log, s.deleted, s.db, s.completed, a);
    DeliverIsDeliverNext(cfg, s, step.id);
  }

  /** Where nothing is lost so far, a step loses nothing exactly when it is exact. */
  lemma StepLosesNothingExactly(cfg: Config, s: System, step: Step)
    requires SystemOk(cfg, s) && SystemCovered(cfg, s)
    ensures NothingLost(cfg, Apply(cfg, s, step)) <==> ExactStep(s, step)
    ensures NothingLost(cfg, Apply(cfg, s, step)) ==> SystemCovered(cfg, Apply(cfg, s, step))
  {
    if ExactStep(s, step) {
      StepKeepsCovered(cfg, s, step);
    } else {
      InexactStepLoses(cfg, s, step);
    }
  }

  /** Induction over a run whose steps are all allowed where they happen. */
  lemma {:induction false} RunInduction(
    cfg: Config, s: System, steps: seq<Step>, allowed: (System, Step) -> bool, holds: System -> bool)
    requires holds(s)
    requires forall i :: 0 <= i < |steps| ==> allowed(Exec(cfg, s, steps[..i]), steps[i])
    requires forall t, step :: holds(t) && allowed(t, step) ==> holds(Apply(cfg, t, step))
    ensures holds(Exec(cfg, s, steps))
  {
    if steps != [] {
      var front := steps[..|steps| - 1];
      forall i | 0 <= i < |front| ensures allowed(Exec(cfg, s, front[..i]), front[i]) {
        assert front[..i] == steps[..i];
        assert allowed(Exec(cfg, s, steps[..i]), steps[i]);
      }
      RunInduction(cfg, s, front, allowed, holds);
      assert allowed(Exec(cfg, s, steps[..|front|]), steps[|front|]);
    }
  }

  /** Induction over a run that is good at every moment: where what is kept holds, only allowed steps lead
      to a good state, and they keep it. */
  lemma {:induction false} GoodRunIsAllowed(
    cfg: Config, s: System, steps: seq<Step>, allowed: (System, Step) -> bool, holds: System -> bool, good: System -> bool)
    requires holds(s)
    requires forall k :: 0 <= k <= |steps| ==> good(Exec(cfg, s, steps[..k]))
    requires forall t, step :: holds(t) && good(Apply(cfg, t, step)) ==> allowed(t, step) && holds(Apply(cfg, t, step))
    ensures forall i :: 0 <= i < |steps| ==> allowed(Exec(cfg, s, steps[..i]), steps[i])
    ensures holds(Exec(cfg, s, steps))
  {
    if steps != [] {
      var n := |steps| - 1;
      var front := steps[..n];
      forall k | 0 <= k <= n ensures good(Exec(cfg, s, front[..k])) {
        assert front[..k] == steps[..k];
      }
      GoodRunIsAllowed(cfg, s, front, allowed, holds, good);
      assert steps[..n + 1] == steps && good(Exec(cfg, s, steps[..n + 1]));
      forall i | 0 <= i < |steps| ensures allowed(Exec(cfg, s, steps[..i]), steps[i]) {
        if i < n {
          assert front[..i] == steps[..i];
          assert allowed(Exec(cfg, s, front[..i]), front[i]);
        }
      }
    }
  }

  /** A run along which nothing is ever lost is exact. */
  lemma LosslessRunIsExact(cfg: Config, s: System, steps: seq<Step>)
    requires cfg.poolSize > 0 && SystemOk(cfg, s) && SystemCovered(cfg, s)
    requires forall k :: 0 <= k <= |steps| ==> NothingLost(cfg, Exec(cfg, s, steps[..k]))
    ensures ExactRun(cfg, s, steps)
  {
    var allowed := (t: System, step: Step) => ExactStep(t, step);
    var holds := (t: System) => SystemOk(cfg, t) && SystemCovered(cfg, t);
    var good := (t: System) => NothingLost(cfg, t);
    forall t, step | holds(t) && good(Apply(cfg, t, step)) ensures allowed(t, step) && holds(Apply(cfg, t, step)) {
      StepKeepsOk(cfg, t, step);
      StepLosesNothingExactly(cfg, t, step);
    }
    GoodRunIsAllowed(cfg, s, steps, allowed, holds, good);
  }

  lemma ExactRunIsLossless(cfg: Config, s: System, steps: seq<Step>)
    requires cfg.poolSize > 0 && SystemOk(cfg, s) && SystemCovered(cfg, s) && ExactRun(cfg, s, steps)
    ensures SystemCovered(cfg, Exec(cfg, s, steps))
  {
    var allowed := (t: System, step: Step) => ExactStep(t, step);
    var holds := (t: System) => SystemOk(cfg, t) && SystemCovered(cfg, t);
    forall t, step | holds(t) && allowed(t, step) ensures holds(Apply(cfg, t, step)) {
      StepKeepsOk(cfg, t, step);
      StepKeepsCovered(cfg, t, step);
    }
    RunInduction(cfg, s, steps, allowed, holds);
  }

  // ---------- what never goes back ----------

  /** Every mark is below what its actor still has to do, and the watermark is at or above `mark`. */
  ghost predicate RaisedAbove(mark: Option<nat>, s: System) {
    Raised(mark, s.db) && forall id :: id in s.actors ==> ActorLow(s.deleted, s.actors[id])
  }

  lemma ActKeepsRaised(cfg: Config, mark: Option<nat>, s: System, id: nat, step: ActorStep)
    requires SystemOk(cfg, s) && RaisedAbove(mark, s) && SafeStep(s, Act(id, step)) && id in s.actors
    ensures RaisedAbove(mark, Apply(cfg, s, Act(id, step)))
  {
    var a := s.actors[id];
    assert ActorOk(cfg, s.log, s.completed, a) && ActorLow(s.deleted, a);
    var o := ActorNext(cfg, s.log, s.deleted, s.db, s.completed, a, step);
    assert Apply(cfg, s, Act(id, step)) == System(s.log, s.deleted, o.db, o.completed, s.actors[id := o.actor]);
    ActorNextRaises(cfg, s.log, s.deleted, s.db, s.completed, a, step);
  }

  lemma ShredKeepsRaised(mark: Option<nat>, s: System, key: KeyId)
    requires RaisedAbove(mark, s)
    ensures RaisedAbove(mark, s.(deleted := s.deleted + {key}))
  {
    forall id | id in s.actors ensures ActorLow(s.deleted + {key}, s.actors[id]) {
      ShredKeepsLow(s.deleted, key, s.actors[id]);
    }
  }

  lemma StepKeepsRaised(cfg: Config, mark: Option<nat>, s: System, step: Step)
    requires SystemOk(cfg, s) && RaisedAbove(mark, s) && SafeStep(s, step)
    ensures RaisedAbove(mark, Apply(cfg, s, step))
  {
    match step
    case Append(_) =>
    case Shred(key) => ShredKeepsRaised(mark, s, key);
    case Start(id) =>
      var a := Fresh(cfg, s.db);
      assert ActorLow(s.deleted, a);
    case Act(id, actorStep) =>
      if id in s.actors {
        ActKeepsRaised(cfg, mark, s, id, actorStep);
      }
  }

  lemma SafeRunRaises(cfg: Config, mark: Option<nat>, s: System, steps: seq<Step>)
    requires cfg.poolSize > 0 && SystemOk(cfg, s) && RaisedAbove(mark, s) && SafeRun(cfg, s, steps)
    ensures SystemOk(cfg, Exec(cfg, s, steps)) && RaisedAbove(mark, Exec(cfg, s, steps))
  {
    var allowed := (t: System, step: Step) => SafeStep(t, step);
    var holds := (t: System) => SystemOk(cfg, t) && RaisedAbove(mark, t);
    forall t, step | holds(t) && allowed(t, step) ensures holds(Apply(cfg, t, step)) {
      StepKeepsOk(cfg, t, step);
      StepKeepsRaised(cfg, mark, t, step);
    }
    RunInduction(cfg, s, steps, allowed, holds);
  }

  lemma {:induction false} ExecSplits(cfg: Config, s: System, steps: seq<Step>, k: nat)
    requires k <= |steps|
    ensures Exec(cfg, s, steps) == Exec(cfg, Exec(cfg, s, steps[..k]), steps[k..])
    decreases |steps|
  {
    if k == |steps| {
      assert steps[..k] == steps;
    } else {
      var front := steps[..|steps| - 1];
      ExecSplits(cfg, s, front, k);
      assert front[..k] == steps[..k];
      assert steps[k..][..|steps[k..]| - 1] == front[k..];
    }
  }

  lemma SafeParts(cfg: Config, s: System, steps: seq<Step>, k: nat)
    requires SafeRun(cfg, s, steps) && k <= |steps|
    ensures SafeRun(cfg, s, steps[..k]) && SafeRun(cfg, Exec(cfg, s, steps[..k]), steps[k..])
  {
    var front, back, mid := steps[..k], steps[k..], Exec(cfg, s, steps[..k]);
    forall i | 0 <= i < |front| ensures SafeStep(Exec(cfg, s, front[..i]), front[i]) {
      assert front[..i] == steps[..i];
      assert SafeStep(Exec(cfg, s, steps[..i]), steps[i]);
    }
    forall i | 0 <= i < |back| ensures SafeStep(Exec(cfg, mid, back[..i]), back[i]) {
      ExecSplits(cfg, s, steps[..k + i], k);
      assert steps[..k + i][..k] == front && steps[..k + i][k..] == back[..i];
      assert SafeStep(Exec(cfg, s, steps[..k + i]), steps[k + i]);
    }
  }

  // ---------- the guarantees ----------

  lemma ExactPrefix(cfg: Config, s: System, steps: seq<Step>, k: nat)
    requires ExactRun(cfg, s, steps) && k <= |steps|
    ensures ExactRun(cfg, s, steps[..k])
  {
    forall i | 0 <= i < k ensures ExactStep(Exec(cfg, s, steps[..k][..i]), steps[..k][i]) {
      assert steps[..k][..i] == steps[..i];
      assert ExactStep(Exec(cfg, s, steps[..i]), steps[i]);
    }
  }

  /** At-least-once, exactly.  Over every run, of any number of incarnations, it holds at every
      moment that each live matching event at or below the persisted watermark has been completed
      (so that a restart, which subscribes strictly after it, loses none), if and only if no skip
      of the run writes the cursor past an event of its batch that is still to be done. */
  lemma AtLeastOnceExactly(cfg: Config, log: Log, steps: seq<Step>)
    requires cfg.poolSize > 0
    ensures (forall k :: 0 <= k <= |steps| ==> NothingLost(cfg, Exec(cfg, Initial(log), steps[..k])))
       <==> ExactRun(cfg, Initial(log), steps)
  {
    var s := Initial(log);
    if forall k :: 0 <= k <= |steps| ==> NothingLost(cfg, Exec(cfg, s, steps[..k])) {
      LosslessRunIsExact(cfg, s, steps);
    }
    if ExactRun(cfg, s, steps) {
      forall k | 0 <= k <= |steps| ensures NothingLost(cfg, Exec(cfg, s, steps[..k])) {
        ExactPrefix(cfg, s, steps, k);
        ExactRunIsLossless(cfg, s, steps[..k]);
      }
    }
  }

  /** On a run in which no skip with an empty pool has a readable event behind it in its batch,
      nothing is lost either, and the persisted watermark never goes back. */
  lemma WatermarkNeverDecreases(cfg: Config, log: Log, steps: seq<Step>, k: nat)
    requires cfg.poolSize > 0 && SafeRun(cfg, Initial(log), steps) && k <= |steps|
    ensures Raised(Exec(cfg, Initial(log), steps[..k]).db, Exec(cfg, Initial(log), steps).db)
    ensures ExactRun(cfg, Initial(log), steps)
  {
    var mid := Exec(cfg, Initial(log), steps[..k]);
    SafeParts(cfg, Initial(log), steps, k);
    SafeRunRaises(cfg, None, Initial(log), steps[..k]);
    SafeRunRaises(cfg, mid.db, mid, steps[k..]);
    ExecSplits(cfg, Initial(log), steps, k);
    forall i | 0 <= i < |steps| ensures ExactStep(Exec(cfg, Initial(log), steps[..i]), steps[i]) {
      assert SafeStep(Exec(cfg, Initial(log), steps[..i]), steps[i]);
    }
  }

  /** Between batches, on every run, what is in flight is exactly what was dispatched and not
      acked, and there is never more of it than the limit plus one batch. */
  lemma BooksBalance(cfg: Config, log: Log, steps: seq<Step>, id: nat)
    requires cfg.poolSize > 0
    requires id in Exec(cfg, Initial(log), steps).actors
    requires Exec(cfg, Initial(log), steps).actors[id].phase.Ready?
    ensures
      var a := Exec(cfg, Initial(log), steps).actors[id];
      && a.tracker.inFlight == Elements(a.dispatched) - a.acked
      && a.acked <= Elements(a.dispatched)
      && |a.tracker.inFlight| <= MAX_IN_FLIGHT + a.largest
  {
    ReachedActor(cfg, log, steps, id);
  }

  lemma ReachedActor(cfg: Config, log: Log, steps: seq<Step>, id: nat)
    requires cfg.poolSize > 0 && id in Exec(cfg, Initial(log), steps).actors
    ensures
      var s := Exec(cfg, Initial(log), steps);
      && ActorOk(cfg, s.log, s.completed, s.actors[id])
      && (!s.actors[id].phase.Stopped? ==> ActorBooksOk(s.actors[id]))
  {
    RunKeepsOk(cfg, Initial(log), steps);
  }

  lemma DrainingAck(cfg: Config, log: Log, deleted: set<KeyId>, db: Option<nat>, completed: set<nat>, a: Actor)
    requires InStep(cfg, log, a) && a.phase.Ready? && a.acks != [] && a.acks[0].Done?
    requires a.acks[0].position <= a.tracker.cursor && a.tracker.inFlight <= {a.acks[0].position}
    ensures
      var o := ActorNext(cfg, log, deleted, db, completed, a, HandleAck);
      var cursor := a.tracker.cursor;
      && o.db == (if a.tracker.last == db then Some(cursor) else db)
      && (o.actor.phase.Stopped? <==> a.tracker.last != db && a.tracker.last != Some(cursor))
      && (!o.actor.phase.Stopped? ==> o.actor.tracker.last == Some(cursor))
  {
    AckShape(cfg, log, deleted, db, completed, a);
    assert a.tracker.inFlight - {a.acks[0].position} == {};
  }

  lemma ExecSnoc(cfg: Config, s: System, steps: seq<Step>, step: Step)
    ensures Exec(cfg, s, steps + [step]) == Apply(cfg, Exec(cfg, s, steps), step)
  {
    assert (steps + [step])[..|steps|] == steps;
  }

  /** An ack that drains the pool persists exactly the cursor, unless that is already what this
      incarnation last persisted or another incarnation got in between. */
  lemma DrainPersistsCursor(cfg: Config, log: Log, steps: seq<Step>, id: nat)
    requires cfg.poolSize > 0 && id in Exec(cfg, Initial(log), steps).actors
    requires
      var a := Exec(cfg, Initial(log), steps).actors[id];
      a.phase.Ready? && a.acks != [] && a.acks[0].Done? && a.tracker.inFlight <= {a.acks[0].position}
    ensures
      var s := Exec(cfg, Initial(log), steps);
      var next := Exec(cfg, Initial(log), steps + [Act(id, HandleAck)]);
      var cursor := s.actors[id].tracker.cursor;
      && next.db == (if s.actors[id].tracker.last == s.db then Some(cursor) else s.db)
      && (next.actors[id].phase.Stopped? <==> s.actors[id].tracker.last !in {s.db, Some(cursor)})
      && (!next.actors[id].phase.Stopped? ==> next.actors[id].tracker.last == Some(cursor))
  {
    RunKeepsOk(cfg, Initial(log), steps);
    var s := Exec(cfg, Initial(log), steps);
    var a := s.actors[id];
    assert ActorOk(cfg, s.log, s.completed, a);
    assert a.acks[0].position <= a.tracker.cursor by {
      assert AckOk(a.acks[0], a.dispatched, s.completed);
    }
    ActorIsInStep(cfg, s.log, s.completed, a);
    DrainingAck(cfg, s.log, s.deleted, s.db, s.completed, a);
    ExecSnoc(cfg, Initial(log), steps, Act(id, HandleAck));
  }

  /** On every run an incarnation dispatches each event at most once, in log order, under one key
      each; a worker attempts only events routed to it, each at most once, in log order; what is
      not keyed goes to the global worker. */
  lemma DispatchOrder(cfg: Config, log: Log, steps: seq<Step>, id: nat)
    requires cfg.poolSize > 0 && id in Exec(cfg, Initial(log), steps).actors
    ensures
      var a := Exec(cfg, Initial(log), steps).actors[id];
      && Increasing(a.dispatched) && a.keys.Keys == Elements(a.dispatched) && |a.workers| == cfg.poolSize + 1
      && (forall w :: 0 <= w < |a.workers| ==> Increasing(a.workers[w].attempts))
      && (forall w, p :: 0 <= w < |a.workers| && p in a.workers[w].attempts ==>
            p in a.keys && Route(cfg, a.keys[p]) == w && (!a.keys[p].Keyed? ==> w == 0))
  {
    ReachedActor(cfg, log, steps, id);
    var s := Exec(cfg, Initial(log), steps);
    var a := s.actors[id];
    forall w | 0 <= w < |a.workers|
      ensures Increasing(a.workers[w].attempts)
      ensures forall p :: p in a.workers[w].attempts ==> p in a.keys && Route(cfg, a.keys[p]) == w
    {
      assert WorkerOk(cfg, a.workers[w], w, a.dispatched, a.keys, s.completed);
      var line := a.workers[w].attempts + a.workers[w].queue;
      assert a.workers[w].attempts == line[..|a.workers[w].attempts|];
    }
  }

  /** Order within a partition, on every run: when a worker has begun an event, every event that
      the same incarnation dispatched to it earlier, so every earlier one of the same key, was
      begun before it by that worker and by no other, and is completed. */
  lemma PartitionOrder(cfg: Config, log: Log, steps: seq<Step>, id: nat, w: nat, p: nat, j: nat)
    requires cfg.poolSize > 0 && id in Exec(cfg, Initial(log), steps).actors
    requires w < |Exec(cfg, Initial(log), steps).actors[id].workers|
    requires j < |Exec(cfg, Initial(log), steps).actors[id].workers[w].attempts|
    requires
      var a := Exec(cfg, Initial(log), steps).actors[id];
      var q := a.workers[w].attempts[j];
      p in a.keys && q in a.keys && p < q && Route(cfg, a.keys[p]) == Route(cfg, a.keys[q])
    ensures
      var s := Exec(cfg, Initial(log), steps);
      var a := s.actors[id];
      && (exists i :: 0 <= i < j && a.workers[w].attempts[i] == p)
      && p in s.completed
      && forall v :: 0 <= v < |a.workers| && p in a.workers[v].attempts ==> v == w
  {
    DispatchOrder(cfg, log, steps, id);
    ReachedActor(cfg, log, steps, id);
    var s := Exec(cfg, Initial(log), steps);
    OrderInWorker(cfg, s.actors[id].workers[w], w, s.actors[id].dispatched, s.actors[id].keys, s.completed, p, j);
  }

  lemma OrderInWorker(
    cfg: Config, worker: Worker, w: nat, dispatched: seq<nat>, keys: map<nat, PartitionKey>, completed: set<nat>, p: nat, j: nat)
    requires cfg.poolSize > 0 && WorkerOk(cfg, worker, w, dispatched, keys, completed) && j < |worker.attempts|
    requires p in dispatched && p in keys && Route(cfg, keys[p]) == w && p < worker.attempts[j]
    ensures (exists i :: 0 <= i < j && worker.attempts[i] == p) && p in completed
  {
    var line := worker.attempts + worker.queue;
    assert p in line;
    var i :| 0 <= i < |line| && line[i] == p;
    assert line[j] == worker.attempts[j];
    assert i < j;
    assert worker.attempts[i] == p;
  }

  // ---------- a lost event stays lost ----------

  /** The persisted watermark has passed `p`, nobody is going to dispatch it, and it is not
      completed. */
  ghost predicate LeftBehind(s: System, p: nat) {
    && s.db.Some? && p <= s.db.value
    && p !in s.completed
    && forall id :: id in s.actors ==> s.actors[id].start >= p || (s.actors[id].phase.Stopped? && p !in s.actors[id].dispatched)
  }

  lemma AckWritesAboveStart(t: Tracker, db: Option<nat>, position: nat, start: nat)
    requires 0 !in t.inFlight && start <= t.cursor
    requires forall p :: p in t.inFlight - {position} ==> start < p
    ensures
      var o := Acked(t, db, position);
      o.db != db ==> o.db.Some? && start <= o.db.value
  {}

  lemma StepWritesAboveStart(
    cfg: Config, log: Log, deleted: set<KeyId>, db: Option<nat>, completed: set<nat>, a: Actor, step: ActorStep)
    requires ActorOk(cfg, log, completed, a)
    ensures
      var o := ActorNext(cfg, log, deleted, db, completed, a, step);
      o.db != db ==> !a.phase.Stopped? && o.db.Some? && a.start <= o.db.value
  {
    if step.Deliver? && a.phase.Delivering? && Skipped(Reveal(deleted, a.phase.rest[0])) {
      assert forall p :: p in a.tracker.inFlight ==> p in a.dispatched;
      SkipShape(cfg, deleted, db, completed, a);
      var p := a.phase.rest[0].position;
      AckWritesAboveStart(a.tracker.(inFlight := a.tracker.inFlight + {p}), db, p, a.start);
    } else if step.HandleAck? && a.phase.Ready? && a.acks != [] && a.acks[0].Done? {
      assert forall p :: p in a.tracker.inFlight ==> p in a.dispatched;
      AckShape(cfg, log, deleted, db, completed, a);
      AckWritesAboveStart(a.tracker, db, a.acks[0].position, a.start);
    } else {
      QuietStep(cfg, log, deleted, db, completed, a, step);
    }
  }

  /** An actor completes only what it dispatched, and once stopped dispatches nothing more. */
  lemma CompletesOnlyDispatched(
    cfg: Config, log: Log, deleted: set<KeyId>, db: Option<nat>, completed: set<nat>, a: Actor, step: ActorStep)
    requires WellFormed(cfg, a)
    requires forall w :: 0 <= w < |a.workers| && a.workers[w].running.Handling? ==> a.workers[w].running.position in a.dispatched
    ensures
      var o := ActorNext(cfg, log, deleted, db, completed, a, step);
      && o.actor.start == a.start
      && (forall p :: p in o.completed ==> p in completed || p in a.dispatched)
      && (a.phase.Stopped? ==> o.actor.phase.Stopped? && o.actor.dispatched == a.dispatched)
  {}

  lemma NotDispatched(cfg: Config, log: Log, completed: set<nat>, a: Actor, p: nat)
    requires ActorOk(cfg, log, completed, a) && (a.start >= p || (a.phase.Stopped? && p !in a.dispatched))
    ensures p !in a.dispatched
    ensures forall w :: 0 <= w < |a.workers| && a.workers[w].running.Handling? ==> a.workers[w].running.position in a.dispatched
  {
    forall w | 0 <= w < |a.workers| && a.workers[w].running.Handling? ensures a.workers[w].running.position in a.dispatched {
      RunningIsDispatched(cfg, log, completed, a, w);
    }
  }

  lemma OutcomeLeavesBehind(s: System, id: nat, o: Effect, p: nat)
    requires LeftBehind(s, p) && id in s.actors && p !in s.actors[id].dispatched
    requires o.db != s.db ==> !s.actors[id].phase.Stopped? && o.db.Some? && s.actors[id].start <= o.db.value
    requires forall q :: q in o.completed ==> q in s.completed || q in s.actors[id].dispatched
    requires o.actor.start == s.actors[id].start
    requires s.actors[id].phase.Stopped? ==> o.actor.phase.Stopped? && o.actor.dispatched == s.actors[id].dispatched
    ensures LeftBehind(System(s.log, s.deleted, o.db, o.completed, s.actors[id := o.actor]), p)
  {}

  lemma ActLeavesBehind(cfg: Config, s: System, id: nat, step: ActorStep, p: nat)
    requires SystemOk(cfg, s) && LeftBehind(s, p) && id in s.actors
    ensures LeftBehind(Apply(cfg, s, Act(id, step)), p)
  {
    var a := s.actors[id];
    var o := ActorNext(cfg, s.log, s.deleted, s.db, s.completed, a, step);
    StepWritesAboveStart(cfg, s.log, s.deleted, s.db, s.completed, a, step);
    NotDispatched(cfg, s.log, s.completed, a, p);
    CompletesOnlyDispatched(cfg, s.log, s.deleted, s.db, s.completed, a, step);
    OutcomeLeavesBehind(s, id, o, p);
    assert Apply(cfg, s, Act(id, step)) == System(s.log, s.deleted, o.db, o.completed, s.actors[id := o.actor]);
  }

  lemma StepLeavesBehind(cfg: Config, s: System, step: Step, p: nat)
    requires SystemOk(cfg, s) && LeftBehind(s, p)
    ensures LeftBehind(Apply(cfg, s, step), p)
  {
    if step.Act? && step.id in s.actors {
      ActLeavesBehind(cfg, s, step.id, step.step, p);
    }
  }

  /** Once left behind, on every continuation left behind. */
  lemma LostForever(cfg: Config, s: System, steps: seq<Step>, p: nat)
    requires cfg.poolSize > 0 && SystemOk(cfg, s) && LeftBehind(s, p)
    ensures LeftBehind(Exec(cfg, s, steps), p)
  {
    var allowed := (t: System, step: Step) => true;
    var holds := (t: System) => SystemOk(cfg, t) && LeftBehind(t, p);
    forall t, step | holds(t) && allowed(t, step) ensures holds(Apply(cfg, t, step)) {
      StepKeepsOk(cfg, t, step);
      StepLeavesBehind(cfg, t, step, p);
    }
    RunInduction(cfg, s, steps, allowed, holds);
  }

  function Shredded(): Event {
    Event("Registered", [], None, Some("user:1"), Some(7), Payload("sealed"))
  }

  function Readable(): Event {
    Event("Registered", [], None, None, None, Payload("hello"))
  }

  /** The unsafe run: an unreadable event followed, in one batch, by a readable one.  The skip
      acks with an empty pool and writes the cursor, past the readable event. */
  function LossyRun(): seq<Step> {
    [Shred(7), Start(0), Act(0, Fetch(2)), Act(0, Deliver), Act(0, Stop)]
  }

  /** The lossy run after its batch has been fetched. */
  function Fetched(cfg: Config): System
    requires cfg.poolSize > 0
  {
    var batch := [Stored(Shredded(), 1), Stored(Readable(), 2)];
    var a := Fresh(cfg, None).(tracker := Tracker({}, 0, 2, None), phase := Delivering(batch), largest := 2);
    System([Shredded(), Readable()], {7}, None, {}, map[0 := a])
  }

  lemma LossyFetch(cfg: Config)
    requires cfg.query == All && cfg.poolSize > 0
    ensures
      var log := [Shredded(), Readable()];
      Apply(cfg, Apply(cfg, Apply(cfg, Initial(log), Shred(7)), Start(0)), Act(0, Fetch(2))) == Fetched(cfg)
  {
    var log := [Shredded(), Readable()];
    assert ReadRange(log, All, 0, 2) == [Stored(log[0], 1), Stored(log[1], 2)] by {
      assert ReadRange(log, All, 0, 0) == [];
      assert ReadRange(log, All, 0, 1) == [Stored(log[0], 1)];
    }
    var started := Apply(cfg, Apply(cfg, Initial(log), Shred(7)), Start(0));
    assert started == System(log, {7}, None, {}, map[0 := Fresh(cfg, None)]);
  }

  lemma ExecFive(cfg: Config, s: System, a: Step, b: Step, c: Step, d: Step, e: Step)
    ensures Exec(cfg, s, [a, b, c, d, e]) == Apply(cfg, Apply(cfg, Apply(cfg, Apply(cfg, Apply(cfg, s, a), b), c), d), e)
  {
    ExecSnoc(cfg, s, [], a);
    ExecSnoc(cfg, s, [a], b);
    ExecSnoc(cfg, s, [a, b], c);
    ExecSnoc(cfg, s, [a, b, c], d);
    ExecSnoc(cfg, s, [a, b, c, d], e);
    assert [a, b, c, d] + [e] == [a, b, c, d, e];
    assert [a, b, c] + [d] == [a, b, c, d];
    assert [a, b] + [c] == [a, b, c];
    assert [a] + [b] == [a, b];
    assert [] + [a] == [a];
  }

  lemma SkipPersistsCursorHere(cfg: Config, s: System)
    requires cfg.poolSize > 0 && s.deleted == {7} && s.db == None && s.actors.Keys == {0}
    requires WellFormed(cfg, s.actors[0]) && s.actors[0].tracker == Tracker({}, 0, 2, None)
    requires s.actors[0].phase == Delivering([Stored(Shredded(), 1), Stored(Readable(), 2)])
    ensures
      var next := Apply(cfg, s, Act(0, Deliver));
      && next == s.(db := Some(2), actors := next.actors) && next.actors.Keys == {0}
      && next.actors[0].dispatched == s.actors[0].dispatched && WellFormed(cfg, next.actors[0])
  {
    var a := s.actors[0];
    SkipShape(cfg, s.deleted, s.db, s.completed, a);
    assert a.tracker.inFlight + {1} - {1} == {};
    assert a.phase.rest[1..] == [Stored(Readable(), 2)];
  }

  /** Its first event skipped, the cursor is written. */
  lemma LossySkip(cfg: Config, s: System)
    requires cfg.poolSize > 0 && s == Fetched(cfg)
    ensures
      var next := Apply(cfg, s, Act(0, Deliver));
      && next == s.(db := Some(2), actors := next.actors) && next.actors.Keys == {0}
      && next.actors[0].dispatched == [] && WellFormed(cfg, next.actors[0])
  {
    SkipPersistsCursorHere(cfg, s);
  }

  lemma StopsHere(cfg: Config, s: System)
    requires s.actors.Keys == {0} && WellFormed(cfg, s.actors[0])
    ensures Apply(cfg, s, Act(0, Stop)) == s.(actors := map[0 := s.actors[0].(phase := Stopped)])
  {
    assert s.actors[0 := s.actors[0].(phase := Stopped)] == map[0 := s.actors[0].(phase := Stopped)];
  }

  lemma LossyRunState(cfg: Config)
    requires cfg.query == All && cfg.poolSize > 0
    ensures
      var log := [Shredded(), Readable()];
      var s := Exec(cfg, Initial(log), LossyRun());
      && s.log == log && s.deleted == {7} && s.db == Some(2) && s.completed == {} && s.actors.Keys == {0}
      && s.actors[0].phase.Stopped? && s.actors[0].dispatched == []
  {
    ExecFive(cfg, Initial([Shredded(), Readable()]), Shred(7), Start(0), Act(0, Fetch(2)), Act(0, Deliver), Act(0, Stop));
    LossyFetch(cfg);
    var fetched := Fetched(cfg);
    LossySkip(cfg, fetched);
    StopsHere(cfg, Apply(cfg, fetched, Act(0, Deliver)));
  }

  /** After the unsafe run the readable event is below the watermark and live, and on no
      continuation is it ever completed. */
  lemma UnsafeSkipLosesAnEvent(cfg: Config, more: seq<Step>)
    requires cfg.query == All && cfg.poolSize > 0
    ensures
      var s := Exec(cfg, Initial([Shredded(), Readable()]), LossyRun());
      !NothingLost(cfg, s) && Live(cfg, s.log, s.deleted, 2) && 2 !in Exec(cfg, s, more).completed
  {
    var log := [Shredded(), Readable()];
    var s := Exec(cfg, Initial(log), LossyRun());
    LossyRunState(cfg);
    assert Live(cfg, s.log, s.deleted, 2) by {
      assert s.log[1] == Readable();
    }
    RunKeepsOk(cfg, Initial(log), LossyRun());
    LostForever(cfg, s, more, 2);
  }
}

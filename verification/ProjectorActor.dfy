/** A projector as an object: one call takes a batch, runs the handler over its readable events
    inside a transaction, and compares and sets the persisted position. */
module ProjectorActor {
  import opened Prelude
  import opened EventLog
  import EffectActor
  import opened ProjectorDelivery

  class ProjectorDb<M> {
    var committed: Database<M>

    constructor (committed: Database<M>)
      ensures this.committed == committed
    {
      this.committed := committed;
    }
  }

  /** The readable events of a batch, as the handler sees them. */
  function Kept(deleted: set<KeyId>, batch: seq<StoredEvent<Json>>): seq<StoredEvent<Json>> {
    if batch == [] then []
    else
      var event := Reveal(deleted, batch[|batch| - 1]);
      Kept(deleted, batch[..|batch| - 1]) + (if Skipped(event) then [] else [event])
  }

  /** Which events of a batch are kept, in terms of the events as they lie in the log: those without
      a scope and those with a payload whose key is not gone, in order. */
  lemma KeptExactly(deleted: set<KeyId>, batch: seq<StoredEvent<Json>>, raw: StoredEvent<Json>)
    ensures
      var gone := raw.encryptionKeyId.Some? && raw.encryptionKeyId.value in deleted;
      Kept(deleted, batch + [raw]) ==
        Kept(deleted, batch)
        + if raw.encryptionScope.Some? && (raw.data == Null || gone) then []
          else [raw.(data := if gone then Null else raw.data)]
  {
    SeenExactly(deleted, raw);
    assert (batch + [raw])[..|batch|] == batch;
  }

  /** No handler fails on the way. */
  predicate Survives<M>(p: Projector<M>, model: M, events: seq<StoredEvent<Json>>) {
    events == []
    || (Survives(p, model, events[..|events| - 1])
        && !p.fails(Replayed(p, model, events[..|events| - 1]), events[|events| - 1]))
  }

  class Actor<M> {
    const p: Projector<M>
    const db: ProjectorDb<M>
    var last: Option<nat>
    var cursor: nat

    constructor (p: Projector<M>, db: ProjectorDb<M>)
      ensures this.p == p && this.db == db
      ensures last == db.committed.last && cursor == EffectActor.ResumePosition(db.committed.last)
    {
      this.p, this.db := p, db;
      last, cursor := db.committed.last, EffectActor.ResumePosition(db.committed.last);
    }

    /** All or nothing: a batch that goes through commits the handler folded over its readable
        events together with the new cursor; a failing handler or a lost compare-and-set leaves
        the database as it was.  A batch that does not move the cursor holds no events. */
    method ProcessBatch(batch: seq<StoredEvent<Json>>, upto: nat, deleted: set<KeyId>) returns (ok: bool)
      requires last == Some(upto) ==> batch == []
      modifies this, db
      ensures cursor == upto
      ensures
        var was := old(db.committed);
        var kept := Kept(deleted, batch);
        && (ok <==> Survives(p, was.model, kept) && (old(last) == Some(upto) || old(last) == was.last))
        && (db.committed == if ok && old(last) != Some(upto)
                            then Database(was.version + 1, Some(upto), Replayed(p, was.model, kept), was.applied + kept)
                            else was)
      ensures ok ==> last == Some(upto)
    {
      cursor := upto;
      var staged, handled := db.committed.model, [];
      assert batch[..0] == [];
      for k := 0 to |batch|
        invariant handled == Kept(deleted, batch[..k])
        invariant staged == Replayed(p, db.committed.model, handled)
        invariant Survives(p, db.committed.model, handled)
        invariant db.committed == old(db.committed) && last == old(last) && cursor == upto
      {
        var event := Reveal(deleted, batch[k]);
        assert batch[..k + 1][..k] == batch[..k];
        if !Skipped(event) {
          assert (handled + [event])[..|handled|] == handled;
          if p.fails(staged, event) {
            FailureIsFatal(p, db.committed.model, deleted, batch, k + 1);
            return false;
          }
          staged, handled := p.handle(staged, event), handled + [event];
        }
      }
      assert batch[..|batch|] == batch;
      if last != Some(upto) {
        if db.committed.last != last {
          return false;
        }
        db.committed := Database(db.committed.version + 1, Some(upto), staged, db.committed.applied + handled);
        last := Some(upto);
      }
      return true;
    }
  }

  lemma {:induction false} FailureIsFatal<M>(
      p: Projector<M>, model: M, deleted: set<KeyId>, batch: seq<StoredEvent<Json>>, k: nat)
    requires k <= |batch| && !Survives(p, model, Kept(deleted, batch[..k]))
    ensures !Survives(p, model, Kept(deleted, batch))
    decreases |batch|
  {
    if k == |batch| {
      assert batch[..k] == batch;
    } else {
      var front := batch[..|batch| - 1];
      assert front[..k] == batch[..k];
      FailureIsFatal(p, model, deleted, front, k);
      var event, kept := Reveal(deleted, batch[|batch| - 1]), Kept(deleted, front);
      if Skipped(event) {
        assert Kept(deleted, batch) == kept;
      } else {
        assert Kept(deleted, batch) == kept + [event];
        assert (kept + [event])[..|kept + [event]| - 1] == kept;
      }
    }
  }

  // ---------- the same batch in small steps ----------

  function HandleAll<M>(p: Projector<M>, deleted: set<KeyId>, db: Database<M>, i: Incarnation<M>): Incarnation<M>
    decreases |Rest(i.phase)|
  {
    if i.phase.Handling? && i.phase.rest != [] then HandleAll(p, deleted, db, Handled(p, deleted, db, i)) else i
  }

  lemma {:induction false} KeptFirst(deleted: set<KeyId>, batch: seq<StoredEvent<Json>>)
    requires batch != []
    ensures Kept(deleted, batch) == Kept(deleted, batch[..1]) + Kept(deleted, batch[1..])
    decreases |batch|
  {
    if |batch| == 1 {
      assert batch[..1] == batch;
    } else {
      var front := batch[..|batch| - 1];
      KeptFirst(deleted, front);
      assert front[..1] == batch[..1];
      assert batch[1..][..|batch[1..]| - 1] == front[1..];
    }
  }

  lemma {:induction false} SurvivesSplits<M>(p: Projector<M>, model: M, a: seq<StoredEvent<Json>>, b: seq<StoredEvent<Json>>)
    ensures Survives(p, model, a + b) <==> Survives(p, model, a) && Survives(p, Replayed(p, model, a), b)
    decreases |b|
  {
    if b == [] {
      assert a + b == a;
    } else {
      var front := b[..|b| - 1];
      SurvivesSplits(p, model, a, front);
      ReplayedSplits(p, model, a, front);
      assert (a + b)[..|a + b| - 1] == a + front;
    }
  }

  lemma KeptOne(deleted: set<KeyId>, e: StoredEvent<Json>)
    ensures Kept(deleted, [e]) == if Skipped(Reveal(deleted, e)) then [] else [Reveal(deleted, e)]
  {
    assert [e][..0] == [];
  }

  lemma ReplayedOne<M>(p: Projector<M>, model: M, e: StoredEvent<Json>)
    ensures Replayed(p, model, [e]) == p.handle(model, e)
    ensures Survives(p, model, [e]) <==> !p.fails(model, e)
  {
    assert [e][..0] == [];
  }

  /** What the small steps leave, for a batch that starts at a given model. */
  ghost predicate BatchFolded<M>(
    p: Projector<M>, db: Database<M>, i: Incarnation<M>, kept: seq<StoredEvent<Json>>, after: Incarnation<M>)
  {
    var model := Begun(i.tx, db).model;
    && (after.phase.Dead? <==> !Survives(p, model, kept))
    && (!after.phase.Dead? ==>
          && after.phase == Handling([]) && after.handled == i.handled + kept
          && after.last == i.last && after.cursor == i.cursor
          && after.tx == if kept == [] then i.tx else Begun(i.tx, db).(model := Replayed(p, model, kept)))
  }

  /** One handled event in front of a folded rest. */
  lemma OneMoreFolded<M>(
    p: Projector<M>, db: Database<M>, i: Incarnation<M>, event: StoredEvent<Json>, next: Incarnation<M>,
    rest: seq<StoredEvent<Json>>, after: Incarnation<M>)
    requires !p.fails(Begun(i.tx, db).model, event)
    requires next.tx == Begun(i.tx, db).(model := p.handle(Begun(i.tx, db).model, event))
    requires next.handled == i.handled + [event] && next.last == i.last && next.cursor == i.cursor
    requires BatchFolded(p, db, next, rest, after)
    ensures BatchFolded(p, db, i, [event] + rest, after)
  {
    var model := Begun(i.tx, db).model;
    SurvivesSplits(p, model, [event], rest);
    ReplayedSplits(p, model, [event], rest);
    ReplayedOne(p, model, event);
    assert i.handled + [event] + rest == i.handled + ([event] + rest);
    if rest == [] {
      assert [event] + rest == [event];
    }
  }

  lemma FirstFails<M>(p: Projector<M>, model: M, event: StoredEvent<Json>, rest: seq<StoredEvent<Json>>)
    requires p.fails(model, event)
    ensures !Survives(p, model, [event] + rest)
  {
    SurvivesSplits(p, model, [event], rest);
    ReplayedOne(p, model, event);
  }

  lemma KeptOneMore(deleted: set<KeyId>, batch: seq<StoredEvent<Json>>)
    requires batch != []
    ensures
      var event := Reveal(deleted, batch[0]);
      Kept(deleted, batch) == if Skipped(event) then Kept(deleted, batch[1..]) else [event] + Kept(deleted, batch[1..])
  {
    KeptFirst(deleted, batch);
    assert batch[..1] == [batch[0]];
    KeptOne(deleted, batch[0]);
  }

  /** The system's steps over a whole batch, with nothing in between, hold in their transaction
      the handler folded over the readable events, or take the incarnation down. */
  lemma {:induction false} SmallStepsFoldTheBatch<M>(
      p: Projector<M>, deleted: set<KeyId>, db: Database<M>, i: Incarnation<M>)
    requires i.phase.Handling?
    ensures BatchFolded(p, db, i, Kept(deleted, i.phase.rest), HandleAll(p, deleted, db, i))
    decreases |i.phase.rest|
  {
    var batch := i.phase.rest;
    if batch != [] {
      var event, next := Reveal(deleted, batch[0]), Handled(p, deleted, db, i);
      KeptOneMore(deleted, batch);
      if Skipped(event) {
        SmallStepsFoldTheBatch(p, deleted, db, next);
      } else if p.fails(Begun(i.tx, db).model, event) {
        FirstFails(p, Begun(i.tx, db).model, event, Kept(deleted, batch[1..]));
      } else {
        SmallStepsFoldTheBatch(p, deleted, db, next);
        OneMoreFolded(p, db, i, event, next, Kept(deleted, batch[1..]), HandleAll(p, deleted, db, next));
      }
    }
  }

  /** Progress, and what a restart resumes from: in every reachable state a new incarnation takes up
      strictly after the persisted position; left alone, it handles the readable events of the next
      batch and, unless a handler fails, commits exactly the handler folded over them on the persisted
      model, together with the new position. */
  lemma UndisturbedIncarnationCommits<M>(
    p: Projector<M>, log: Log, deleted: set<KeyId>, steps: seq<Step>, id: nat, upto: nat)
    requires id !in Exec(p, Initial(p, log, deleted), steps).incarnations
    requires
      var s := Exec(p, Initial(p, log, deleted), steps);
      upto <= |s.log| && (if s.db.last.Some? then s.db.last.value < upto else true)
    ensures
      var s := Exec(p, Initial(p, log, deleted), steps);
      var after := if s.db.last.Some? then s.db.last.value else 0;
      var kept := Kept(s.deleted, ReadRange(s.log, p.query, after, upto));
      var fetched := Apply(p, Apply(p, s, Start(id)), Fetch(id, upto)).incarnations[id];
      var done := HandleAll(p, s.deleted, s.db, fetched);
      && fetched.phase == Handling(ReadRange(s.log, p.query, after, upto))
      && (done.phase.Dead? <==> !Survives(p, s.db.model, kept))
      && (!done.phase.Dead? ==>
            Committed(s.db, done).0
            == Database(s.db.version + 1, Some(upto), Replayed(p, s.db.model, kept), s.db.applied + kept))
  {
    var s := Exec(p, Initial(p, log, deleted), steps);
    var fetched := Apply(p, Apply(p, s, Start(id)), Fetch(id, upto)).incarnations[id];
    SmallStepsFoldTheBatch(p, s.deleted, s.db, fetched);
    var kept := Kept(s.deleted, fetched.phase.rest);
    assert [] + kept == kept;
    if kept == [] {
      assert s.db.applied + kept == s.db.applied;
    }
  }
}

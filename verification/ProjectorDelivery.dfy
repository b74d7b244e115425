/** Durable delivery to projectors: any number of incarnations of one projector on one database,
    each running its handler and the compare-and-set on the persisted position in one
    transaction, with crashes anywhere. */
module ProjectorDelivery {
  import opened Prelude
  import opened EventLog
  import opened EffectActor

  /** What the module fixes.  A handler turns the read model into the next one or fails. */
  datatype Projector<!M> = Projector(
    query: Query,
    initial: M,
    fails: (M, StoredEvent<Json>) -> bool,
    handle: (M, StoredEvent<Json>) -> M)

  /** The module's database.  `version` counts commits; `applied` records every event whose
      handler ran in a committed transaction, in commit order. */
  datatype Database<M> = Database(version: nat, last: Option<nat>, model: M, applied: seq<StoredEvent<Json>>)

  /** A transaction sees the database as it was at its first statement. */
  datatype Tx<M> = NoTx | Tx(base: nat, last: Option<nat>, model: M)

  datatype Phase = Waiting | Handling(rest: seq<StoredEvent<Json>>) | Dead

  /** One incarnation: the position it last committed, the subscription cursor, and the open
      transaction with the events handled in it. */
  datatype Incarnation<M> = Incarnation(
    last: Option<nat>, cursor: nat, phase: Phase, tx: Tx<M>, handled: seq<StoredEvent<Json>>)

  datatype System<M> = System(
    log: Log, deleted: set<KeyId>, db: Database<M>, incarnations: map<nat, Incarnation<M>>)

  datatype Step =
    | Append(event: Event)
    | Shred(key: KeyId)
    | Start(id: nat)
    | Fetch(id: nat, upto: nat)
    | HandleOne(id: nat)
    | Commit(id: nat)
    | Crash(id: nat)

  /** The first statement of a transaction takes its snapshot. */
  function Begun<M>(tx: Tx<M>, db: Database<M>): Tx<M> {
    if tx.NoTx? then Tx(db.version, db.last, db.model) else tx
  }

  function Fetched<M>(p: Projector<M>, log: Log, i: Incarnation<M>, upto: nat): Incarnation<M> {
    if i.phase.Waiting? && i.cursor <= upto <= |log| then
      i.(cursor := upto, phase := Handling(ReadRange(log, p.query, i.cursor, upto)))
    else i
  }

  /** The next event of the batch: skipped when it cannot be read, otherwise handled inside the
      transaction.  A failing handler takes the incarnation down and its transaction with it. */
  function Handled<M>(p: Projector<M>, deleted: set<KeyId>, db: Database<M>, i: Incarnation<M>): Incarnation<M> {
    if !i.phase.Handling? || i.phase.rest == [] then i
    else
      var event := Reveal(deleted, i.phase.rest[0]);
      var next := i.(phase := Handling(i.phase.rest[1..]));
      if Skipped(event) then next
      else
        var tx := Begun(i.tx, db);
        if p.fails(tx.model, event) then i.(phase := Dead)
        else next.(tx := tx.(model := p.handle(tx.model, event)), handled := i.handled + [event])
  }

  /** After the batch: nothing to do when the cursor is already persisted; otherwise the cursor
      is compared and set inside the transaction, which commits only if nobody committed since
      its snapshot. */
  function Committed<M>(db: Database<M>, i: Incarnation<M>): (Database<M>, Incarnation<M>) {
    if i.phase != Handling([]) then (db, i)
    else if i.last == Some(i.cursor) then (db, i.(phase := Waiting))
    else
      var tx := Begun(i.tx, db);
      if tx.last != i.last || tx.base != db.version then (db, i.(phase := Dead))
      else (Database(db.version + 1, Some(i.cursor), tx.model, db.applied + i.handled),
            Incarnation(Some(i.cursor), i.cursor, Waiting, NoTx, []))
  }

  function Apply<M>(p: Projector<M>, s: System<M>, step: Step): System<M> {
    match step
    case Append(event) => s.(log := s.log + [event])
    case Shred(key) => s.(deleted := s.deleted + {key})
    case Start(id) =>
      if id in s.incarnations then s
      else s.(incarnations := s.incarnations[id := Incarnation(s.db.last, ResumePosition(s.db.last), Waiting, NoTx, [])])
    case Fetch(id, upto) =>
      if id !in s.incarnations then s
      else s.(incarnations := s.incarnations[id := Fetched(p, s.log, s.incarnations[id], upto)])
    case HandleOne(id) =>
      if id !in s.incarnations then s
      else s.(incarnations := s.incarnations[id := Handled(p, s.deleted, s.db, s.incarnations[id])])
    case Commit(id) =>
      if id !in s.incarnations then s
      else
        var (db, i) := Committed(s.db, s.incarnations[id]);
        s.(db := db, incarnations := s.incarnations[id := i])
    case Crash(id) =>
      if id !in s.incarnations then s
      else s.(incarnations := s.incarnations[id := s.incarnations[id].(phase := Dead)])
  }

  function Exec<M>(p: Projector<M>, s: System<M>, steps: seq<Step>): System<M> {
    if steps == [] then s else Apply(p, Exec(p, s, steps[..|steps| - 1]), steps[|steps| - 1])
  }

  function Initial<M>(p: Projector<M>, log: Log, deleted: set<KeyId>): System<M> {
    System(log, deleted, Database(0, None, p.initial, []), map[])
  }

  // ---------- what is claimed ----------

  /** The handler folded over events, in order. */
  function Replayed<M>(p: Projector<M>, model: M, events: seq<StoredEvent<Json>>): M {
    if events == [] then model
    else p.handle(Replayed(p, model, events[..|events| - 1]), events[|events| - 1])
  }

  /** The matching events up to a position that can still be read, as the handler sees them. */
  function Readable(q: Query, log: Log, deleted: set<KeyId>, upto: nat): seq<StoredEvent<Json>>
    requires upto <= |log|
  {
    if upto == 0 then []
    else
      Readable(q, log, deleted, upto - 1)
      + (if Live(q, log, deleted, upto) then [Reveal(deleted, Stored(log[upto - 1], upto))] else [])
  }

  predicate Live(q: Query, log: Log, deleted: set<KeyId>, position: nat) {
    MatchesAt(log, q, position) && !Skipped(Reveal(deleted, Stored(log[position - 1], position)))
  }

  /** A live event, in terms of what lies in the log: it matches, and it has no scope, or a payload
      whose key is not gone. */
  lemma LiveExactly(q: Query, log: Log, deleted: set<KeyId>, p: nat)
    ensures Live(q, log, deleted, p) <==>
            && 1 <= p <= |log| && Matches(q, log[p - 1].eventType, log[p - 1].tags)
            && (log[p - 1].encryptionScope.None?
                || (log[p - 1].data != Null
                    && !(log[p - 1].encryptionKeyId.Some? && log[p - 1].encryptionKeyId.value in deleted)))
  {
    if 1 <= p <= |log| {
      SeenExactly(deleted, Stored(log[p - 1], p));
    }
  }

  /** Exactly which events the handler gets, in terms of the event as it lies in the log.  One with a
      scope whose payload is null or whose key is gone is passed over; every other one is handed to the
      handler on the model of the open transaction, and takes the incarnation down if it fails there. */
  lemma HandedExactly<M>(p: Projector<M>, deleted: set<KeyId>, db: Database<M>, i: Incarnation<M>)
    requires i.phase.Handling? && i.phase.rest != []
    ensures
      var raw := i.phase.rest[0];
      var gone := raw.encryptionKeyId.Some? && raw.encryptionKeyId.value in deleted;
      var seen := raw.(data := if gone then Null else raw.data);
      var model := if i.tx.NoTx? then db.model else i.tx.model;
      var next := Handled(p, deleted, db, i);
      if raw.encryptionScope.Some? && (raw.data == Null || gone)
      then next == i.(phase := Handling(i.phase.rest[1..]))
      else if p.fails(model, seen) then next == i.(phase := Dead)
      else
        && next.phase == Handling(i.phase.rest[1..]) && next.handled == i.handled + [seen]
        && next.tx.Tx? && next.tx.model == p.handle(model, seen)
        && next.last == i.last && next.cursor == i.cursor
  {
    SeenExactly(deleted, i.phase.rest[0]);
  }

  // ---------- invariants ----------

  predicate At(events: seq<StoredEvent<Json>>, position: nat) {
    exists k :: 0 <= k < |events| && events[k].position == position
  }

  /** Events in strict log order, matching, within `(after, upto]`; with readability fixed, each
      is what a reader sees at its position. */
  ghost predicate Stretch(
    q: Query, log: Log, deleted: set<KeyId>, frozen: bool, events: seq<StoredEvent<Json>>, after: nat, upto: nat)
  {
    && (forall k :: 0 <= k < |events| ==> after < events[k].position <= upto && MatchesAt(log, q, events[k].position))
    && (forall j, k :: 0 <= j < k < |events| ==> events[j].position < events[k].position)
    && (frozen ==> forall k :: 0 <= k < |events| ==>
          && 1 <= events[k].position <= |log|
          && events[k] == Reveal(deleted, Stored(log[events[k].position - 1], events[k].position)) && !Skipped(events[k]))
  }

  /** A part of the log as stored. */
  ghost predicate Raw(log: Log, events: seq<StoredEvent<Json>>) {
    forall k :: 0 <= k < |events| ==>
      1 <= events[k].position <= |log| && events[k] == Stored(log[events[k].position - 1], events[k].position)
  }

  /** Every live event in `(after, upto]` is among the handled ones or still to come. */
  ghost predicate Covers(
    q: Query, log: Log, deleted: set<KeyId>, after: nat, upto: nat, handled: seq<StoredEvent<Json>>, rest: seq<StoredEvent<Json>>)
  {
    forall position: nat :: after < position <= upto && Live(q, log, deleted, position) ==> At(handled, position) || At(rest, position)
  }

  function Rest(phase: Phase): seq<StoredEvent<Json>> {
    if phase.Handling? then phase.rest else []
  }

  ghost predicate DatabaseOk<M>(p: Projector<M>, log: Log, deleted: set<KeyId>, frozen: bool, db: Database<M>) {
    && (db.last.Some? ==> db.last.value <= |log|)
    && db.model == Replayed(p, p.initial, db.applied)
    && Stretch(p.query, log, deleted, frozen, db.applied, 0, ResumePosition(db.last))
    && Covers(p.query, log, deleted, 0, ResumePosition(db.last), db.applied, [])
  }

  /** The batch in progress: what is handled lies before what is left, and together they cover
      the log between the last commit and the cursor. */
  ghost predicate ProgressOk(
    q: Query, log: Log, deleted: set<KeyId>, frozen: bool,
    from: nat, cursor: nat, handled: seq<StoredEvent<Json>>, rest: seq<StoredEvent<Json>>)
  {
    && from <= cursor <= |log|
    && Stretch(q, log, deleted, frozen, handled, from, cursor)
    && Stretch(q, log, deleted, false, rest, from, cursor)
    && Raw(log, rest)
    && (forall j, k :: 0 <= j < |handled| && 0 <= k < |rest| ==> handled[j].position < rest[k].position)
    && Covers(q, log, deleted, from, cursor, handled, rest)
  }

  /** A transaction whose snapshot is still current holds the committed model plus what it
      handled. */
  ghost predicate TxOk<M>(p: Projector<M>, db: Database<M>, tx: Tx<M>, handled: seq<StoredEvent<Json>>) {
    && (tx.NoTx? <==> handled == [])
    && (tx.Tx? ==> tx.base <= db.version)
    && (tx.Tx? && tx.base == db.version ==> tx.last == db.last && tx.model == Replayed(p, db.model, handled))
  }

  ghost predicate IncarnationOk<M>(
    p: Projector<M>, log: Log, deleted: set<KeyId>, frozen: bool, db: Database<M>, i: Incarnation<M>)
  {
    !i.phase.Dead? ==>
      && ProgressOk(p.query, log, deleted, frozen, ResumePosition(i.last), i.cursor, i.handled, Rest(i.phase))
      && TxOk(p, db, i.tx, i.handled)
      && (i.phase.Waiting? ==> i.cursor == ResumePosition(i.last) && i.tx.NoTx?)
  }

  ghost predicate SystemOk<M>(p: Projector<M>, frozen: bool, s: System<M>) {
    && DatabaseOk(p, s.log, s.deleted, frozen, s.db)
    && forall id :: id in s.incarnations ==> IncarnationOk(p, s.log, s.deleted, frozen, s.db, s.incarnations[id])
  }

  // ---------- each step keeps them ----------

  lemma FetchedStretch(q: Query, log: Log, deleted: set<KeyId>, from: nat, upto: nat)
    requires from <= upto <= |log|
    ensures Stretch(q, log, deleted, false, ReadRange(log, q, from, upto), from, upto) && Raw(log, ReadRange(log, q, from, upto))
  {
    var batch := ReadRange(log, q, from, upto);
    forall k | 0 <= k < |batch|
      ensures from < batch[k].position <= upto && MatchesAt(log, q, batch[k].position)
      ensures batch[k] == Stored(log[batch[k].position - 1], batch[k].position)
    {
      ReadIsSound(log, q, from, upto, batch[k]);
    }
    forall j, k | 0 <= j < k < |batch| ensures batch[j].position < batch[k].position {
      ReadIsOrdered(log, q, from, upto, j, k);
    }
  }

  lemma FetchedBatch(q: Query, log: Log, deleted: set<KeyId>, frozen: bool, from: nat, upto: nat)
    requires from <= upto <= |log|
    ensures ProgressOk(q, log, deleted, frozen, from, upto, [], ReadRange(log, q, from, upto))
  {
    var batch := ReadRange(log, q, from, upto);
    FetchedStretch(q, log, deleted, from, upto);
    forall position: nat | from < position <= upto && Live(q, log, deleted, position) ensures At(batch, position) {
      ReadIsComplete(log, q, from, upto, position);
      var k :| 0 <= k < |batch| && batch[k] == Stored(log[position - 1], position);
    }
  }

  lemma TailOk(q: Query, log: Log, deleted: set<KeyId>, rest: seq<StoredEvent<Json>>, from: nat, cursor: nat)
    requires rest != [] && Stretch(q, log, deleted, false, rest, from, cursor) && Raw(log, rest)
    ensures Stretch(q, log, deleted, false, rest[1..], from, cursor) && Raw(log, rest[1..])
    ensures forall k :: 0 <= k < |rest[1..]| ==> rest[1..][k] == rest[k + 1] && rest[0].position < rest[1..][k].position
  {}

  lemma SkippedProgress(
    q: Query, log: Log, deleted: set<KeyId>, frozen: bool,
    from: nat, cursor: nat, handled: seq<StoredEvent<Json>>, rest: seq<StoredEvent<Json>>)
    requires ProgressOk(q, log, deleted, frozen, from, cursor, handled, rest)
    requires rest != [] && Skipped(Reveal(deleted, rest[0]))
    ensures ProgressOk(q, log, deleted, frozen, from, cursor, handled, rest[1..])
  {
    var left := rest[1..];
    TailOk(q, log, deleted, rest, from, cursor);
    forall position: nat | from < position <= cursor && Live(q, log, deleted, position)
      ensures At(handled, position) || At(left, position)
    {
      if At(rest, position) {
        var k :| 0 <= k < |rest| && rest[k].position == position;
        assert left[k - 1] == rest[k];
      }
    }
  }

  lemma AppendedOne(
    q: Query, log: Log, deleted: set<KeyId>, frozen: bool, handled: seq<StoredEvent<Json>>, event: StoredEvent<Json>, from: nat, cursor: nat)
    requires Stretch(q, log, deleted, frozen, handled, from, cursor) && from < event.position <= cursor
    requires MatchesAt(log, q, event.position) && forall k :: 0 <= k < |handled| ==> handled[k].position < event.position
    requires event == Reveal(deleted, Stored(log[event.position - 1], event.position)) && !Skipped(event)
    ensures Stretch(q, log, deleted, frozen, handled + [event], from, cursor)
  {}

  lemma HandledCovers(
    q: Query, log: Log, deleted: set<KeyId>, from: nat, cursor: nat,
    handled: seq<StoredEvent<Json>>, rest: seq<StoredEvent<Json>>, event: StoredEvent<Json>)
    requires Covers(q, log, deleted, from, cursor, handled, rest) && rest != [] && event.position == rest[0].position
    ensures Covers(q, log, deleted, from, cursor, handled + [event], rest[1..])
  {
    var more, left := handled + [event], rest[1..];
    forall position: nat | from < position <= cursor && Live(q, log, deleted, position)
      ensures At(more, position) || At(left, position)
    {
      if At(handled, position) {
        var k :| 0 <= k < |handled| && handled[k].position == position;
        assert more[k].position == position;
      } else {
        var k :| 0 <= k < |rest| && rest[k].position == position;
        if k == 0 {
          assert more[|handled|].position == position;
        } else {
          assert left[k - 1] == rest[k];
        }
      }
    }
  }

  lemma HandledProgress(
    q: Query, log: Log, deleted: set<KeyId>, frozen: bool,
    from: nat, cursor: nat, handled: seq<StoredEvent<Json>>, rest: seq<StoredEvent<Json>>)
    requires ProgressOk(q, log, deleted, frozen, from, cursor, handled, rest)
    requires rest != [] && !Skipped(Reveal(deleted, rest[0]))
    ensures ProgressOk(q, log, deleted, frozen, from, cursor, handled + [Reveal(deleted, rest[0])], rest[1..])
  {
    var event := Reveal(deleted, rest[0]);
    assert event.position == rest[0].position;
    TailOk(q, log, deleted, rest, from, cursor);
    AppendedOne(q, log, deleted, frozen, handled, event, from, cursor);
    HandledCovers(q, log, deleted, from, cursor, handled, rest, event);
  }

  lemma HandledTx<M>(p: Projector<M>, db: Database<M>, tx: Tx<M>, handled: seq<StoredEvent<Json>>, event: StoredEvent<Json>)
    requires TxOk(p, db, tx, handled)
    ensures
      var begun := Begun(tx, db);
      TxOk(p, db, begun.(model := p.handle(begun.model, event)), handled + [event])
  {
    assert (handled + [event])[..|handled|] == handled;
  }

  lemma HandleKeepsOk<M>(p: Projector<M>, log: Log, deleted: set<KeyId>, frozen: bool, db: Database<M>, i: Incarnation<M>)
    requires IncarnationOk(p, log, deleted, frozen, db, i)
    ensures IncarnationOk(p, log, deleted, frozen, db, Handled(p, deleted, db, i))
  {
    if i.phase.Handling? && i.phase.rest != [] {
      var event := Reveal(deleted, i.phase.rest[0]);
      if Skipped(event) {
        SkippedProgress(p.query, log, deleted, frozen, ResumePosition(i.last), i.cursor, i.handled, i.phase.rest);
      } else {
        HandledProgress(p.query, log, deleted, frozen, ResumePosition(i.last), i.cursor, i.handled, i.phase.rest);
        HandledTx(p, db, i.tx, i.handled, event);
      }
    }
  }

  lemma {:induction false} ReplayedSplits<M>(p: Projector<M>, model: M, a: seq<StoredEvent<Json>>, b: seq<StoredEvent<Json>>)
    ensures Replayed(p, model, a + b) == Replayed(p, Replayed(p, model, a), b)
    decreases |b|
  {
    if b == [] {
      assert a + b == a;
    } else {
      ReplayedSplits(p, model, a, b[..|b| - 1]);
      assert (a + b)[..|a + b| - 1] == a + b[..|b| - 1];
    }
  }

  lemma JoinedStretch(
    q: Query, log: Log, deleted: set<KeyId>, frozen: bool,
    applied: seq<StoredEvent<Json>>, handled: seq<StoredEvent<Json>>, from: nat, upto: nat)
    requires from <= upto
    requires Stretch(q, log, deleted, frozen, applied, 0, from) && Covers(q, log, deleted, 0, from, applied, [])
    requires Stretch(q, log, deleted, frozen, handled, from, upto) && Covers(q, log, deleted, from, upto, handled, [])
    ensures Stretch(q, log, deleted, frozen, applied + handled, 0, upto)
    ensures Covers(q, log, deleted, 0, upto, applied + handled, [])
  {
    var all := applied + handled;
    forall position: nat | 0 < position <= upto && Live(q, log, deleted, position) ensures At(all, position) {
      if position <= from {
        var k :| 0 <= k < |applied| && applied[k].position == position;
        assert all[k].position == position;
      } else {
        var k :| 0 <= k < |handled| && handled[k].position == position;
        assert all[|applied| + k].position == position;
      }
    }
  }

  lemma HoldsSomething(
    q: Query, log: Log, deleted: set<KeyId>, frozen: bool, events: seq<StoredEvent<Json>>, k: nat, after: nat, upto: nat)
    requires Stretch(q, log, deleted, frozen, events, after, upto) && k < |events|
    ensures after < upto
  {
    assert after < events[k].position <= upto;
  }

  /** A commit that goes through had the current database as its snapshot and the incarnation's
      own last position in it, so it continues the fold exactly where it stopped. */
  lemma CommitKeepsDatabase<M>(
      p: Projector<M>, log: Log, deleted: set<KeyId>, frozen: bool, db: Database<M>, i: Incarnation<M>)
    requires DatabaseOk(p, log, deleted, frozen, db) && IncarnationOk(p, log, deleted, frozen, db, i)
    ensures
      var (next, j) := Committed(db, i);
      && DatabaseOk(p, log, deleted, frozen, next) && IncarnationOk(p, log, deleted, frozen, next, j)
      && (next == db || next.version == db.version + 1)
  {
    var tx := Begun(i.tx, db);
    if i.phase == Handling([]) && i.last == Some(i.cursor) {
      if i.handled != [] {
        HoldsSomething(p.query, log, deleted, frozen, i.handled, 0, ResumePosition(i.last), i.cursor);
      }
    }
    if i.phase == Handling([]) && i.last != Some(i.cursor) && tx.last == i.last && tx.base == db.version {
      ReplayedSplits(p, p.initial, db.applied, i.handled);
      assert tx.model == Replayed(p, db.model, i.handled);
      JoinedStretch(p.query, log, deleted, frozen, db.applied, i.handled, ResumePosition(i.last), i.cursor);
    }
  }

  lemma AppendedLive(q: Query, log: Log, e: Event, deleted: set<KeyId>, position: nat)
    requires position <= |log|
    ensures Live(q, log + [e], deleted, position) <==> Live(q, log, deleted, position)
    ensures MatchesAt(log + [e], q, position) <==> MatchesAt(log, q, position)
  {
    if position > 0 {
      assert (log + [e])[position - 1] == log[position - 1];
    }
  }

  lemma AppendedStretch(
      q: Query, log: Log, e: Event, deleted: set<KeyId>, frozen: bool, events: seq<StoredEvent<Json>>, after: nat, upto: nat)
    requires upto <= |log| && Stretch(q, log, deleted, frozen, events, after, upto)
    ensures Stretch(q, log + [e], deleted, frozen, events, after, upto)
  {
    forall k | 0 <= k < |events| ensures MatchesAt(log + [e], q, events[k].position) {
      AppendedLive(q, log, e, deleted, events[k].position);
    }
    assert forall k :: 0 <= k < |events| ==> (log + [e])[events[k].position - 1] == log[events[k].position - 1];
  }

  lemma AppendedCovers(
    q: Query, log: Log, e: Event, deleted: set<KeyId>, after: nat, upto: nat, handled: seq<StoredEvent<Json>>, rest: seq<StoredEvent<Json>>)
    requires upto <= |log| && Covers(q, log, deleted, after, upto, handled, rest)
    ensures Covers(q, log + [e], deleted, after, upto, handled, rest)
  {
    forall position: nat | after < position <= upto && Live(q, log + [e], deleted, position)
      ensures At(handled, position) || At(rest, position)
    {
      AppendedLive(q, log, e, deleted, position);
    }
  }

  lemma AppendKeepsIncarnation<M>(
    p: Projector<M>, log: Log, e: Event, deleted: set<KeyId>, frozen: bool, db: Database<M>, i: Incarnation<M>)
    requires IncarnationOk(p, log, deleted, frozen, db, i)
    ensures IncarnationOk(p, log + [e], deleted, frozen, db, i)
  {
    if !i.phase.Dead? {
      var from := ResumePosition(i.last);
      AppendedStretch(p.query, log, e, deleted, frozen, i.handled, from, i.cursor);
      AppendedStretch(p.query, log, e, deleted, false, Rest(i.phase), from, i.cursor);
      AppendedCovers(p.query, log, e, deleted, from, i.cursor, i.handled, Rest(i.phase));
    }
  }

  lemma ShreddedCovers(
    q: Query, log: Log, deleted: set<KeyId>, key: KeyId, after: nat, upto: nat, handled: seq<StoredEvent<Json>>, rest: seq<StoredEvent<Json>>)
    requires Covers(q, log, deleted, after, upto, handled, rest)
    ensures Covers(q, log, deleted + {key}, after, upto, handled, rest)
  {
    forall position: nat | Live(q, log, deleted + {key}, position) ensures Live(q, log, deleted, position) {}
  }

  lemma ShredKeepsIncarnation<M>(
    p: Projector<M>, log: Log, deleted: set<KeyId>, key: KeyId, db: Database<M>, i: Incarnation<M>)
    requires IncarnationOk(p, log, deleted, false, db, i)
    ensures IncarnationOk(p, log, deleted + {key}, false, db, i)
  {
    if !i.phase.Dead? {
      ShreddedCovers(p.query, log, deleted, key, ResumePosition(i.last), i.cursor, i.handled, Rest(i.phase));
    }
  }

  /** Another incarnation's commit leaves an open transaction with an outdated snapshot. */
  lemma OthersCommit<M>(
    p: Projector<M>, log: Log, deleted: set<KeyId>, frozen: bool, db: Database<M>, next: Database<M>, i: Incarnation<M>)
    requires IncarnationOk(p, log, deleted, frozen, db, i)
    requires next == db || next.version == db.version + 1
    ensures IncarnationOk(p, log, deleted, frozen, next, i)
  {}

  lemma AppendKeepsOk<M>(p: Projector<M>, frozen: bool, s: System<M>, e: Event)
    requires SystemOk(p, frozen, s)
    ensures SystemOk(p, frozen, s.(log := s.log + [e]))
  {
    AppendedStretch(p.query, s.log, e, s.deleted, frozen, s.db.applied, 0, ResumePosition(s.db.last));
    AppendedCovers(p.query, s.log, e, s.deleted, 0, ResumePosition(s.db.last), s.db.applied, []);
    forall id | id in s.incarnations
      ensures IncarnationOk(p, s.log + [e], s.deleted, frozen, s.db, s.incarnations[id])
    {
      AppendKeepsIncarnation(p, s.log, e, s.deleted, frozen, s.db, s.incarnations[id]);
    }
  }

  lemma ShredKeepsOk<M>(p: Projector<M>, s: System<M>, key: KeyId)
    requires SystemOk(p, false, s)
    ensures SystemOk(p, false, s.(deleted := s.deleted + {key}))
  {
    ShreddedCovers(p.query, s.log, s.deleted, key, 0, ResumePosition(s.db.last), s.db.applied, []);
    forall id | id in s.incarnations
      ensures IncarnationOk(p, s.log, s.deleted + {key}, false, s.db, s.incarnations[id])
    {
      ShredKeepsIncarnation(p, s.log, s.deleted, key, s.db, s.incarnations[id]);
    }
  }

  /** Only one incarnation moves at a time, and at most one commit happens. */
  lemma MoveKeepsOk<M>(p: Projector<M>, frozen: bool, s: System<M>, next: Database<M>, id: nat, i: Incarnation<M>)
    requires SystemOk(p, frozen, s)
    requires next == s.db || (next.version == s.db.version + 1 && DatabaseOk(p, s.log, s.deleted, frozen, next))
    requires IncarnationOk(p, s.log, s.deleted, frozen, next, i)
    ensures SystemOk(p, frozen, s.(db := next, incarnations := s.incarnations[id := i]))
  {
    forall other | other in s.incarnations && other != id
      ensures IncarnationOk(p, s.log, s.deleted, frozen, next, s.incarnations[other])
    {
      OthersCommit(p, s.log, s.deleted, frozen, s.db, next, s.incarnations[other]);
    }
  }

  lemma FetchKeepsOk<M>(
      p: Projector<M>, log: Log, deleted: set<KeyId>, frozen: bool, db: Database<M>, i: Incarnation<M>, upto: nat)
    requires IncarnationOk(p, log, deleted, frozen, db, i)
    ensures IncarnationOk(p, log, deleted, frozen, db, Fetched(p, log, i, upto))
  {
    if i.phase.Waiting? && i.cursor <= upto <= |log| {
      FetchedBatch(p.query, log, deleted, frozen, i.cursor, upto);
    }
  }

  lemma StartIsOk<M>(p: Projector<M>, log: Log, deleted: set<KeyId>, frozen: bool, db: Database<M>)
    requires DatabaseOk(p, log, deleted, frozen, db)
    ensures IncarnationOk(p, log, deleted, frozen, db, Incarnation(db.last, ResumePosition(db.last), Waiting, NoTx, []))
  {}

  lemma StepKeepsOk<M>(p: Projector<M>, frozen: bool, s: System<M>, step: Step)
    requires SystemOk(p, frozen, s) && (frozen ==> !step.Shred?)
    ensures SystemOk(p, frozen, Apply(p, s, step))
  {
    match step
    case Append(e) => AppendKeepsOk(p, frozen, s, e);
    case Shred(key) => ShredKeepsOk(p, s, key);
    case Start(id) => StartIsOk(p, s.log, s.deleted, frozen, s.db);
    case Fetch(id, upto) =>
      if id in s.incarnations {
        FetchKeepsOk(p, s.log, s.deleted, frozen, s.db, s.incarnations[id], upto);
      }
    case HandleOne(id) =>
      if id in s.incarnations {
        HandleKeepsOk(p, s.log, s.deleted, frozen, s.db, s.incarnations[id]);
      }
    case Commit(id) =>
      if id in s.incarnations {
        CommitKeepsDatabase(p, s.log, s.deleted, frozen, s.db, s.incarnations[id]);
        var (next, i) := Committed(s.db, s.incarnations[id]);
        MoveKeepsOk(p, frozen, s, next, id, i);
      }
    case Crash(id) =>
  }

  lemma {:induction false} RunKeepsOk<M>(p: Projector<M>, frozen: bool, s: System<M>, steps: seq<Step>)
    requires SystemOk(p, frozen, s) && (frozen ==> forall i :: 0 <= i < |steps| ==> !steps[i].Shred?)
    ensures SystemOk(p, frozen, Exec(p, s, steps))
  {
    if steps != [] {
      RunKeepsOk(p, frozen, s, steps[..|steps| - 1]);
      StepKeepsOk(p, frozen, Exec(p, s, steps[..|steps| - 1]), steps[|steps| - 1]);
    }
  }

  // ---------- exactly once ----------

  /** On every run the committed read model is the handler folded over the events it was applied
      to: each matching, each at most once, in log order, none past the persisted position, and
      every event at or below that position that can still be read is among them. */
  lemma AppliedExactlyOnce<M>(p: Projector<M>, log: Log, deleted: set<KeyId>, steps: seq<Step>)
    ensures
      var s := Exec(p, Initial(p, log, deleted), steps);
      && s.db.model == Replayed(p, p.initial, s.db.applied)
      && (forall k :: 0 <= k < |s.db.applied| ==>
            s.db.applied[k].position <= ResumePosition(s.db.last) && MatchesAt(s.log, p.query, s.db.applied[k].position))
      && (forall j, k :: 0 <= j < k < |s.db.applied| ==> s.db.applied[j].position < s.db.applied[k].position)
      && (forall position: nat :: position <= ResumePosition(s.db.last) && Live(p.query, s.log, s.deleted, position)
            ==> At(s.db.applied, position))
  {
    RunKeepsOk(p, false, Initial(p, log, deleted), steps);
  }

  /** All matching readable events up to a position, in order, as a reader sees them. */
  ghost predicate Reading(q: Query, log: Log, deleted: set<KeyId>, a: seq<StoredEvent<Json>>, upto: nat) {
    Stretch(q, log, deleted, true, a, 0, upto) && Covers(q, log, deleted, 0, upto, a, [])
  }

  lemma ReadableCovers(q: Query, log: Log, deleted: set<KeyId>, upto: nat)
    requires 0 < upto <= |log|
    requires Covers(q, log, deleted, 0, upto - 1, Readable(q, log, deleted, upto - 1), [])
    ensures Covers(q, log, deleted, 0, upto, Readable(q, log, deleted, upto), [])
  {
    var front, all := Readable(q, log, deleted, upto - 1), Readable(q, log, deleted, upto);
    forall position: nat | 0 < position <= upto && Live(q, log, deleted, position) ensures At(all, position) {
      if position < upto {
        assert At(front, position) || At([], position);
        var k :| 0 <= k < |front| && front[k].position == position;
        assert all[k].position == position;
      } else {
        assert all[|front|].position == position;
      }
    }
  }

  lemma ReadableGrows(q: Query, log: Log, deleted: set<KeyId>, front: seq<StoredEvent<Json>>, upto: nat)
    requires 0 < upto <= |log| && Stretch(q, log, deleted, true, front, 0, upto - 1)
    ensures Stretch(q, log, deleted, true, front, 0, upto)
    ensures Live(q, log, deleted, upto) ==> Stretch(q, log, deleted, true, front + [Reveal(deleted, Stored(log[upto - 1], upto))], 0, upto)
  {
    if Live(q, log, deleted, upto) {
      AppendedOne(q, log, deleted, true, front, Reveal(deleted, Stored(log[upto - 1], upto)), 0, upto);
    }
  }

  lemma {:induction false} ReadableHolds(q: Query, log: Log, deleted: set<KeyId>, upto: nat)
    requires upto <= |log|
    ensures Reading(q, log, deleted, Readable(q, log, deleted, upto), upto)
    decreases upto
  {
    if upto > 0 {
      ReadableHolds(q, log, deleted, upto - 1);
      ReadableGrows(q, log, deleted, Readable(q, log, deleted, upto - 1), upto);
      ReadableCovers(q, log, deleted, upto);
    }
  }

  lemma PlacesAgree(events: seq<StoredEvent<Json>>, j: nat, k: nat)
    requires forall j, k :: 0 <= j < k < |events| ==> events[j].position < events[k].position
    requires j < |events| && k < |events| && events[j].position <= events[k].position
    ensures j <= k
  {}

  lemma FrontCovers(q: Query, log: Log, deleted: set<KeyId>, a: seq<StoredEvent<Json>>, upto: nat)
    requires upto > 0 && a != [] && a[|a| - 1].position == upto && Covers(q, log, deleted, 0, upto, a, [])
    ensures Covers(q, log, deleted, 0, upto - 1, a[..|a| - 1], [])
  {
    var front := a[..|a| - 1];
    forall position: nat | 0 < position <= upto - 1 && Live(q, log, deleted, position) ensures At(front, position) {
      assert At(a, position) || At([], position);
      var j :| 0 <= j < |a| && a[j].position == position;
      assert front[j].position == position;
    }
  }

  /** A reading that ends in the event at `upto` is a shorter reading and that event. */
  lemma ReadingEndsLive(q: Query, log: Log, deleted: set<KeyId>, a: seq<StoredEvent<Json>>, upto: nat)
    requires 0 < upto <= |log| && Reading(q, log, deleted, a, upto) && Live(q, log, deleted, upto)
    ensures a != [] && a[|a| - 1] == Reveal(deleted, Stored(log[upto - 1], upto))
    ensures Reading(q, log, deleted, a[..|a| - 1], upto - 1)
  {
    assert At(a, upto) || At([], upto);
    var k :| 0 <= k < |a| && a[k].position == upto;
    PlacesAgree(a, |a| - 1, k);
    FrontCovers(q, log, deleted, a, upto);
  }

  lemma ReadingEndsEarlier(q: Query, log: Log, deleted: set<KeyId>, a: seq<StoredEvent<Json>>, upto: nat)
    requires 0 < upto <= |log| && Reading(q, log, deleted, a, upto) && !Live(q, log, deleted, upto)
    ensures Reading(q, log, deleted, a, upto - 1)
  {
    forall k | 0 <= k < |a| ensures a[k].position != upto {
      assert a[k].position == upto ==> Live(q, log, deleted, upto);
    }
  }

  /** A reading without its last possible event. */
  function Shorter(q: Query, log: Log, deleted: set<KeyId>, a: seq<StoredEvent<Json>>, upto: nat): seq<StoredEvent<Json>> {
    if Live(q, log, deleted, upto) && a != [] then a[..|a| - 1] else a
  }

  lemma ReadingShrinks(q: Query, log: Log, deleted: set<KeyId>, a: seq<StoredEvent<Json>>, upto: nat)
    requires 0 < upto <= |log| && Reading(q, log, deleted, a, upto)
    ensures
      var front := Shorter(q, log, deleted, a, upto);
      && Reading(q, log, deleted, front, upto - 1)
      && a == front + if Live(q, log, deleted, upto) then [Reveal(deleted, Stored(log[upto - 1], upto))] else []
  {
    if Live(q, log, deleted, upto) {
      ReadingEndsLive(q, log, deleted, a, upto);
    } else {
      ReadingEndsEarlier(q, log, deleted, a, upto);
    }
  }

  lemma NothingToRead(q: Query, log: Log, deleted: set<KeyId>, a: seq<StoredEvent<Json>>)
    requires Reading(q, log, deleted, a, 0)
    ensures a == []
  {
    if a != [] {
      HoldsSomething(q, log, deleted, true, a, 0, 0, 0);
    }
  }

  lemma OneLonger(
      q: Query, log: Log, deleted: set<KeyId>, front: seq<StoredEvent<Json>>, a: seq<StoredEvent<Json>>, upto: nat)
    requires 0 < upto <= |log| && front == Readable(q, log, deleted, upto - 1)
    requires a == front + if Live(q, log, deleted, upto) then [Reveal(deleted, Stored(log[upto - 1], upto))] else []
    ensures a == Readable(q, log, deleted, upto)
  {}

  lemma {:induction false} ReadingsAgree(q: Query, log: Log, deleted: set<KeyId>, a: seq<StoredEvent<Json>>, upto: nat)
    requires upto <= |log| && Reading(q, log, deleted, a, upto)
    ensures a == Readable(q, log, deleted, upto)
    decreases upto
  {
    if upto == 0 {
      NothingToRead(q, log, deleted, a);
    } else {
      var front := Shorter(q, log, deleted, a, upto);
      ReadingShrinks(q, log, deleted, a, upto);
      ReadingsAgree(q, log, deleted, front, upto - 1);
      OneLonger(q, log, deleted, front, a, upto);
    }
  }

  /** There is exactly one complete, ordered reading up to a position, and `Readable` is it. */
  lemma OneReading(q: Query, log: Log, deleted: set<KeyId>, a: seq<StoredEvent<Json>>, upto: nat)
    requires upto <= |log|
    ensures Reading(q, log, deleted, a, upto) <==> a == Readable(q, log, deleted, upto)
  {
    ReadableHolds(q, log, deleted, upto);
    if Reading(q, log, deleted, a, upto) {
      ReadingsAgree(q, log, deleted, a, upto);
    }
  }

  /** Exactly once: with readability fixed, on every run of any number of incarnations, with
      crashes anywhere, the committed read model is the handler folded once, in order, over the
      matching readable events up to the persisted position. */
  lemma ModelIsTheFold<M>(p: Projector<M>, log: Log, deleted: set<KeyId>, steps: seq<Step>)
    requires forall i :: 0 <= i < |steps| ==> !steps[i].Shred?
    ensures
      var s := Exec(p, Initial(p, log, deleted), steps);
      && ResumePosition(s.db.last) <= |s.log|
      && s.db.model == Replayed(p, p.initial, Readable(p.query, s.log, s.deleted, ResumePosition(s.db.last)))
  {
    RunKeepsOk(p, true, Initial(p, log, deleted), steps);
    var s := Exec(p, Initial(p, log, deleted), steps);
    OneReading(p.query, s.log, s.deleted, s.db.applied, ResumePosition(s.db.last));
  }

  /** A stale incarnation commits nothing: if another one committed a new position since this
      one's last commit, this one's commit leaves the database alone; it takes the incarnation
      down when there is something to write, and puts it back to waiting when there is not. */
  lemma StaleIncarnationFails<M>(p: Projector<M>, log: Log, deleted: set<KeyId>, steps: seq<Step>, id: nat)
    requires id in Exec(p, Initial(p, log, deleted), steps).incarnations
    requires
      var s := Exec(p, Initial(p, log, deleted), steps);
      s.incarnations[id].phase == Handling([]) && s.incarnations[id].last != s.db.last
    ensures
      var s := Exec(p, Initial(p, log, deleted), steps);
      var i, next := s.incarnations[id], Apply(p, s, Commit(id));
      && next.db == s.db
      && next.incarnations[id] == i.(phase := if i.last == Some(i.cursor) then Waiting else Dead)
  {
    RunKeepsOk(p, false, Initial(p, log, deleted), steps);
    var s := Exec(p, Initial(p, log, deleted), steps);
    assert IncarnationOk(p, s.log, s.deleted, false, s.db, s.incarnations[id]);
  }
}

/** Many commands at once on one log: every interleaving of their begin, read, commit and
    abort steps, with keys being shredded in between, against running commands one by one. */
module Serializability {
  import opened Prelude
  import opened EventLog
  import opened DomainQuery
  import opened Folds
  import opened Replay
  import opened Transactions
  import opened CommandRun

  /** One command in flight: its transaction, and the guest's side of the replay loop.
      `handed` and `view` record that, and under which deleted keys, the events were handed out. */
  datatype Session<!S, !T> = Session(
    cmd: Command<S, T>,
    item: TransactionItem,
    seen: seq<StoredEvent<Json>>,
    drained: bool,
    handed: bool,
    view: set<KeyId>)

  /** A commit that succeeded: the command, the keys its events were sealed under, what it
      appended, and the length `at` of the log it answered to: the log it appended to, or for a
      commit without events the log its read was pinned to. */
  datatype Committed<!S, !T> = Committed(
    cmd: Command<S, T>,
    keyFor: string -> Option<KeyId>,
    view: set<KeyId>,
    at: nat,
    batch: seq<Event>)

  datatype World<!S, !T> = World(
    log: Log,
    deleted: set<KeyId>,
    sessions: map<nat, Session<S, T>>,
    commits: seq<Committed<S, T>>)

  datatype Step<!S, !T> =
    | Begin(id: nat, cmd: Command<S, T>)
    | NextBatch(id: nat)
    | Commit(id: nat, keyFor: string -> Option<KeyId>)
    | Abort(id: nat)
    | Shred(key: KeyId)

  function Initial<S, T>(log: Log, deleted: set<KeyId>): World<S, T> {
    World(log, deleted, map[], [])
  }

  /** The guest leaves its loop at an empty batch or at a duplicate. */
  predicate LoopEnded<S, T>(s: Session<S, T>) {
    s.drained || BeforeDuplicate(s.cmd.idempotencyKey, s.seen) < |s.seen|
  }

  function HandOut<S, T>(s: Session<S, T>, deleted: set<KeyId>): Session<S, T> {
    match s.item.read
    case None => s.(drained := true)
    case Some(read) =>
      var batch := RevealAll(deleted, read.events);
      s.(item := s.item.(read := Some(CommandRead([], read.head))),
         seen := s.seen + batch,
         drained := batch == [],
         handed := true,
         view := if s.handed then s.view else deleted)
  }

  /** What committing `events` would put on record; nothing when an event is invalid or lacks its
      key, or when the fence fails. */
  function Outgoing<S, T>(
      w: World<S, T>, s: Session<S, T>, keyFor: string -> Option<KeyId>, events: seq<EmitEvent>): Option<Committed<S, T>> {
    if exists e :: e in events && !Committable(e, keyFor) then None
    else if events == [] then
      Some(Committed(s.cmd, keyFor, s.view, if s.item.read.Some? then s.item.read.value.head else |w.log|, []))
    else if Fails(w.log, Fence(s.item)) then None
    else Some(Committed(s.cmd, keyFor, s.view, |w.log|, StampAll(events, s.cmd.idempotencyKey, keyFor)))
  }

  function Recorded<S, T>(w: World<S, T>, r: Committed<S, T>): World<S, T> {
    w.(log := w.log + r.batch, commits := w.commits + [r])
  }

  /** The commit of a session whose loop has ended with a decision to commit `events`; the
      transaction is closed in every case. */
  function Settle<S, T>(w: World<S, T>, id: nat, keyFor: string -> Option<KeyId>, events: seq<EmitEvent>): World<S, T>
    requires id in w.sessions
  {
    var closed := w.(sessions := w.sessions - {id});
    match Outgoing(w, w.sessions[id], keyFor, events)
    case None => closed
    case Some(r) => Recorded(closed, r)
  }

  /** One step; a step that is not enabled changes nothing. */
  function Apply<S, T>(w: World<S, T>, step: Step<S, T>): World<S, T> {
    match step
    case Begin(id, cmd) =>
      if id in w.sessions then w
      else w.(sessions := w.sessions[id := Session(cmd, Open(w.log, cmd.query), [], false, false, {})])
    case NextBatch(id) =>
      if id !in w.sessions || LoopEnded(w.sessions[id]) then w
      else w.(sessions := w.sessions[id := HandOut(w.sessions[id], w.deleted)])
    case Commit(id, keyFor) =>
      if id !in w.sessions || !LoopEnded(w.sessions[id]) then w
      else
        var outcome := Decide(w.sessions[id].cmd, w.sessions[id].seen);
        if outcome.Aborts? then w else Settle(w, id, keyFor, outcome.events)
    case Abort(id) => w.(sessions := w.sessions - {id})
    case Shred(key) => w.(deleted := w.deleted + {key})
  }

  function Exec<S, T>(w: World<S, T>, steps: seq<Step<S, T>>): World<S, T> {
    if steps == [] then w else Apply(Exec(w, steps[..|steps| - 1]), steps[|steps| - 1])
  }

  // ---------- the specification: one command at a time ----------

  /** What a command appends when it runs alone on `log`. */
  function BatchOf<S, T>(cmd: Command<S, T>, keyFor: string -> Option<KeyId>, log: Log, deleted: set<KeyId>): seq<Event> {
    match Decide(cmd, RevealAll(deleted, Read(log, cmd.query)))
    case Aborts(_) => []
    case Commits(events) =>
      if exists e :: e in events && !Committable(e, keyFor) then []
      else StampAll(events, cmd.idempotencyKey, keyFor)
  }

  /** The committed commands run one after another, each on the whole log before it. */
  function Serial<S, T>(start: Log, commits: seq<Committed<S, T>>, deleted: set<KeyId>): Log {
    if commits == [] then start
    else
      var before := Serial(start, commits[..|commits| - 1], deleted);
      var last := commits[|commits| - 1];
      before + BatchOf(last.cmd, last.keyFor, before, deleted)
  }

  /** The commits that appended something, in commit order. */
  function Appenders<S, T>(commits: seq<Committed<S, T>>): seq<Committed<S, T>> {
    if commits == [] then []
    else
      Appenders(commits[..|commits| - 1])
      + (if commits[|commits| - 1].batch != [] then [commits[|commits| - 1]] else [])
  }

  // ---------- the invariant ----------

  /** The log the commits built. */
  function LogAfter<S, T>(start: Log, commits: seq<Committed<S, T>>): Log {
    if commits == [] then start else LogAfter(start, commits[..|commits| - 1]) + commits[|commits| - 1].batch
  }

  ghost predicate SessionOk<S, T>(s: Session<S, T>, log: Log, start: set<KeyId>, deleted: set<KeyId>) {
    && s.item.query == s.cmd.query
    && (s.item.read.None? ==> QueryIsEmpty(s.cmd.query) && s.seen == [])
    && (s.item.read.Some? ==>
          var head := s.item.read.value.head;
          && head <= |log|
          && (!s.handed ==> s.seen == [] && !s.drained && s.item.read.value.events == ReadRange(log, s.cmd.query, 0, head))
          && (s.handed ==>
                && s.item.read.value.events == []
                && start <= s.view <= deleted
                && s.seen == RevealAll(s.view, ReadRange(log, s.cmd.query, 0, head))))
  }

  /** The record explains its batch: the command, alone on the log up to `at`, decides it. */
  ghost predicate RecordOk<S, T>(r: Committed<S, T>, log: Log, start: set<KeyId>, deleted: set<KeyId>) {
    && r.at <= |log|
    && (QueryIsEmpty(r.cmd.query) || start <= r.view <= deleted)
    && var outcome := Decide(r.cmd, RevealAll(r.view, ReadRange(log, r.cmd.query, 0, r.at)));
       && outcome.Commits?
       && (forall e :: e in outcome.events ==> Committable(e, r.keyFor))
       && r.batch == StampAll(outcome.events, r.cmd.idempotencyKey, r.keyFor)
  }

  /** An appending commit answers to the log right before it, a commit without events to some
      log no longer than that. */
  ghost predicate PlaceOk<S, T>(r: Committed<S, T>, before: Log) {
    if r.batch != [] then r.at == |before| else r.at <= |before|
  }

  ghost predicate Inv<S(!new), T(!new)>(w: World<S, T>, log: Log, start: set<KeyId>) {
    && start <= w.deleted
    && w.log == LogAfter(log, w.commits)
    && (forall id :: id in w.sessions ==> SessionOk(w.sessions[id], w.log, start, w.deleted))
    && (forall i :: 0 <= i < |w.commits| ==> RecordOk(w.commits[i], w.log, start, w.deleted))
    && (forall i :: 0 <= i < |w.commits| ==> PlaceOk(w.commits[i], LogAfter(log, w.commits[..i])))
  }

  lemma GrowingKeepsSession<S, T>(
      s: Session<S, T>, log: Log, more: Log, start: set<KeyId>, deleted: set<KeyId>, gone: set<KeyId>)
    requires SessionOk(s, log, start, deleted) && deleted <= gone
    ensures SessionOk(s, log + more, start, gone)
  {
    if s.item.read.Some? {
      ReadIgnoresLaterEvents(log, more, s.cmd.query, 0, s.item.read.value.head);
    }
  }

  lemma GrowingKeepsRecord<S, T>(
      r: Committed<S, T>, log: Log, more: Log, start: set<KeyId>, deleted: set<KeyId>, gone: set<KeyId>)
    requires RecordOk(r, log, start, deleted) && deleted <= gone
    ensures RecordOk(r, log + more, start, gone)
  {
    ReadIgnoresLaterEvents(log, more, r.cmd.query, 0, r.at);
  }

  lemma HandOutKeepsSession<S, T>(s: Session<S, T>, log: Log, start: set<KeyId>, deleted: set<KeyId>)
    requires SessionOk(s, log, start, deleted) && start <= deleted
    ensures SessionOk(HandOut(s, deleted), log, start, deleted)
  {
    if s.item.read.Some? {
      assert RevealAll(deleted, []) == [];
    }
  }

  /** After the loop the guest has seen everything its read returned. */
  lemma EndedSessionSawEverything<S, T>(s: Session<S, T>, log: Log, start: set<KeyId>, deleted: set<KeyId>, at: nat)
    requires SessionOk(s, log, start, deleted) && LoopEnded(s) && at <= |log|
    requires s.item.read.Some? ==> s.item.read.value.head <= at
    requires forall p :: (match s.item.read case None => 0 case Some(read) => read.head) < p <= at
               ==> !MatchesAt(log, s.cmd.query, p)
    ensures s.seen == RevealAll(s.view, ReadRange(log, s.cmd.query, 0, at))
    ensures QueryIsEmpty(s.cmd.query) || start <= s.view <= deleted
  {
    match s.item.read
    case None =>
      EmptyQueryReadsNothing(log, s.cmd.query, at);
    case Some(read) =>
      assert s.handed;
      ReadSkipsQuietTail(log, s.cmd.query, 0, read.head, at);
  }

  lemma LogAfterOneMore<S, T>(log: Log, commits: seq<Committed<S, T>>, r: Committed<S, T>)
    ensures LogAfter(log, commits + [r]) == LogAfter(log, commits) + r.batch
    ensures forall i :: 0 <= i <= |commits| ==> (commits + [r])[..i] == commits[..i]
  {
    assert (commits + [r])[..|commits|] == commits;
  }

  lemma OutgoingIsOk<S, T>(w: World<S, T>, s: Session<S, T>, keyFor: string -> Option<KeyId>, start: set<KeyId>)
    requires SessionOk(s, w.log, start, w.deleted) && LoopEnded(s) && Decide(s.cmd, s.seen).Commits?
    requires Outgoing(w, s, keyFor, Decide(s.cmd, s.seen).events).Some?
    ensures
      var r := Outgoing(w, s, keyFor, Decide(s.cmd, s.seen).events).value;
      RecordOk(r, w.log, start, w.deleted) && PlaceOk(r, w.log)
  {
    var events := Decide(s.cmd, s.seen).events;
    var r := Outgoing(w, s, keyFor, events).value;
    if s.item.read.Some? && events != [] {
      assert !Landed(w.log, AppendCondition(s.cmd.query, s.item.read.value.head));
    }
    EndedSessionSawEverything(s, w.log, start, w.deleted, r.at);
    assert r.batch == StampAll(events, s.cmd.idempotencyKey, keyFor);
  }

  lemma RecordingKeepsInv<S(!new), T(!new)>(w: World<S, T>, r: Committed<S, T>, log: Log, start: set<KeyId>)
    requires Inv(w, log, start)
    requires RecordOk(r, w.log, start, w.deleted) && PlaceOk(r, w.log)
    ensures Inv(Recorded(w, r), log, start)
  {
    var next := Recorded(w, r);
    LogAfterOneMore(log, w.commits, r);
    forall i | 0 <= i < |next.commits| ensures RecordOk(next.commits[i], next.log, start, next.deleted) {
      var kept := if i < |w.commits| then w.commits[i] else r;
      GrowingKeepsRecord(kept, w.log, r.batch, start, w.deleted, w.deleted);
    }
    forall id | id in next.sessions ensures SessionOk(next.sessions[id], next.log, start, next.deleted) {
      GrowingKeepsSession(w.sessions[id], w.log, r.batch, start, w.deleted, w.deleted);
    }
    forall i | 0 <= i < |next.commits| ensures PlaceOk(next.commits[i], LogAfter(log, next.commits[..i])) {
      assert next.commits[..i] == w.commits[..i];
      assert w.commits[..|w.commits|] == w.commits;
    }
  }

  lemma ClosingKeepsInv<S(!new), T(!new)>(w: World<S, T>, id: nat, log: Log, start: set<KeyId>)
    requires Inv(w, log, start)
    ensures Inv(w.(sessions := w.sessions - {id}), log, start)
  {}

  lemma SettlingKeepsInv<S(!new), T(!new)>(
      w: World<S, T>, id: nat, keyFor: string -> Option<KeyId>, events: seq<EmitEvent>, log: Log, start: set<KeyId>)
    requires Inv(w, log, start) && id in w.sessions
    requires
      var outgoing := Outgoing(w, w.sessions[id], keyFor, events);
      outgoing.Some? ==> RecordOk(outgoing.value, w.log, start, w.deleted) && PlaceOk(outgoing.value, w.log)
    ensures Inv(Settle(w, id, keyFor, events), log, start)
  {
    var outgoing := Outgoing(w, w.sessions[id], keyFor, events);
    ClosingKeepsInv(w, id, log, start);
    if outgoing.Some? {
      RecordingKeepsInv(w.(sessions := w.sessions - {id}), outgoing.value, log, start);
    }
  }

  lemma CommitSettles<S, T>(w: World<S, T>, id: nat, keyFor: string -> Option<KeyId>)
    requires id in w.sessions && LoopEnded(w.sessions[id]) && Decide(w.sessions[id].cmd, w.sessions[id].seen).Commits?
    ensures Apply(w, Commit(id, keyFor)) == Settle(w, id, keyFor, Decide(w.sessions[id].cmd, w.sessions[id].seen).events)
  {}

  lemma DecidedIsOk<S(!new), T(!new)>(
      w: World<S, T>, id: nat, keyFor: string -> Option<KeyId>, events: seq<EmitEvent>, log: Log, start: set<KeyId>)
    requires Inv(w, log, start)
    requires id in w.sessions && LoopEnded(w.sessions[id]) && Decide(w.sessions[id].cmd, w.sessions[id].seen) == Commits(events)
    requires Outgoing(w, w.sessions[id], keyFor, events).Some?
    ensures
      var r := Outgoing(w, w.sessions[id], keyFor, events).value;
      RecordOk(r, w.log, start, w.deleted) && PlaceOk(r, w.log)
  {
    OutgoingIsOk(w, w.sessions[id], keyFor, start);
  }

  lemma CommitKeepsInv<S(!new), T(!new)>(w: World<S, T>, id: nat, keyFor: string -> Option<KeyId>, log: Log, start: set<KeyId>)
    requires Inv(w, log, start)
    requires id in w.sessions && LoopEnded(w.sessions[id]) && Decide(w.sessions[id].cmd, w.sessions[id].seen).Commits?
    ensures Inv(Apply(w, Commit(id, keyFor)), log, start)
  {
    var events := Decide(w.sessions[id].cmd, w.sessions[id].seen).events;
    CommitSettles(w, id, keyFor);
    if Outgoing(w, w.sessions[id], keyFor, events).Some? {
      DecidedIsOk(w, id, keyFor, events, log, start);
    }
    SettlingKeepsInv(w, id, keyFor, events, log, start);
  }

  lemma ShredKeepsInv<S(!new), T(!new)>(w: World<S, T>, key: KeyId, log: Log, start: set<KeyId>)
    requires Inv(w, log, start)
    ensures Inv(w.(deleted := w.deleted + {key}), log, start)
  {
    var gone := w.deleted + {key};
    assert w.log + [] == w.log;
    forall id | id in w.sessions ensures SessionOk(w.sessions[id], w.log, start, gone) {
      GrowingKeepsSession(w.sessions[id], w.log, [], start, w.deleted, gone);
    }
    forall i | 0 <= i < |w.commits| ensures RecordOk(w.commits[i], w.log, start, gone) {
      GrowingKeepsRecord(w.commits[i], w.log, [], start, w.deleted, gone);
    }
  }

  /** A session opened or moved on by itself leaves the rest as it is. */
  lemma SessionKeepsInv<S(!new), T(!new)>(w: World<S, T>, id: nat, session: Session<S, T>, log: Log, start: set<KeyId>)
    requires Inv(w, log, start) && SessionOk(session, w.log, start, w.deleted)
    ensures Inv(w.(sessions := w.sessions[id := session]), log, start)
  {}

  lemma StepKeepsInv<S(!new), T(!new)>(w: World<S, T>, step: Step<S, T>, log: Log, start: set<KeyId>)
    requires Inv(w, log, start)
    ensures Inv(Apply(w, step), log, start)
  {
    match step
    case Begin(id, cmd) =>
      SessionKeepsInv(w, id, Session(cmd, Open(w.log, cmd.query), [], false, false, {}), log, start);
    case NextBatch(id) =>
      if id in w.sessions && !LoopEnded(w.sessions[id]) {
        HandOutKeepsSession(w.sessions[id], w.log, start, w.deleted);
        SessionKeepsInv(w, id, HandOut(w.sessions[id], w.deleted), log, start);
      }
    case Commit(id, keyFor) =>
      if id in w.sessions && LoopEnded(w.sessions[id]) && Decide(w.sessions[id].cmd, w.sessions[id].seen).Commits? {
        CommitKeepsInv(w, id, keyFor, log, start);
      }
    case Abort(id) => ClosingKeepsInv(w, id, log, start);
    case Shred(key) => ShredKeepsInv(w, key, log, start);
  }

  lemma {:induction false} RunKeepsInv<S(!new), T(!new)>(steps: seq<Step<S, T>>, log: Log, start: set<KeyId>)
    ensures Inv(Exec(Initial(log, start), steps), log, start)
  {
    if steps != [] {
      RunKeepsInv(steps[..|steps| - 1], log, start);
      StepKeepsInv(Exec(Initial(log, start), steps[..|steps| - 1]), steps[|steps| - 1], log, start);
    }
  }

  // ---------- serializability ----------

  lemma {:induction false} LogAfterGrows<S, T>(log: Log, commits: seq<Committed<S, T>>, i: nat)
    requires i <= |commits|
    ensures LogAfter(log, commits[..i]) <= LogAfter(log, commits)
    decreases |commits|
  {
    if i == |commits| {
      assert commits[..i] == commits;
    } else {
      assert commits[..|commits| - 1][..i] == commits[..i];
      LogAfterGrows(log, commits[..|commits| - 1], i);
    }
  }

  /** With no key deleted on the way, a record's batch is what its command does alone on the
      log up to `at`. */
  lemma RecordIsSerial<S, T>(r: Committed<S, T>, log: Log, start: set<KeyId>)
    requires RecordOk(r, log, start, start)
    ensures r.batch == BatchOf(r.cmd, r.keyFor, log[..r.at], start)
  {
    var prefix := log[..r.at];
    assert prefix + log[r.at..] == log;
    ReadIgnoresLaterEvents(prefix, log[r.at..], r.cmd.query, 0, r.at);
    if QueryIsEmpty(r.cmd.query) {
      EmptyQueryReadsNothing(prefix, r.cmd.query, r.at);
      assert RevealAll(r.view, []) == RevealAll(start, []);
    } else {
      assert r.view == start;
    }
    assert RevealAll(r.view, ReadRange(log, r.cmd.query, 0, r.at)) == RevealAll(start, Read(prefix, r.cmd.query));
  }

  /** A record in its place on the final log. */
  ghost predicate Stands<S, T>(r: Committed<S, T>, before: Log, whole: Log, start: set<KeyId>) {
    RecordOk(r, whole, start, start) && PlaceOk(r, before) && before <= whole
  }

  lemma RecordStands<S(!new), T(!new)>(w: World<S, T>, log: Log, start: set<KeyId>, n: nat)
    requires Inv(w, log, start) && w.deleted == start && n < |w.commits|
    ensures Stands(w.commits[n], LogAfter(log, w.commits[..n]), w.log, start)
  {
    LogAfterGrows(log, w.commits, n);
  }

  ghost predicate SerialUpTo<S, T>(commits: seq<Committed<S, T>>, log: Log, start: set<KeyId>, n: nat)
    requires n <= |commits|
  {
    Serial(log, Appenders(commits[..n]), start) == LogAfter(log, commits[..n])
  }

  lemma OneCommitFurther<S, T>(commits: seq<Committed<S, T>>, whole: Log, log: Log, start: set<KeyId>, n: nat)
    requires n < |commits| && SerialUpTo(commits, log, start, n)
    requires Stands(commits[n], LogAfter(log, commits[..n]), whole, start)
    ensures SerialUpTo(commits, log, start, n + 1)
  {
    PrefixGrows(commits, n);
    OneMoreSerial(commits[..n], commits[n], whole, log, start);
  }

  lemma PrefixGrows<S, T>(commits: seq<Committed<S, T>>, n: nat)
    requires n < |commits|
    ensures commits[..n + 1] == commits[..n] + [commits[n]]
  {}

  lemma {:induction false} PrefixIsSerial<S, T>(
      commits: seq<Committed<S, T>>, whole: Log, log: Log, start: set<KeyId>, n: nat)
    requires n <= |commits|
    requires forall i :: 0 <= i < n ==> Stands(commits[i], LogAfter(log, commits[..i]), whole, start)
    ensures SerialUpTo(commits, log, start, n)
  {
    if n > 0 {
      PrefixIsSerial(commits, whole, log, start, n - 1);
      OneCommitFurther(commits, whole, log, start, n - 1);
    }
  }

  lemma OneMoreSerial<S, T>(front: seq<Committed<S, T>>, r: Committed<S, T>, whole: Log, log: Log, start: set<KeyId>)
    requires Serial(log, Appenders(front), start) == LogAfter(log, front) <= whole
    requires RecordOk(r, whole, start, start) && PlaceOk(r, LogAfter(log, front))
    ensures Serial(log, Appenders(front + [r]), start) == LogAfter(log, front + [r])
  {
    LogAfterOneMore(log, front, r);
    AppendersOneMore(front, r);
    if r.batch != [] {
      assert whole[..r.at] == LogAfter(log, front);
      RecordIsSerial(r, whole, start);
      SerialOneMore(log, Appenders(front), r, start);
    }
  }

  lemma AppendersOneMore<S, T>(front: seq<Committed<S, T>>, r: Committed<S, T>)
    ensures Appenders(front + [r]) == if r.batch != [] then Appenders(front) + [r] else Appenders(front)
  {
    assert (front + [r])[..|front|] == front;
  }

  lemma SerialOneMore<S, T>(log: Log, commits: seq<Committed<S, T>>, r: Committed<S, T>, deleted: set<KeyId>)
    ensures Serial(log, commits + [r], deleted)
         == Serial(log, commits, deleted) + BatchOf(r.cmd, r.keyFor, Serial(log, commits, deleted), deleted)
  {
    assert (commits + [r])[..|commits|] == commits;
  }

  /** Serializability: whatever the interleaving of any number of commands, if no key is
      deleted meanwhile, the log is the one produced by running the commands that appended, one
      at a time in commit order, each on the whole log before it. */
  lemma Serializable<S(!new), T(!new)>(steps: seq<Step<S, T>>, log: Log, start: set<KeyId>)
    requires Exec(Initial(log, start), steps).deleted == start
    ensures
      var w := Exec(Initial(log, start), steps);
      w.log == Serial(log, Appenders(w.commits), start)
  {
    var w := Exec(Initial(log, start), steps);
    RunKeepsInv(steps, log, start);
    forall i | 0 <= i < |w.commits| ensures Stands(w.commits[i], LogAfter(log, w.commits[..i]), w.log, start) {
      RecordStands(w, log, start, i);
    }
    PrefixIsSerial(w.commits, w.log, log, start, |w.commits|);
    assert w.commits[..|w.commits|] == w.commits;
  }

  /** Every commit, with or without events, is what its command does alone on a prefix of the
      log that was already there when it committed: the whole log for a commit that appends, the
      log its read was pinned to for one that does not. */
  lemma EveryCommitIsSerialAtItsPoint<S(!new), T(!new)>(steps: seq<Step<S, T>>, log: Log, start: set<KeyId>, i: nat)
    requires Exec(Initial(log, start), steps).deleted == start
    requires i < |Exec(Initial(log, start), steps).commits|
    ensures
      var w := Exec(Initial(log, start), steps);
      var r := w.commits[i];
      && r.at <= |LogAfter(log, w.commits[..i])| <= |w.log|
      && LogAfter(log, w.commits[..i]) == w.log[..|LogAfter(log, w.commits[..i])|]
      && (r.batch != [] ==> r.at == |LogAfter(log, w.commits[..i])|)
      && r.batch == BatchOf(r.cmd, r.keyFor, w.log[..r.at], start)
  {
    var w := Exec(Initial(log, start), steps);
    RunKeepsInv(steps, log, start);
    LogAfterGrows(log, w.commits, i);
    assert PlaceOk(w.commits[i], LogAfter(log, w.commits[..i]));
    RecordIsSerial(w.commits[i], w.log, start);
  }

  // ---------- idempotency keys ----------

  /** A read that decides to emit something contains no event with the command's key. */
  lemma NoKeyAmongTheEvents<S, T>(cmd: Command<S, T>, log: Log, view: set<KeyId>, upto: nat, p: nat)
    requires upto <= |log| && p <= upto
    requires MatchesAt(log, cmd.query, p) && cmd.idempotencyKey.Some? && log[p - 1].idempotencyKey == cmd.idempotencyKey
    ensures
      var outcome := Decide(cmd, RevealAll(view, ReadRange(log, cmd.query, 0, upto)));
      outcome.Commits? ==> outcome.events == []
  {
    var raw := ReadRange(log, cmd.query, 0, upto);
    ReadIsComplete(log, cmd.query, 0, upto, p);
    var k :| 0 <= k < |raw| && raw[k] == Stored(log[p - 1], p);
    DuplicateEmitsNothing(cmd, RevealAll(view, raw), k);
  }

  lemma KeyedOutgoingIsEmpty<S, T>(
      w: World<S, T>, s: Session<S, T>, keyFor: string -> Option<KeyId>, start: set<KeyId>, p: nat)
    requires SessionOk(s, w.log, start, w.deleted) && LoopEnded(s) && Decide(s.cmd, s.seen).Commits?
    requires s.cmd.idempotencyKey.Some? && MatchesAt(w.log, s.cmd.query, p) && w.log[p - 1].idempotencyKey == s.cmd.idempotencyKey
    ensures
      var outgoing := Outgoing(w, s, keyFor, Decide(s.cmd, s.seen).events);
      outgoing.Some? ==> outgoing.value.batch == []
  {
    match s.item.read
    case None =>
      assert false;
    case Some(read) =>
      if p <= read.head {
        NoKeyAmongTheEvents(s.cmd, w.log, s.view, read.head, p);
      } else {
        assert Landed(w.log, AppendCondition(s.cmd.query, read.head));
      }
  }

  /** Once an event with a command's key and matching its query is in the log, the command
      appends nothing, whenever it began: it sees the key or its fence fails.  It makes no
      difference that the event's own data has been shredded. */
  lemma KeyedCommandAppendsNothingTwice<S(!new), T(!new)>(
    steps: seq<Step<S, T>>, log: Log, start: set<KeyId>, id: nat, keyFor: string -> Option<KeyId>, p: nat)
    requires
      var w := Exec(Initial(log, start), steps);
      && id in w.sessions
      && w.sessions[id].cmd.idempotencyKey.Some?
      && MatchesAt(w.log, w.sessions[id].cmd.query, p)
      && w.log[p - 1].idempotencyKey == w.sessions[id].cmd.idempotencyKey
    ensures
      var w := Exec(Initial(log, start), steps);
      Apply(w, Commit(id, keyFor)).log == w.log
  {
    var w := Exec(Initial(log, start), steps);
    RunKeepsInv(steps, log, start);
    var s := w.sessions[id];
    if LoopEnded(s) && Decide(s.cmd, s.seen).Commits? {
      KeyedOutgoingIsEmpty(w, s, keyFor, start, p);
      CommitSettles(w, id, keyFor);
    }
  }

  /** Two executions with one key and one query: if both appended, then nothing the first one
      appended matches that query.  So once the first batch holds a matching event, the other
      execution has appended nothing, in any interleaving and with any keys shredded. */
  lemma OneKeyOneEffect<S(!new), T(!new)>(steps: seq<Step<S, T>>, log: Log, start: set<KeyId>, i: nat, j: nat, e: Event)
    requires
      var w := Exec(Initial(log, start), steps);
      && i < j < |w.commits|
      && w.commits[i].cmd.idempotencyKey.Some?
      && w.commits[i].cmd.idempotencyKey == w.commits[j].cmd.idempotencyKey
      && w.commits[i].cmd.query == w.commits[j].cmd.query
      && e in w.commits[i].batch && MatchesEvent(w.commits[i].cmd.query, e)
    ensures Exec(Initial(log, start), steps).commits[j].batch == []
  {
    var w := Exec(Initial(log, start), steps);
    RecordsAreOk(steps, log, start, i);
    RecordsAreOk(steps, log, start, j);
    CommitsInOrder(log, w.commits, i, j);
    LaterKeyedCommitIsEmpty(w.commits[i], w.commits[j], LogAfter(log, w.commits[..i]), LogAfter(log, w.commits[..j]),
                            w.log, start, w.deleted, e);
  }

  lemma RecordsAreOk<S(!new), T(!new)>(steps: seq<Step<S, T>>, log: Log, start: set<KeyId>, i: nat)
    requires i < |Exec(Initial(log, start), steps).commits|
    ensures
      var w := Exec(Initial(log, start), steps);
      && RecordOk(w.commits[i], w.log, start, w.deleted)
      && PlaceOk(w.commits[i], LogAfter(log, w.commits[..i]))
      && w.log == LogAfter(log, w.commits)
  {
    RunKeepsInv(steps, log, start);
  }

  lemma CommitsInOrder<S, T>(log: Log, commits: seq<Committed<S, T>>, i: nat, j: nat)
    requires i < j < |commits|
    ensures LogAfter(log, commits[..i]) + commits[i].batch <= LogAfter(log, commits[..j]) <= LogAfter(log, commits)
  {
    assert commits[..j][..i + 1] == commits[..i + 1] && commits[..i + 1][..i] == commits[..i];
    LogAfterGrows(log, commits[..j], i + 1);
    LogAfterGrows(log, commits, j);
  }

  lemma LaterKeyedCommitIsEmpty<S, T>(
    first: Committed<S, T>, second: Committed<S, T>, before: Log, between: Log, log: Log,
    start: set<KeyId>, deleted: set<KeyId>, e: Event)
    requires before + first.batch <= between <= log
    requires first.cmd.idempotencyKey.Some? && first.cmd.idempotencyKey == second.cmd.idempotencyKey
    requires first.cmd.query == second.cmd.query
    requires e in first.batch && MatchesEvent(first.cmd.query, e)
    requires RecordOk(first, log, start, deleted) && RecordOk(second, log, start, deleted) && PlaceOk(second, between)
    ensures second.batch == []
  {
    if second.batch != [] {
      var k :| 0 <= k < |first.batch| && first.batch[k] == e;
      assert e.idempotencyKey == first.cmd.idempotencyKey;
      assert (before + first.batch)[|before| + k] == e;
      assert between[|before| + k] == e;
      assert log[|before| + k] == e;
      NoKeyAmongTheEvents(second.cmd, log, second.view, second.at, |before| + k + 1);
    }
  }

  // ---------- commits without events ----------

  /** A commit without events may also be read at its own commit point as long as nothing that
      matches its query landed since its read. */
  lemma QuietReadOnlyCommitIsSerial<S, T>(
      cmd: Command<S, T>, keyFor: string -> Option<KeyId>, log: Log, head: nat, deleted: set<KeyId>)
    requires head <= |log| && !Landed(log, AppendCondition(cmd.query, head))
    ensures BatchOf(cmd, keyFor, log, deleted) == BatchOf(cmd, keyFor, log[..head], deleted)
  {
    ReadSkipsQuietTail(log, cmd.query, 0, head, |log|);
    assert log[..head] + log[head..] == log;
    ReadIgnoresLaterEvents(log[..head], log[head..], cmd.query, 0, head);
  }

  /** One step of a run given with its outcome. */
  lemma ExecOneMore<S, T>(w: World<S, T>, steps: seq<Step<S, T>>, step: Step<S, T>)
    ensures Exec(w, steps + [step]) == Apply(Exec(w, steps), step)
  {
    assert (steps + [step])[..|steps|] == steps;
  }

  /** A fold that counts the events it is given. */
  function CountAll(): BoundFold<nat, Json> {
    BoundFold(Fold([Entry("A", [], [])], {}, 0, (eventType, data) => Item(data), (state, event) => state + 1), map[])
  }

  /** Reads everything and answers "A" only to a log that is not empty. */
  function Answerer(): Command<nat, Json> {
    Command([CountAll()], All, None,
            (states: seq<nat>) => Emit(if states == [0] then [] else [EmitEvent(true, "A", [], Payload("x"), None)]))
  }

  /** Emits "A" without reading. */
  function Starter(): Command<nat, Json> {
    Command([], Items([]), None, (states: seq<nat>) => Emit([EmitEvent(true, "A", [], Payload("x"), None)]))
  }

  /** The event the answerer answers to. */
  function FirstA(): StoredEvent<Json> {
    StoredEvent(1, "A", [], None, None, None, Payload("x"))
  }

  lemma CountsOne()
    ensures FoldOver(CountAll(), []) == Ok(0) && FoldOver(CountAll(), [FirstA()]) == Ok(1)
  {
    var bound, e := CountAll(), FirstA();
    assert Folds.MatchesFoldQuery(bound.fold.entries, bound.binding, "A", []);
    FoldOneMore(bound, [], e);
    assert [] + [e] == [e];
  }

  lemma AnswererStates()
    ensures StatesOver(Answerer().folds, []) == Ok([0]) && StatesOver(Answerer().folds, [FirstA()]) == Ok([1])
  {
    CountsOne();
    var one, zero := StatesOver(Answerer().folds, [FirstA()]), StatesOver(Answerer().folds, []);
    assert one.value == [1] && zero.value == [0];
  }

  lemma AnswererDecides()
    ensures Decide(Answerer(), []) == Commits([])
    ensures Decide(Answerer(), [FirstA()]) == Commits([EmitEvent(true, "A", [], Payload("x"), None)])
    ensures Decide(Starter(), []) == Commits([EmitEvent(true, "A", [], Payload("x"), None)])
  {
    AnswererStates();
    assert [FirstA()][..1] == [FirstA()];
  }

  function Answer(keyFor: string -> Option<KeyId>): Event {
    Stamp(EmitEvent(true, "A", [], Payload("x"), None), None, keyFor)
  }

  function Waiting(): Session<nat, Json> {
    Session(Answerer(), TransactionItem(All, Some(CommandRead([], 0))), [], false, false, {})
  }

  function StarterRecord(keyFor: string -> Option<KeyId>): Committed<nat, Json> {
    Committed(Starter(), keyFor, {}, 0, [Answer(keyFor)])
  }

  function FirstFour(keyFor: string -> Option<KeyId>): seq<Step<nat, Json>> {
    [Begin(1, Answerer()), Begin(2, Starter()), NextBatch(2), Commit(2, keyFor)]
  }

  function Starting(drained: bool): Session<nat, Json> {
    Session(Starter(), TransactionItem(Items([]), None), [], drained, false, {})
  }

  lemma AfterTwoSteps()
    ensures
      var w0: World<nat, Json> := Initial([], {});
      Apply(Apply(w0, Begin(1, Answerer())), Begin(2, Starter())) == World([], {}, map[1 := Waiting(), 2 := Starting(false)], [])
  {}

  lemma StarterReadsNothing()
    ensures
      var w: World<nat, Json> := World([], {}, map[1 := Waiting(), 2 := Starting(false)], []);
      Apply(w, NextBatch(2)) == World([], {}, map[1 := Waiting(), 2 := Starting(true)], [])
  {
    assert map[1 := Waiting(), 2 := Starting(false)][2 := Starting(true)] == map[1 := Waiting(), 2 := Starting(true)];
  }

  lemma StarterCommits(keyFor: string -> Option<KeyId>)
    ensures
      var w: World<nat, Json> := World([], {}, map[1 := Waiting(), 2 := Starting(true)], []);
      Apply(w, Commit(2, keyFor)) == World([Answer(keyFor)], {}, map[1 := Waiting()], [StarterRecord(keyFor)])
  {
    var w: World<nat, Json> := World([], {}, map[1 := Waiting(), 2 := Starting(true)], []);
    var events := [EmitEvent(true, "A", [], Payload("x"), None)];
    AnswererDecides();
    CommitSettles(w, 2, keyFor);
    assert StampAll(events, None, keyFor) == [Answer(keyFor)];
    assert Outgoing(w, w.sessions[2], keyFor, events) == Some(StarterRecord(keyFor));
    assert w.sessions - {2} == map[1 := Waiting()];
  }

  lemma ExecFour<S, T>(w: World<S, T>, a: Step<S, T>, b: Step<S, T>, c: Step<S, T>, d: Step<S, T>)
    ensures Exec(w, [a, b, c, d]) == Apply(Apply(Apply(Apply(w, a), b), c), d)
  {
    ExecOneMore(w, [], a);
    ExecOneMore(w, [a], b);
    ExecOneMore(w, [a, b], c);
    ExecOneMore(w, [a, b, c], d);
    assert [] + [a] == [a] && [a] + [b] == [a, b] && [a, b] + [c] == [a, b, c] && [a, b, c] + [d] == [a, b, c, d];
  }

  lemma AfterFourSteps(keyFor: string -> Option<KeyId>)
    ensures Exec(Initial([], {}), FirstFour(keyFor))
         == World([Answer(keyFor)], {}, map[1 := Waiting()], [StarterRecord(keyFor)])
  {
    var w0: World<nat, Json> := Initial([], {});
    var a, b, c, d := Begin(1, Answerer()), Begin(2, Starter()), NextBatch(2), Commit(2, keyFor);
    ExecFour(w0, a, b, c, d);
    AfterTwoSteps();
    StarterReadsNothing();
    StarterCommits(keyFor);
  }

  lemma AfterSixSteps(keyFor: string -> Option<KeyId>)
    ensures
      var w := Exec(Initial([], {}), FirstFour(keyFor) + [NextBatch(1), Commit(1, keyFor)]);
      && w.log == [Answer(keyFor)] && w.deleted == {}
      && w.commits == [StarterRecord(keyFor), Committed(Answerer(), keyFor, {}, 0, [])]
  {
    AnswererDecides();
    AfterFourSteps(keyFor);
    var w0: World<nat, Json> := Initial([], {});
    var four := FirstFour(keyFor);
    ExecOneMore(w0, four, NextBatch(1));
    ExecOneMore(w0, four + [NextBatch(1)], Commit(1, keyFor));
    assert four + [NextBatch(1)] + [Commit(1, keyFor)] == four + [NextBatch(1), Commit(1, keyFor)];
    var w5 := Exec(w0, four + [NextBatch(1)]);
    assert w5.sessions[1].drained && w5.sessions[1].seen == [] && w5.sessions[1].view == {};
  }

  lemma AnswererAlone(keyFor: string -> Option<KeyId>)
    ensures BatchOf(Starter(), keyFor, [], {}) == [Answer(keyFor)]
    ensures BatchOf(Answerer(), keyFor, [Answer(keyFor)], {}) == [Answer(keyFor)]
  {
    AnswererDecides();
    var a := Answer(keyFor);
    var emitted := EmitEvent(true, "A", [], Payload("x"), None);
    assert Committable(emitted, keyFor) && StampAll([emitted], None, keyFor) == [a];
    assert RevealAll({}, Read([], Items([]))) == [];
    assert Read([a], All) == [Stored(a, 1)] by {
      assert ReadRange([a], All, 0, 0) == [] && MatchesEvent(All, [a][0]);
    }
    assert RevealAll({}, [Stored(a, 1)]) == [StoredEvent(1, "A", [], None, None, None, Payload("x"))];
  }

  lemma SeriallyTwice(keyFor: string -> Option<KeyId>, commits: seq<Committed<nat, Json>>)
    requires commits == [StarterRecord(keyFor), Committed(Answerer(), keyFor, {}, 0, [])]
    ensures Serial([], commits, {}) == [Answer(keyFor), Answer(keyFor)]
  {
    AnswererAlone(keyFor);
    var first := commits[0];
    assert [] + [first] == [first] && [first] + [commits[1]] == commits;
    SerialOneMore([], [], first, {});
    SerialOneMore([], [first], commits[1], {});
  }

  /** Commits without events cannot be moved to their commit point in general: here a command
      reads the empty log, an event lands, and the command commits nothing, though at that point
      it would have answered the event.  Running all commits in commit order, those without
      events included, gives a longer log. */
  lemma ReadOnlyCommitsAreNotSerialInCommitOrder(keyFor: string -> Option<KeyId>)
    ensures
      var w := Exec(Initial([], {}), FirstFour(keyFor) + [NextBatch(1), Commit(1, keyFor)]);
      |w.log| < |Serial([], w.commits, {})|
  {
    AfterSixSteps(keyFor);
    SeriallyTwice(keyFor, [StarterRecord(keyFor), Committed(Answerer(), keyFor, {}, 0, [])]);
  }
}

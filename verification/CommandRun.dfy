/** Running a command: replay its folds under one query, stop at once when an event already
    carries the command's idempotency key, otherwise decide and commit. */
module CommandRun {
  import opened Prelude
  import opened EventLog
  import opened DomainQuery
  import opened Folds
  import opened Replay
  import opened Transactions
  import opened FoldQueries

  datatype Decision = Reject | Emit(events: seq<EmitEvent>)

  /** What a command is once its input is bound: folds, query, key, and the decision it takes on
      the final fold states. */
  datatype Command<!S, !T> = Command(
    folds: seq<BoundFold<S, T>>,
    query: Query,
    idempotencyKey: Option<Uuid>,
    decide: seq<S> -> Decision)

  datatype RunError = FoldFailed | Rejected | CommitFailed(error: CommitError)

  predicate IsDuplicate(key: Option<Uuid>, e: StoredEvent<Json>) {
    key.Some? && e.idempotencyKey == key
  }

  /** How many events come before the first one that carries the key. */
  function BeforeDuplicate(key: Option<Uuid>, events: seq<StoredEvent<Json>>): (n: nat)
    ensures n <= |events|
    ensures forall i :: 0 <= i < n ==> !IsDuplicate(key, events[i])
    ensures n < |events| ==> IsDuplicate(key, events[n])
  {
    if events == [] || IsDuplicate(key, events[0]) then 0 else 1 + BeforeDuplicate(key, events[1..])
  }

  datatype Outcome = Commits(events: seq<EmitEvent>) | Aborts(error: RunError)

  /** What a command does on the events its query returned: a duplicate commits nothing (unless a
      fold fails before it is met), a failed fold or a rejection aborts, anything else commits
      what the command decides to emit. */
  function Decide<S, T>(cmd: Command<S, T>, events: seq<StoredEvent<Json>>): Outcome {
    var n := BeforeDuplicate(cmd.idempotencyKey, events);
    match StatesOver(cmd.folds, events[..n])
    case Err(_) => Aborts(FoldFailed)
    case Ok(states) =>
      if n < |events| then Commits([])
      else
        match cmd.decide(states)
        case Reject => Aborts(Rejected)
        case Emit(emitted) => Commits(emitted)
  }

  /** The decision of a command, exactly, on raw keys.  If it has no key, or no event it reads carries
      that key, then it commits all that `decide` emits on the states of its folds, each alone over the
      events, and aborts only on a rejection or a failing fold. */
  lemma DecidesExactly<S, T>(cmd: Command<S, T>, events: seq<StoredEvent<Json>>)
    requires cmd.idempotencyKey.None? || forall e :: e in events ==> e.idempotencyKey != cmd.idempotencyKey
    ensures
      if exists i :: 0 <= i < |cmd.folds| && FoldOver(cmd.folds[i], events).Err?
      then Decide(cmd, events) == Aborts(FoldFailed)
      else
        StatesOver(cmd.folds, events).Ok? && match cmd.decide(StatesOver(cmd.folds, events).value)
        case Reject => Decide(cmd, events) == Aborts(Rejected)
        case Emit(emitted) => Decide(cmd, events) == Commits(emitted)
  {
    assert BeforeDuplicate(cmd.idempotencyKey, events) == |events| by {
      assert forall i :: 0 <= i < |events| ==> !IsDuplicate(cmd.idempotencyKey, events[i]);
    }
    assert events[..|events|] == events;
  }

  /** And with the key among the events, exactly: it commits nothing, unless a fold fails on the
      events before the first that carries the key. */
  lemma DuplicateDecidesExactly<S, T>(cmd: Command<S, T>, events: seq<StoredEvent<Json>>, k: nat)
    requires k < |events| && cmd.idempotencyKey.Some? && events[k].idempotencyKey == cmd.idempotencyKey
    requires forall i :: 0 <= i < k ==> events[i].idempotencyKey != cmd.idempotencyKey
    ensures Decide(cmd, events) ==
            if exists i :: 0 <= i < |cmd.folds| && FoldOver(cmd.folds[i], events[..k]).Err? then Aborts(FoldFailed)
            else Commits([])
  {
    assert BeforeDuplicate(cmd.idempotencyKey, events) == k;
  }

  /** A command that finds its key among the events emits nothing. */
  lemma DuplicateEmitsNothing<S, T>(cmd: Command<S, T>, events: seq<StoredEvent<Json>>, k: nat)
    requires k < |events| && IsDuplicate(cmd.idempotencyKey, events[k])
    ensures Decide(cmd, events).Commits? ==> Decide(cmd, events).events == []
  {
    assert BeforeDuplicate(cmd.idempotencyKey, events) <= k;
  }

  function BindAll<S, T>(folds: seq<Fold<S, T>>, input: Bindings): (r: seq<BoundFold<S, T>>)
    ensures |r| == |folds| && forall i :: 0 <= i < |folds| ==> r[i] == BindToInput(folds[i], input)
  {
    seq(|folds|, i requires 0 <= i < |folds| => BindToInput(folds[i], input))
  }

  function StatesInOrder<S>(states: map<nat, S>, n: nat): (r: seq<S>)
    requires forall key: nat :: key < n ==> key in states
    ensures |r| == n && forall i :: 0 <= i < n ==> r[i] == states[i]
  {
    seq(n, i requires 0 <= i < n => states[i])
  }

  lemma HeldStatesAreTheStates<S(!new), T(!new)>(
    folds: seq<BoundFold<S, T>>, states: map<nat, S>, events: seq<StoredEvent<Json>>)
    requires Holds(folds, states, events)
    ensures StatesOver(folds, events) == Ok(StatesInOrder(states, |folds|))
  {
    var over := StatesOver(folds, events);
    assert over.value == StatesInOrder(states, |folds|);
  }

  datatype Replayed<S> = Drained(states: map<nat, S>) | Duplicate | Broken

  /** The replay of one batch: stops at the first duplicate, fails with the first failing fold. */
  method ReplayUntilDuplicate<S(!new), T(!new)>(
    folds: seq<BoundFold<S, T>>, initial: map<nat, S>, key: Option<Uuid>, events: seq<StoredEvent<Json>>)
    returns (r: Replayed<S>)
    requires Holds(folds, initial, [])
    ensures r.Drained? ==> Holds(folds, r.states, events) && BeforeDuplicate(key, events) == |events|
    ensures r.Duplicate? ==> BeforeDuplicate(key, events) < |events|
                             && StatesOver(folds, events[..BeforeDuplicate(key, events)]).Ok?
    ensures r.Broken? ==> StatesOver(folds, events[..BeforeDuplicate(key, events)]).Err?
    ensures r.Duplicate? ==> key.Some? && exists e :: e in events && e.idempotencyKey == key
    ensures r.Drained? ==> key.None? || forall e :: e in events ==> e.idempotencyKey != key
  {
    var states := initial;
    ghost var n := BeforeDuplicate(key, events);
    for i := 0 to |events|
      invariant i <= n && Holds(folds, states, events[..i])
    {
      if IsDuplicate(key, events[i]) {
        assert i == n;
        HeldStatesAreTheStates(folds, states, events[..n]);
        return Duplicate;
      }
      assert i < n;
      assert events[..i + 1] == events[..i] + [events[i]];
      var next := ApplyToAll(folds, states, events[i], events[..i]);
      if next.Err? {
        assert events[..n][..i + 1] == events[..i + 1];
        FailureSpreads(folds, events[..n], i + 1);
        return Broken;
      }
      states := next.value;
    }
    assert events[..|events|] == events;
    return Drained(states);
  }

  /** Replays batch after batch until an empty one, a duplicate, or a failing fold. */
  method ReplayAll<S(!new), T(!new)>(
    host: TransactionHost, tx: nat, folds: seq<BoundFold<S, T>>, key: Option<Uuid>, deleted: set<KeyId>,
    ghost read: seq<StoredEvent<Json>>)
    returns (r: Replayed<S>)
    requires host.Valid() && tx in host.transactions && RevealAll(deleted, Unread(host.transactions[tx])) == read
    modifies host`transactions
    ensures host.Valid() && tx in host.transactions && Fence(host.transactions[tx]) == Fence(old(host.transactions)[tx])
    ensures r.Drained? ==> Holds(folds, r.states, read) && BeforeDuplicate(key, read) == |read|
    ensures r.Duplicate? ==> BeforeDuplicate(key, read) < |read| && StatesOver(folds, read[..BeforeDuplicate(key, read)]).Ok?
    ensures r.Broken? ==> StatesOver(folds, read[..BeforeDuplicate(key, read)]).Err?
    ensures r.Duplicate? ==> key.Some? && exists e :: e in read && e.idempotencyKey == key
    ensures r.Drained? ==> key.None? || forall e :: e in read ==> e.idempotencyKey != key
  {
    var states := InitialStates(folds);
    InitialStatesHold(folds);
    ghost var drained := false;
    while true
      invariant host.Valid() && tx in host.transactions
      invariant Fence(host.transactions[tx]) == Fence(old(host.transactions)[tx])
      invariant RevealAll(deleted, Unread(host.transactions[tx])) == if drained then [] else read
      invariant Holds(folds, states, if drained then read else [])
      invariant drained ==> BeforeDuplicate(key, read) == |read|
      decreases |Unread(host.transactions[tx])|
    {
      var batch := host.NextBatch(tx, deleted);
      if batch.value == [] {
        break;
      }
      assert batch.value == read;
      var replayed := ReplayUntilDuplicate(folds, states, key, batch.value);
      if !replayed.Drained? {
        return replayed;
      }
      states := replayed.states;
      drained := true;
    }
    return Drained(states);
  }

  /** Opens the transaction and replays it, with nobody else at work. */
  method OpenAndReplay<S(!new), T(!new)>(
    host: TransactionHost, q: Query, folds: seq<BoundFold<S, T>>, key: Option<Uuid>, deleted: set<KeyId>)
    returns (tx: nat, r: Replayed<S>)
    requires host.Valid()
    modifies host
    ensures host.Valid() && tx in host.transactions && host.store.log == old(host.store.log)
    ensures
      var read := RevealAll(deleted, Read(host.store.log, q));
      && (r.Drained? ==> Holds(folds, r.states, read) && BeforeDuplicate(key, read) == |read|)
      && (r.Duplicate? ==> BeforeDuplicate(key, read) < |read| && StatesOver(folds, read[..BeforeDuplicate(key, read)]).Ok?)
      && (r.Broken? ==> StatesOver(folds, read[..BeforeDuplicate(key, read)]).Err?)
    ensures Fence(host.transactions[tx]) == if QueryIsEmpty(q) then None else Some(AppendCondition(q, |host.store.log|))
  {
    if QueryIsEmpty(q) {
      EmptyQueryNeverConflicts(host.store.log, q, 0);
    }
    tx := host.New(q);
    ghost var read := RevealAll(deleted, Unread(host.transactions[tx]));
    r := ReplayAll(host, tx, folds, key, deleted, read);
  }

  /** What the commit reports: the end of the log after an append, otherwise the watermark, if
      the command read anything. */
  function Reported(q: Query, log: Log, batch: seq<Event>): Option<nat> {
    if batch != [] then Some(|log| + |batch|) else if QueryIsEmpty(q) then None else Some(|log|)
  }

  /** What a commit of events that cannot all be committed fails with: all events are validated
      before any key is asked for. */
  function FirstFault(events: seq<EmitEvent>): CommitError {
    if forall e :: e in events ==> ValidEmit(e) then NoKey else InvalidEvent
  }

  /** A commit right after its read is never fenced off. */
  method Conclude(
      host: TransactionHost, tx: nat, q: Query, events: seq<EmitEvent>, key: Option<Uuid>, keyFor: string -> Option<KeyId>)
    returns (r: Result<Option<nat>, RunError>)
    requires host.Valid() && tx in host.transactions
    requires Fence(host.transactions[tx]) == if QueryIsEmpty(q) then None else Some(AppendCondition(q, |host.store.log|))
    modifies host`transactions, host.store
    ensures host.Valid()
    ensures
      var log := old(host.store.log);
      var batch := StampAll(events, key, keyFor);
      if forall e :: e in events ==> Committable(e, keyFor)
      then r == Ok(Reported(q, log, batch)) && host.store.log == log + batch
      else r == Err(CommitFailed(FirstFault(events))) && host.store.log == log
  {
    var committed := host.Commit(tx, events, key, keyFor);
    return match committed
      case Err(error) => Err(CommitFailed(error))
      case Ok(position) => Ok(position);
  }

  class CommandBuilder<S(!new), T(!new)> {
    const input: Bindings
    const idempotencyKey: Option<Uuid>
    var domainIds: seq<Entry>
    var folds: seq<Fold<S, T>>

    ghost predicate Valid()
      reads this
    {
      forall key, entry :: 0 <= key < |folds| && entry in folds[key].entries ==> entry in domainIds
    }

    constructor (input: Bindings, idempotencyKey: Option<Uuid>)
      ensures Valid() && folds == [] && domainIds == []
      ensures this.input == input && this.idempotencyKey == idempotencyKey
    {
      this.input, this.idempotencyKey := input, idempotencyKey;
      domainIds, folds := [], [];
    }

    method AddFold(fold: Fold<S, T>)
      requires Valid()
      modifies this
      ensures Valid() && folds == old(folds) + [fold] && domainIds == old(domainIds) + fold.entries
    {
      domainIds := domainIds + fold.entries;
      folds := folds + [fold];
    }

    /** The command this builder stands for. */
    function Bound(decide: seq<S> -> Decision): Command<S, T>
      reads this
    {
      Command(BindAll(folds, input), DcbQuery(domainIds, [input]), idempotencyKey, decide)
    }

    /** Runs the command with nobody else at work: it appends exactly what it decides on the
        events its query finds, stamped with its key, or nothing.  On raw keys: if it has no key or no
        event found carries it, and `decide` emits events that can be committed on the states of its
        folds alone, then exactly these are committed. */
    method Run(host: TransactionHost, deleted: set<KeyId>, decide: seq<S> -> Decision, keyFor: string -> Option<KeyId>)
      returns (r: Result<Option<nat>, RunError>)
      requires Valid() && host.Valid()
      modifies host, host.store
      ensures host.Valid()
      ensures RanAs(Decide(Bound(decide), RevealAll(deleted, Read(old(host.store.log), DcbQuery(domainIds, [input])))),
                    DcbQuery(domainIds, [input]), idempotencyKey, keyFor, old(host.store.log), host.store.log, r)
      ensures
        var read := RevealAll(deleted, Read(old(host.store.log), DcbQuery(domainIds, [input])));
        var states := StatesOver(BindAll(folds, input), read);
        (idempotencyKey.None? || forall e :: e in read ==> e.idempotencyKey != idempotencyKey)
        && states.Ok? && decide(states.value).Emit?
        && (forall e :: e in decide(states.value).events ==> Committable(e, keyFor))
        ==> r.Ok? && CommittedAs(old(host.store.log), host.store.log, decide(states.value).events, idempotencyKey, keyFor)
    {
      var bound := BindAll(folds, input);
      var q := BuildDcbQuery(domainIds, [input]);
      ghost var read := RevealAll(deleted, Read(host.store.log, q));
      ghost var cmd, log := Bound(decide), host.store.log;
      var tx, replayed := OpenAndReplay(host, q, bound, idempotencyKey, deleted);
      match replayed {
        case Broken =>
          host.Drop(tx);
          r := Err(FoldFailed);
        case Duplicate =>
          r := Conclude(host, tx, q, [], idempotencyKey, keyFor);
        case Drained(states) =>
          HeldStatesAreTheStates(bound, states, read);
          assert read[..|read|] == read;
          var decision := decide(StatesInOrder(states, |bound|));
          if decision.Reject? {
            host.Drop(tx);
            r := Err(Rejected);
          } else {
            r := Conclude(host, tx, q, decision.events, idempotencyKey, keyFor);
          }
      }
      DecisionIsCommitted(cmd, read, keyFor, log, host.store.log, r);
    }
  }

  /** A run that had the given outcome: an abort leaves the log alone; a commit appends its events
      if they can all be committed, and none otherwise. */
  ghost predicate RanAs(
    outcome: Outcome, q: Query, key: Option<Uuid>, keyFor: string -> Option<KeyId>, log: Log, after: Log, r: Result<Option<nat>, RunError>)
  {
    match outcome
    case Aborts(error) => r == Err(error) && after == log
    case Commits(events) =>
      if forall e :: e in events ==> Committable(e, keyFor)
      then r == Ok(Reported(q, log, StampAll(events, key, keyFor))) && after == log + StampAll(events, key, keyFor)
      else r == Err(CommitFailed(FirstFault(events))) && after == log
  }

  /** A run without the command's key among its events commits what the command decides. */
  lemma DecisionIsCommitted<S, T>(
    cmd: Command<S, T>, read: seq<StoredEvent<Json>>, keyFor: string -> Option<KeyId>, log: Log, after: Log,
    r: Result<Option<nat>, RunError>)
    requires RanAs(Decide(cmd, read), cmd.query, cmd.idempotencyKey, keyFor, log, after, r)
    ensures
      var states := StatesOver(cmd.folds, read);
      (cmd.idempotencyKey.None? || forall e :: e in read ==> e.idempotencyKey != cmd.idempotencyKey)
      && states.Ok? && cmd.decide(states.value).Emit?
      && (forall e :: e in cmd.decide(states.value).events ==> Committable(e, keyFor))
      ==> r.Ok? && CommittedAs(log, after, cmd.decide(states.value).events, cmd.idempotencyKey, keyFor)
  {
    if cmd.idempotencyKey.None? || forall e :: e in read ==> e.idempotencyKey != cmd.idempotencyKey {
      DecidesExactly(cmd, read);
      var outcome := Decide(cmd, read);
      if outcome.Commits? {
        StampedIsCommitted(log, outcome.events, cmd.idempotencyKey, keyFor);
      }
    }
  }

  /** Every fold of a command that takes only what it fetches is in the state it would have alone
      over the whole log, and the replay fails only when one of the folds would fail alone. */
  lemma CommandSeesWholeLogStates<S(!new), T(!new)>(
    folds: seq<Fold<S, T>>, entries: seq<Entry>, input: Bindings, log: Log, deleted: set<KeyId>)
    requires forall key, entry :: 0 <= key < |folds| && entry in folds[key].entries ==> entry in entries
    requires forall key :: 0 <= key < |folds| ==> TakesOnlyWhatItFetches(folds[key].entries, FoldBinding(folds[key].domainIdFields, input), input)
    ensures StatesOver(BindAll(folds, input), RevealAll(deleted, Read(log, DcbQuery(entries, [input]))))
         == StatesOver(BindAll(folds, input), RevealAll(deleted, Read(log, All)))
  {
    var bound := BindAll(folds, input);
    var read, whole := RevealAll(deleted, Read(log, DcbQuery(entries, [input]))), RevealAll(deleted, Read(log, All));
    DcbQueryMeansItsEntries(entries, [input]);
    forall key | 0 <= key < |folds| ensures FoldOver(bound[key], read) == FoldOver(bound[key], whole) {
      CommandFoldsDoNotInterfere(bound[key], entries, input, DcbQuery(entries, [input]), log, deleted);
    }
    if StatesOver(bound, read).Ok? {
      assert forall i :: 0 <= i < |bound| ==> FoldOver(bound[i], whole).Ok?;
      assert StatesOver(bound, read).value == StatesOver(bound, whole).value;
    }
  }
}

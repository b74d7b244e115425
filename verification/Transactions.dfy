/** The host side of a command transaction: the table of open transactions, the read that
    pins a watermark, and the append fenced by it. */
module Transactions {
  import opened Prelude
  import opened EventLog

  /** What a transaction's read left behind: the events not yet handed out, and the watermark. */
  datatype CommandRead = CommandRead(events: seq<StoredEvent<Json>>, head: nat)

  datatype TransactionItem = TransactionItem(query: Query, read: Option<CommandRead>)

  /** Fail the append if an event after `after` matches the query. */
  datatype AppendCondition = AppendCondition(failIfEventsMatch: Query, after: nat)

  /** An event as the guest emits it; `parses` says whether the texts of its id and of its payload
      can be read as a UUID and as JSON. */
  datatype EmitEvent = EmitEvent(
    parses: bool,
    eventType: string,
    tags: seq<string>,
    data: Json,
    encryptionScope: Option<string>)

  datatype CommitError = NoSuchTransaction | InvalidEvent | NoKey | Conflict

  predicate QueryIsEmpty(q: Query) {
    q.Items? && q.items == []
  }

  /** Opening a transaction reads everything that matches, together with the log's end; an
      empty query reads nothing and leaves the transaction without a watermark. */
  function Open(log: Log, q: Query): TransactionItem {
    TransactionItem(q, if QueryIsEmpty(q) then None else Some(CommandRead(Read(log, q), |log|)))
  }

  predicate Landed(log: Log, condition: AppendCondition) {
    exists p :: condition.after < p <= |log| && MatchesAt(log, condition.failIfEventsMatch, p)
  }

  /** The fence of a transaction, when it has read. */
  function Fence(item: TransactionItem): Option<AppendCondition> {
    match item.read
    case None => None
    case Some(read) => Some(AppendCondition(item.query, read.head))
  }

  predicate Fails(log: Log, condition: Option<AppendCondition>) {
    condition.Some? && Landed(log, condition.value)
  }

  /** Id and payload parse, and the names are ones the store accepts: a non-empty type and no tag
      twice. */
  predicate ValidEmit(e: EmitEvent) {
    e.parses && e.eventType != "" && Distinct(e.tags)
  }

  /** The key of the event's scope, if it has one, could be obtained. */
  predicate HasKey(e: EmitEvent, keyFor: string -> Option<KeyId>) {
    e.encryptionScope.Some? ==> keyFor(e.encryptionScope.value).Some?
  }

  predicate Committable(e: EmitEvent, keyFor: string -> Option<KeyId>) {
    ValidEmit(e) && HasKey(e, keyFor)
  }

  /** The stored form of an emitted event: the command's idempotency key stamped on it, its
      data sealed under the key of its scope. */
  function Stamp(e: EmitEvent, idempotencyKey: Option<Uuid>, keyFor: string -> Option<KeyId>): Event {
    Event(e.eventType, e.tags, idempotencyKey, e.encryptionScope,
          if e.encryptionScope.Some? then keyFor(e.encryptionScope.value) else None, e.data)
  }

  function StampAll(events: seq<EmitEvent>, idempotencyKey: Option<Uuid>, keyFor: string -> Option<KeyId>): (r: seq<Event>)
    ensures |r| == |events|
    ensures forall i :: 0 <= i < |r| ==> r[i] == Stamp(events[i], idempotencyKey, keyFor)
  {
    seq(|events|, i requires 0 <= i < |events| => Stamp(events[i], idempotencyKey, keyFor))
  }

  /** The log `after` holds, behind `before`, one event for each emitted one, in order, with its type,
      tags, payload and scope, the command's idempotency key, and the key id of its scope. */
  ghost predicate CommittedAs(
    before: Log, after: Log, events: seq<EmitEvent>, idempotencyKey: Option<Uuid>, keyFor: string -> Option<KeyId>)
  {
    && |after| == |before| + |events| && after[..|before|] == before
    && forall i :: 0 <= i < |events| ==>
         var e := after[|before| + i];
         && e.eventType == events[i].eventType && e.tags == events[i].tags && e.data == events[i].data
         && e.idempotencyKey == idempotencyKey
         && e.encryptionScope == events[i].encryptionScope
         && e.encryptionKeyId == match events[i].encryptionScope case None => None case Some(scope) => keyFor(scope)
  }

  /** Appending the stamped events appends the emitted ones. */
  lemma StampedIsCommitted(
      log: Log, events: seq<EmitEvent>, idempotencyKey: Option<Uuid>, keyFor: string -> Option<KeyId>)
    ensures CommittedAs(log, log + StampAll(events, idempotencyKey, keyFor), events, idempotencyKey, keyFor)
  {}

  /** Read-back: whatever lands later, a reader whose query matches an emitted event's type and tags
      is handed that event, at the position it was committed to, with the payload it was emitted with,
      or null exactly when the key of its scope is among the deleted ones. */
  lemma CommittedIsReadBack(
    before: Log, after: Log, more: Log, events: seq<EmitEvent>, idempotencyKey: Option<Uuid>,
    keyFor: string -> Option<KeyId>, i: nat, q: Query, deleted: set<KeyId>)
    requires CommittedAs(before, after, events, idempotencyKey, keyFor)
    requires i < |events| && Matches(q, events[i].eventType, events[i].tags)
    ensures HandedAs(events[i], |before| + i + 1, idempotencyKey, keyFor, deleted) in RevealAll(deleted, Read(after + more, q))
  {
    var log, p := after + more, |before| + i + 1;
    assert log[p - 1] == after[|before| + i];
    assert MatchesAt(log, q, p);
    ReadIsComplete(log, q, 0, |log|, p);
    var k :| 0 <= k < |Read(log, q)| && Read(log, q)[k] == Stored(log[p - 1], p);
    StoredExactly(log[p - 1], p);
    SeenExactly(deleted, Stored(log[p - 1], p));
    assert RevealAll(deleted, Read(log, q))[k] == HandedAs(events[i], p, idempotencyKey, keyFor, deleted);
  }

  /** An emitted event as a later reader gets it. */
  function HandedAs(
      e: EmitEvent, position: nat, idempotencyKey: Option<Uuid>, keyFor: string -> Option<KeyId>, deleted: set<KeyId>)
    : StoredEvent<Json>
  {
    var keyId := match e.encryptionScope case None => None case Some(scope) => keyFor(scope);
    StoredEvent(position, e.eventType, e.tags, idempotencyKey, e.encryptionScope, keyId,
                if keyId.Some? && keyId.value in deleted then Null else e.data)
  }

  /** An empty query matches no event, so appending without a fence loses nothing. */
  lemma EmptyQueryNeverConflicts(log: Log, q: Query, after: nat)
    requires QueryIsEmpty(q)
    ensures !Landed(log, AppendCondition(q, after)) && Read(log, q) == []
  {
    EmptyQueryReadsNothing(log, q, |log|);
  }

  lemma {:induction false} EmptyQueryReadsNothing(log: Log, q: Query, upto: nat)
    requires QueryIsEmpty(q) && upto <= |log|
    ensures ReadRange(log, q, 0, upto) == []
  {
    if upto > 0 {
      EmptyQueryReadsNothing(log, q, upto - 1);
    }
  }

  /** The store handle: one growing log with a conditional append. */
  class EventStore {
    var log: Log

    constructor (log: Log)
      ensures this.log == log
    {
      this.log := log;
    }

    method Append(events: seq<Event>, condition: Option<AppendCondition>) returns (r: Result<nat, CommitError>)
      modifies this
      ensures Fails(old(log), condition) ==> r == Err(Conflict) && log == old(log)
      ensures !Fails(old(log), condition) ==> log == old(log) + events && r == Ok(|log|)
    {
      if condition.Some? {
        var p := condition.value.after + 1;
        while p <= |log|
          invariant condition.value.after < p
          invariant forall k :: condition.value.after < k < p ==> !MatchesAt(log, condition.value.failIfEventsMatch, k)
        {
          if MatchesEvent(condition.value.failIfEventsMatch, log[p - 1]) {
            assert MatchesAt(log, condition.value.failIfEventsMatch, p);
            return Err(Conflict);
          }
          p := p + 1;
        }
      }
      log := log + events;
      return Ok(|log|);
    }
  }

  /** The open transactions of one component instance. */
  class TransactionHost {
    const store: EventStore
    var transactions: map<nat, TransactionItem>
    var nextKey: nat

    ghost predicate Valid()
      reads this
    {
      forall key :: key in transactions ==> key < nextKey
    }

    constructor (store: EventStore)
      ensures Valid() && this.store == store && transactions == map[]
    {
      this.store := store;
      transactions := map[];
      nextKey := 0;
    }

    /** Opens a transaction under a key that no other one has. */
    method New(q: Query) returns (key: nat)
      requires Valid()
      modifies this
      ensures Valid() && key !in old(transactions)
      ensures transactions == old(transactions)[key := Open(store.log, q)]
    {
      key := nextKey;
      var read := None;
      if !QueryIsEmpty(q) {
        read := Some(CommandRead(Read(store.log, q), |store.log|));
      }
      transactions := transactions[key := TransactionItem(q, read)];
      nextKey := nextKey + 1;
    }

    /** Hands out the whole matching set once, decrypted, then leaves it empty. */
    method NextBatch(key: nat, deleted: set<KeyId>) returns (r: Result<seq<StoredEvent<Json>>, CommitError>)
      requires Valid()
      modifies this`transactions
      ensures Valid()
      ensures key !in old(transactions) ==> r == Err(NoSuchTransaction) && transactions == old(transactions)
      ensures key in old(transactions) ==>
                var item := old(transactions)[key];
                match item.read
                case None => r == Ok([]) && transactions == old(transactions)
                case Some(read) =>
                  && r == Ok(RevealAll(deleted, read.events))
                  && transactions == old(transactions)[key := item.(read := Some(CommandRead([], read.head)))]
    {
      if key !in transactions {
        return Err(NoSuchTransaction);
      }
      var item := transactions[key];
      if item.read.None? {
        return Ok([]);
      }
      var batch := item.read.value.events;
      transactions := transactions[key := item.(read := Some(CommandRead([], item.read.value.head)))];
      var results: seq<StoredEvent<Json>> := [];
      for i := 0 to |batch|
        invariant results == RevealAll(deleted, batch)[..i]
      {
        results := results + [Reveal(deleted, batch[i])];
      }
      assert results == RevealAll(deleted, batch);
      return Ok(results);
    }

    /** All events are valid. */
    method Validate(events: seq<EmitEvent>) returns (ok: bool)
      ensures ok <==> forall e :: e in events ==> ValidEmit(e)
    {
      for i := 0 to |events|
        invariant forall j :: 0 <= j < i ==> ValidEmit(events[j])
      {
        if !ValidEmit(events[i]) {
          assert events[i] in events;
          return false;
        }
      }
      return true;
    }

    /** The events to store, unless the key of some scope cannot be obtained. */
    method StampEvents(events: seq<EmitEvent>, idempotencyKey: Option<Uuid>, keyFor: string -> Option<KeyId>)
      returns (r: Option<seq<Event>>)
      ensures r.Some? <==> forall e :: e in events ==> HasKey(e, keyFor)
      ensures r.Some? ==> r.value == StampAll(events, idempotencyKey, keyFor)
    {
      var stamped: seq<Event> := [];
      for i := 0 to |events|
        invariant stamped == StampAll(events, idempotencyKey, keyFor)[..i]
        invariant forall j :: 0 <= j < i ==> HasKey(events[j], keyFor)
      {
        if !HasKey(events[i], keyFor) {
          assert events[i] in events;
          return None;
        }
        stamped := stamped + [Stamp(events[i], idempotencyKey, keyFor)];
      }
      return Some(stamped);
    }

    /** Closes the transaction whatever happens next, then validates the events, seals each under
        the key of its scope, and appends them under the fence of the transaction's read.  With no
        events it appends nothing and reports the watermark. */
    method Commit(key: nat, events: seq<EmitEvent>, idempotencyKey: Option<Uuid>, keyFor: string -> Option<KeyId>)
      returns (r: Result<Option<nat>, CommitError>)
      requires Valid()
      modifies this`transactions, store
      ensures Valid() && transactions == old(transactions) - {key}
      ensures key !in old(transactions) ==> r == Err(NoSuchTransaction)
      ensures key in old(transactions) && (exists e :: e in events && !ValidEmit(e)) ==> r == Err(InvalidEvent)
      ensures (&& key in old(transactions) && (forall e :: e in events ==> ValidEmit(e))
               && (exists e :: e in events && !HasKey(e, keyFor))) ==> r == Err(NoKey)
      ensures key in old(transactions) && (forall e :: e in events ==> Committable(e, keyFor)) ==>
                var item := old(transactions)[key];
                if events == [] then
                  r == Ok(if item.read.Some? then Some(item.read.value.head) else None)
                else if Fails(old(store.log), Fence(item)) then r == Err(Conflict)
                else r == Ok(Some(|store.log|))
      ensures store.log == if r.Ok? then old(store.log) + StampAll(events, idempotencyKey, keyFor) else old(store.log)
      ensures r.Ok? ==> CommittedAs(old(store.log), store.log, events, idempotencyKey, keyFor)
      ensures r.Ok? ==> forall e :: e in events ==>
                e.parses && e.eventType != "" && Distinct(e.tags)
                && (e.encryptionScope.Some? ==> keyFor(e.encryptionScope.value).Some?)
      ensures r == Err(InvalidEvent) ==> exists e :: e in events && (!e.parses || e.eventType == "" || !Distinct(e.tags))
      ensures r == Err(NoKey) ==> exists e :: e in events && e.encryptionScope.Some? && keyFor(e.encryptionScope.value).None?
    {
      StampedIsCommitted(store.log, events, idempotencyKey, keyFor);
      if key !in transactions {
        return Err(NoSuchTransaction);
      }
      var item := transactions[key];
      transactions := transactions - {key};
      var valid := Validate(events);
      if !valid {
        return Err(InvalidEvent);
      }
      var sealed := StampEvents(events, idempotencyKey, keyFor);
      if sealed.None? {
        return Err(NoKey);
      }
      var stamped := sealed.value;
      if stamped != [] {
        var condition := if item.read.Some? then Some(AppendCondition(item.query, item.read.value.head)) else None;
        var range := store.Append(stamped, condition);
        match range
        case Err(error) => return Err(error);
        case Ok(last) => return Ok(Some(last));
      }
      return Ok(if item.read.Some? then Some(item.read.value.head) else None);
    }

    /** Dropping the handle forgets the transaction and appends nothing. */
    method Drop(key: nat)
      requires Valid()
      modifies this`transactions
      ensures Valid() && transactions == old(transactions) - {key}
    {
      transactions := transactions - {key};
    }
  }
}

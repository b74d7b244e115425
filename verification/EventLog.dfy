/** The append-only event log, the queries over it, and what a reader of it sees.

    The store itself is foreign code.  What the runtime relies on is written here as
    definitions: the event at index `i` of the log has position `i + 1`, a read returns
    the matching events up to its watermark in position order, and an event matches an
    item when its type is listed (no listed type means any) and it carries all the
    item's tags. */
module EventLog {
  import opened Prelude

  type Uuid = nat
  type KeyId = nat

  /** A JSON payload.  Only null is told apart from the rest. */
  datatype Json = Null | Payload(text: string)

  /** An event as a reader gets it; `data` is raw JSON or an already decoded value. */
  datatype StoredEvent<+D> = StoredEvent(
    position: nat,
    eventType: string,
    tags: seq<string>,
    idempotencyKey: Option<Uuid>,
    encryptionScope: Option<string>,
    encryptionKeyId: Option<KeyId>,
    data: D)

  /** An event as it lies in the log.  When `encryptionKeyId` is set, `data` stands for
      the plaintext that was sealed under that key. */
  datatype Event = Event(
    eventType: string,
    tags: seq<string>,
    idempotencyKey: Option<Uuid>,
    encryptionScope: Option<string>,
    encryptionKeyId: Option<KeyId>,
    data: Json)

  type Log = seq<Event>

  datatype QueryItem = QueryItem(types: set<string>, tags: set<string>)

  datatype Query = All | Items(items: seq<QueryItem>)

  predicate ItemMatches(item: QueryItem, eventType: string, tags: seq<string>) {
    && (item.types == {} || eventType in item.types)
    && forall tag :: tag in item.tags ==> tag in tags
  }

  predicate Matches(q: Query, eventType: string, tags: seq<string>) {
    match q
    case All => true
    case Items(items) => exists i :: 0 <= i < |items| && ItemMatches(items[i], eventType, tags)
  }

  predicate MatchesEvent(q: Query, e: Event) {
    Matches(q, e.eventType, e.tags)
  }

  function Stored(e: Event, position: nat): StoredEvent<Json> {
    StoredEvent(position, e.eventType, e.tags, e.idempotencyKey, e.encryptionScope, e.encryptionKeyId, e.data)
  }

  /** The same stored event around another payload. */
  function WithData<D, F>(e: StoredEvent<D>, data: F): StoredEvent<F> {
    StoredEvent(e.position, e.eventType, e.tags, e.idempotencyKey, e.encryptionScope, e.encryptionKeyId, data)
  }

  /** What decryption makes of an event once the keys in `deleted` are gone: a deleted key
      turns the payload into null, every other payload comes back as it was. */
  function Reveal(deleted: set<KeyId>, e: StoredEvent<Json>): StoredEvent<Json> {
    if e.encryptionKeyId.Some? && e.encryptionKeyId.value in deleted then e.(data := Null) else e
  }

  function RevealAll(deleted: set<KeyId>, events: seq<StoredEvent<Json>>): (r: seq<StoredEvent<Json>>)
    ensures |r| == |events|
    ensures forall i :: 0 <= i < |r| ==> r[i] == Reveal(deleted, events[i])
  {
    seq(|events|, i requires 0 <= i < |events| => Reveal(deleted, events[i]))
  }

  /** The test both replay loops and both delivery loops use to skip an event. */
  predicate Skipped(e: StoredEvent<Json>) {
    e.encryptionScope.Some? && e.data == Null
  }

  /** What a reader makes of an event, in terms of the event as it lies in the log: null when the
      key it was sealed under is gone, everything else as stored; and it is skipped exactly when it
      has a scope and is null, from the start or for want of its key. */
  lemma SeenExactly(deleted: set<KeyId>, raw: StoredEvent<Json>)
    ensures
      var gone := raw.encryptionKeyId.Some? && raw.encryptionKeyId.value in deleted;
      && Reveal(deleted, raw) == raw.(data := if gone then Null else raw.data)
      && (Skipped(Reveal(deleted, raw)) <==> raw.encryptionScope.Some? && (raw.data == Null || gone))
  {}

  /** The event at a position, field by field. */
  lemma StoredExactly(e: Event, position: nat)
    ensures
      var s := Stored(e, position);
      && s.position == position && s.eventType == e.eventType && s.tags == e.tags && s.data == e.data
      && s.idempotencyKey == e.idempotencyKey
      && s.encryptionScope == e.encryptionScope && s.encryptionKeyId == e.encryptionKeyId
  {}

  /** Position `p` holds a matching event of the log. */
  predicate MatchesAt(log: Log, q: Query, p: nat) {
    1 <= p <= |log| && MatchesEvent(q, log[p - 1])
  }

  /** The events at positions in `(after, upto]` that match `q`, in position order. */
  function ReadRange(log: Log, q: Query, after: nat, upto: nat): seq<StoredEvent<Json>>
    requires upto <= |log|
    decreases upto
  {
    if upto <= after then []
    else
      ReadRange(log, q, after, upto - 1)
      + (if MatchesEvent(q, log[upto - 1]) then [Stored(log[upto - 1], upto)] else [])
  }

  /** A whole read from the start of the log with its watermark at the end of `log`. */
  function Read(log: Log, q: Query): seq<StoredEvent<Json>> {
    ReadRange(log, q, 0, |log|)
  }

  /** A read never looks past its watermark: appending does not change it. */
  lemma {:induction false} ReadIgnoresLaterEvents(log: Log, more: Log, q: Query, after: nat, upto: nat)
    requires upto <= |log|
    ensures ReadRange(log + more, q, after, upto) == ReadRange(log, q, after, upto)
    decreases upto
  {
    if upto > after {
      ReadIgnoresLaterEvents(log, more, q, after, upto - 1);
      assert (log + more)[upto - 1] == log[upto - 1];
    }
  }

  /** Every event a read returns is the matching event at its position, inside the range. */
  lemma {:induction false} ReadIsSound(log: Log, q: Query, after: nat, upto: nat, e: StoredEvent<Json>)
    requires upto <= |log|
    requires e in ReadRange(log, q, after, upto)
    ensures after < e.position <= upto && MatchesAt(log, q, e.position)
    ensures e == Stored(log[e.position - 1], e.position)
    decreases upto
  {
    if upto > after {
      if e in ReadRange(log, q, after, upto - 1) {
        ReadIsSound(log, q, after, upto - 1, e);
      } else {
        assert e == Stored(log[upto - 1], upto);
      }
    }
  }

  /** A read misses no matching position of its range. */
  lemma {:induction false} ReadIsComplete(log: Log, q: Query, after: nat, upto: nat, p: nat)
    requires upto <= |log|
    requires after < p <= upto && MatchesAt(log, q, p)
    ensures Stored(log[p - 1], p) in ReadRange(log, q, after, upto)
    decreases upto
  {
    if p < upto {
      ReadIsComplete(log, q, after, upto - 1, p);
    }
  }

  /** A read returns each position at most once, in increasing order. */
  lemma {:induction false} ReadIsOrdered(log: Log, q: Query, after: nat, upto: nat, i: nat, j: nat)
    requires upto <= |log|
    requires i < j < |ReadRange(log, q, after, upto)|
    ensures ReadRange(log, q, after, upto)[i].position < ReadRange(log, q, after, upto)[j].position
    decreases upto
  {
    var before := ReadRange(log, q, after, upto - 1);
    if j < |before| {
      ReadIsOrdered(log, q, after, upto - 1, i, j);
    } else {
      ReadIsSound(log, q, after, upto - 1, before[i]);
    }
  }

  /** Extending the range over events that do not match changes nothing. */
  lemma {:induction false} ReadSkipsQuietTail(log: Log, q: Query, after: nat, mid: nat, upto: nat)
    requires after <= mid <= upto <= |log|
    requires forall p :: mid < p <= upto ==> !MatchesAt(log, q, p)
    ensures ReadRange(log, q, after, upto) == ReadRange(log, q, after, mid)
    decreases upto
  {
    if mid < upto {
      ReadSkipsQuietTail(log, q, after, mid, upto - 1);
      assert !MatchesAt(log, q, upto);
    }
  }

  /** A query reads the one event of a log exactly when it matches it. */
  lemma ReadsOne(q: Query, e: Event)
    ensures Read([e], q) == if MatchesEvent(q, e) then [Stored(e, 1)] else []
  {
    assert ReadRange([e], q, 0, 0) == [];
  }
}

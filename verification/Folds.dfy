/** Folds: how one fold decides which events it takes, and when several folds that share
    one query leave each other alone. */
module Folds {
  import opened Prelude
  import opened EventLog
  import opened DomainQuery

  /** What an event set makes of a payload: not one of its events, a payload that does not
      deserialize, or an item. */
  datatype Decoded<+T> = NotInSet | Malformed | Item(value: T)

  /** A fold with state `S` over an event set with items `T`. */
  datatype Fold<!S, !T> = Fold(
    entries: seq<Entry>,
    domainIdFields: set<string>,
    initial: S,
    decode: (string, Json) -> Decoded<T>,
    apply: (S, StoredEvent<T>) -> S)

  /** A fold together with the bindings it filters by. */
  datatype BoundFold<!S, !T> = BoundFold(fold: Fold<S, T>, binding: Bindings)

  datatype FoldError = PayloadMalformed

  // ---------- which events a fold takes ----------

  function StripPrefix(s: string, prefix: string): Option<string> {
    if prefix <= s then Some(s[|prefix|..]) else None
  }

  /** The tag, stripped of the field name and then of a colon, leaves the value. */
  predicate TagCarries(tag: string, field: string, value: string) {
    match StripPrefix(tag, field)
    case None => false
    case Some(rest) => StripPrefix(rest, ":") == Some(value)
  }

  function FindEntry(entries: seq<Entry>, eventType: string): Option<Entry> {
    if entries == [] then None
    else if entries[0].eventType == eventType then Some(entries[0])
    else FindEntry(entries[1..], eventType)
  }

  predicate MatchesFoldQuery(entries: seq<Entry>, binding: Bindings, eventType: string, tags: seq<string>) {
    match FindEntry(entries, eventType)
    case None => false
    case Some(required) =>
      && (forall field :: field in required.dynamicFields ==>
            field !in binding || exists tag :: tag in tags && TagCarries(tag, field, binding[field]))
      && forall pair :: pair in required.staticFields ==>
           exists tag :: tag in tags && TagCarries(tag, pair.0, pair.1)
  }

  lemma TagCarriesIsTag(tag: string, field: string, value: string)
    ensures TagCarries(tag, field, value) <==> tag == Tag(field, value)
  {
    if TagCarries(tag, field, value) {
      var rest := tag[|field|..];
      assert tag == field + rest && rest == ":" + rest[1..];
    }
    if tag == Tag(field, value) {
      assert tag[|field|..] == ":" + value;
      assert (":" + value)[1..] == value;
    }
  }

  /** The field-by-field search for stripped tags is inclusion of the tag set the query
      builder makes from the same entry, for the first entry of the event's type. */
  lemma FoldFilterIsTagInclusion(entries: seq<Entry>, binding: Bindings, eventType: string, tags: seq<string>)
    ensures MatchesFoldQuery(entries, binding, eventType, tags) <==>
            FindEntry(entries, eventType).Some?
            && EntryTags(FindEntry(entries, eventType).value, binding) <= Elements(tags)
  {
    forall tag, field, value ensures TagCarries(tag, field, value) <==> tag == Tag(field, value) {
      TagCarriesIsTag(tag, field, value);
    }
    if required :| FindEntry(entries, eventType) == Some(required) {
      forall field | field in required.dynamicFields && field in binding
        ensures Tag(field, binding[field]) in EntryTags(required, binding)
      {}
      forall pair | pair in required.staticFields
        ensures Tag(pair.0, pair.1) in EntryTags(required, binding)
      {}
    }
  }

  lemma {:induction false} FindEntryFindsTheFirst(entries: seq<Entry>, eventType: string)
    ensures FindEntry(entries, eventType).None? <==> forall entry :: entry in entries ==> entry.eventType != eventType
    ensures forall entry :: FindEntry(entries, eventType) == Some(entry) ==>
              exists k :: 0 <= k < |entries| && entries[k] == entry && entry.eventType == eventType
                          && forall i :: 0 <= i < k ==> entries[i].eventType != eventType
  {
    if entries != [] && entries[0].eventType != eventType {
      FindEntryFindsTheFirst(entries[1..], eventType);
      forall entry | FindEntry(entries, eventType) == Some(entry)
        ensures exists k :: 0 <= k < |entries| && entries[k] == entry && entry.eventType == eventType
                            && forall i :: 0 <= i < k ==> entries[i].eventType != eventType
      {
        var k :| 0 <= k < |entries[1..]| && entries[1..][k] == entry && entry.eventType == eventType
                 && forall i :: 0 <= i < k ==> entries[1..][i].eventType != eventType;
        assert entries[k + 1] == entry;
        assert forall i :: 0 < i < k + 1 ==> entries[i] == entries[1..][i - 1];
      }
      assert entries == [entries[0]] + entries[1..];
    }
  }

  // ---------- applying events ----------

  /** One event offered to one fold: unreadable events and events outside the fold's filter
      leave the state alone, a payload that does not deserialize fails the replay. */
  function BoxApply<S, T>(bound: BoundFold<S, T>, state: S, event: StoredEvent<Json>): Result<S, FoldError> {
    if Skipped(event) then Ok(state)
    else if MatchesFoldQuery(bound.fold.entries, bound.binding, event.eventType, event.tags) then
      match bound.fold.decode(event.eventType, event.data)
      case NotInSet => Ok(state)
      case Malformed => Err(PayloadMalformed)
      case Item(item) => Ok(bound.fold.apply(state, WithData(event, item)))
    else Ok(state)
  }

  /** The fold run alone over `events`, oldest first. */
  function FoldOver<S, T>(bound: BoundFold<S, T>, events: seq<StoredEvent<Json>>): Result<S, FoldError> {
    if events == [] then Ok(bound.fold.initial)
    else Advance(bound, FoldOver(bound, events[..|events| - 1]), events[|events| - 1])
  }

  function Advance<S, T>(
      bound: BoundFold<S, T>, soFar: Result<S, FoldError>, event: StoredEvent<Json>): Result<S, FoldError> {
    match soFar
    case Err(error) => Err(error)
    case Ok(state) => BoxApply(bound, state, event)
  }

  // ---------- what a fold computes ----------

  /** The event can be read and is inside the fold's filter. */
  predicate Offered<S, T>(bound: BoundFold<S, T>, e: StoredEvent<Json>) {
    (e.encryptionScope.None? || e.data != Null)
    && MatchesFoldQuery(bound.fold.entries, bound.binding, e.eventType, e.tags)
  }

  /** The offered events that decode to an item, in order, each with its item for payload. */
  function Taken<S, T>(bound: BoundFold<S, T>, events: seq<StoredEvent<Json>>): seq<StoredEvent<T>> {
    if events == [] then []
    else
      var e := events[|events| - 1];
      var decoded := bound.fold.decode(e.eventType, e.data);
      Taken(bound, events[..|events| - 1])
      + if Offered(bound, e) && decoded.Item?
        then [StoredEvent(e.position, e.eventType, e.tags, e.idempotencyKey, e.encryptionScope, e.encryptionKeyId, decoded.value)]
        else []
  }

  /** The left fold of `apply` from a state. */
  function Applied<S, T>(apply: (S, StoredEvent<T>) -> S, state: S, items: seq<StoredEvent<T>>): S {
    if items == [] then state else Applied(apply, apply(state, items[0]), items[1..])
  }

  lemma {:induction false} AppliedOneMore<S, T>(apply: (S, StoredEvent<T>) -> S, state: S, items: seq<StoredEvent<T>>, item: StoredEvent<T>)
    ensures Applied(apply, state, items + [item]) == apply(Applied(apply, state, items), item)
    decreases |items|
  {
    if items == [] {
      assert (items + [item])[1..] == [];
    } else {
      AppliedOneMore(apply, apply(state, items[0]), items[1..], item);
      assert (items + [item])[1..] == items[1..] + [item];
    }
  }

  /** The event is offered and its payload does not deserialize. */
  predicate Fatal<S, T>(bound: BoundFold<S, T>, e: StoredEvent<Json>) {
    Offered(bound, e) && bound.fold.decode(e.eventType, e.data).Malformed?
  }

  /** What a fold computes: the left fold of its `apply`, from its initial state, over the events it
      takes, in log order; it fails exactly when an event it is offered does not deserialize. */
  lemma {:induction false} FoldComputes<S, T>(bound: BoundFold<S, T>, events: seq<StoredEvent<Json>>)
    ensures FoldOver(bound, events) ==
            if exists e :: e in events && Fatal(bound, e) then Err(PayloadMalformed)
            else Ok(Applied(bound.fold.apply, bound.fold.initial, Taken(bound, events)))
  {
    if events != [] {
      var front, last := events[..|events| - 1], events[|events| - 1];
      FoldComputes(bound, front);
      assert events == front + [last];
      assert forall e :: e in events <==> e in front || e == last;
      if !(exists e :: e in front && Fatal(bound, e)) {
        OneMoreComputes(bound, front, last);
      }
    }
  }

  lemma OneMoreComputes<S, T>(bound: BoundFold<S, T>, front: seq<StoredEvent<Json>>, last: StoredEvent<Json>)
    ensures
      var state := Applied(bound.fold.apply, bound.fold.initial, Taken(bound, front));
      BoxApply(bound, state, last) ==
        if Fatal(bound, last) then Err(PayloadMalformed)
        else Ok(Applied(bound.fold.apply, bound.fold.initial, Taken(bound, front + [last])))
  {
    assert (front + [last])[..|front|] == front;
    var decoded := bound.fold.decode(last.eventType, last.data);
    var taken := Taken(bound, front);
    if Offered(bound, last) && decoded.Item? {
      var item := WithData(last, decoded.value);
      assert Taken(bound, front + [last]) == taken + [item];
      AppliedOneMore(bound.fold.apply, bound.fold.initial, taken, item);
    } else {
      assert Taken(bound, front + [last]) == taken;
    }
  }

  /** What one event does to a state, in terms of the event as it lies in the log: nothing when it
      cannot be read, has a type or tags outside the filter, or is not in the event set; a failure
      when it does not deserialize; otherwise the fold's own step from that very state. */
  lemma OneEventExactly<S, T>(bound: BoundFold<S, T>, state: S, raw: StoredEvent<Json>, deleted: set<KeyId>)
    ensures
      var gone := raw.encryptionKeyId.Some? && raw.encryptionKeyId.value in deleted;
      var data := if gone then Null else raw.data;
      var decoded := bound.fold.decode(raw.eventType, data);
      BoxApply(bound, state, Reveal(deleted, raw)) ==
        if (raw.encryptionScope.Some? && (raw.data == Null || gone))
           || !MatchesFoldQuery(bound.fold.entries, bound.binding, raw.eventType, raw.tags) || decoded.NotInSet? then Ok(state)
        else if decoded.Malformed? then Err(PayloadMalformed)
        else Ok(bound.fold.apply(state, StoredEvent(
                  raw.position, raw.eventType, raw.tags, raw.idempotencyKey, raw.encryptionScope, raw.encryptionKeyId, decoded.value)))
  {
    SeenExactly(deleted, raw);
  }

  /** A failed replay stays failed whatever follows. */
  lemma {:induction false} FailureIsFinal<S, T>(bound: BoundFold<S, T>, events: seq<StoredEvent<Json>>, k: nat)
    requires k <= |events| && FoldOver(bound, events[..k]).Err?
    ensures FoldOver(bound, events).Err?
    decreases |events|
  {
    if k < |events| {
      assert events[..|events| - 1][..k] == events[..k];
      FailureIsFinal(bound, events[..|events| - 1], k);
    } else {
      assert events[..k] == events;
    }
  }

  /** Events outside the fold's filter can be left out of the read: if `q` fetches at least
      what the fold takes, folding over what `q` fetches is folding over the whole log. */
  lemma {:induction false} QueryFiltersNothingTheFoldTakes<S, T>(
    bound: BoundFold<S, T>, q: Query, log: Log, deleted: set<KeyId>, upto: nat)
    requires upto <= |log|
    requires forall eventType, tags ::
               MatchesFoldQuery(bound.fold.entries, bound.binding, eventType, tags) ==> Matches(q, eventType, tags)
    ensures FoldOver(bound, RevealAll(deleted, ReadRange(log, q, 0, upto)))
         == FoldOver(bound, RevealAll(deleted, ReadRange(log, All, 0, upto)))
    decreases upto
  {
    if upto > 0 {
      QueryFiltersNothingTheFoldTakes(bound, q, log, deleted, upto - 1);
      var event := Reveal(deleted, Stored(log[upto - 1], upto));
      var read, whole := ReadRange(log, q, 0, upto - 1), ReadRange(log, All, 0, upto - 1);
      RevealExtends(deleted, read, Stored(log[upto - 1], upto));
      RevealExtends(deleted, whole, Stored(log[upto - 1], upto));
      FoldOneMore(bound, RevealAll(deleted, whole), event);
      if MatchesEvent(q, log[upto - 1]) {
        FoldOneMore(bound, RevealAll(deleted, read), event);
      } else {
        assert ReadRange(log, q, 0, upto) == read;
        assert !MatchesFoldQuery(bound.fold.entries, bound.binding, event.eventType, event.tags);
      }
    }
  }

  lemma RevealExtends(deleted: set<KeyId>, events: seq<StoredEvent<Json>>, e: StoredEvent<Json>)
    ensures RevealAll(deleted, events + [e]) == RevealAll(deleted, events) + [Reveal(deleted, e)]
  {}

  lemma FoldOneMore<S, T>(bound: BoundFold<S, T>, events: seq<StoredEvent<Json>>, e: StoredEvent<Json>)
    ensures FoldOver(bound, events + [e]) == Advance(bound, FoldOver(bound, events), e)
  {
    assert (events + [e])[..|events|] == events;
  }

  // ---------- folds of one command ----------

  /** A command's fold filters by those input bindings that are among its domain-id fields. */
  function FoldBinding(fields: set<string>, input: Bindings): Bindings {
    map field | field in input && field in fields :: input[field]
  }

  function BindToInput<S, T>(fold: Fold<S, T>, input: Bindings): BoundFold<S, T> {
    BoundFold(fold, FoldBinding(fold.domainIdFields, input))
  }

  /** Every entry field that `from` binds has the same value in `to`. */
  predicate FieldsCovered(entries: seq<Entry>, from: Bindings, to: Bindings) {
    forall entry, field :: entry in entries && field in entry.dynamicFields && field in from ==>
      field in to && to[field] == from[field]
  }

  /** What a fold with the bindings `own` takes of a type is fetched by one of its own entries
      under the command's `input`: for the first entry of each type, some entry of that type asks,
      under the input, for no further tag. */
  predicate TakesOnlyWhatItFetches(entries: seq<Entry>, own: Bindings, input: Bindings) {
    forall entry :: entry in entries && FindEntry(entries, entry.eventType) == Some(entry) ==>
      exists other :: other in entries && other.eventType == entry.eventType
                      && EntryTags(other, input) <= EntryTags(entry, own)
  }

  /** Nothing an entry fetches is dropped: the first entry of its type, under the fold's own
      bindings, asks for no tag that the entry does not ask for. */
  predicate DropsNothingItFetches(entries: seq<Entry>, own: Bindings, input: Bindings) {
    forall entry :: entry in entries ==>
      FindEntry(entries, entry.eventType).Some?
      && EntryTags(FindEntry(entries, entry.eventType).value, own) <= EntryTags(entry, input)
  }

  lemma {:induction false} SequenceOf(s: set<string>) returns (r: seq<string>)
    ensures Elements(r) == s
  {
    if s == {} {
      r := [];
    } else {
      var x :| x in s;
      var rest := SequenceOf(s - {x});
      r := [x] + rest;
      assert Elements(r) == {x} + Elements(rest);
    }
  }

  /** Exactly when a fold under a command's input takes only events that its own entries ask for. */
  lemma TakesOnlyWhatItFetchesExactly(entries: seq<Entry>, own: Bindings, input: Bindings)
    ensures (forall eventType, tags ::
               MatchesFoldQuery(entries, own, eventType, tags)
               ==> Wanted(entries, [input], eventType, tags))
            <==> TakesOnlyWhatItFetches(entries, own, input)
  {
    if TakesOnlyWhatItFetches(entries, own, input) {
      forall eventType, tags | MatchesFoldQuery(entries, own, eventType, tags)
        ensures Wanted(entries, [input], eventType, tags)
      {
        FoldFilterIsTagInclusion(entries, own, eventType, tags);
        FindEntryFindsTheFirst(entries, eventType);
        var entry := FindEntry(entries, eventType).value;
        var other :| other in entries && other.eventType == entry.eventType
                     && EntryTags(other, input) <= EntryTags(entry, own);
        var j :| 0 <= j < |entries| && entries[j] == other;
        assert EntryTags(entries[j], [input][0]) <= Elements(tags);
      }
    } else {
      var entry :| entry in entries && FindEntry(entries, entry.eventType) == Some(entry)
                   && forall other :: other in entries && other.eventType == entry.eventType
                        ==> !(EntryTags(other, input) <= EntryTags(entry, own));
      var tags := SequenceOf(EntryTags(entry, own));
      FoldFilterIsTagInclusion(entries, own, entry.eventType, tags);
      assert !Wanted(entries, [input], entry.eventType, tags);
    }
  }

  /** Exactly when a fold under a command's input drops nothing that its own entries fetched. */
  lemma DropsNothingItFetchesExactly(entries: seq<Entry>, own: Bindings, input: Bindings)
    ensures (forall eventType, tags ::
               Wanted(entries, [input], eventType, tags)
               ==> MatchesFoldQuery(entries, own, eventType, tags))
            <==> DropsNothingItFetches(entries, own, input)
  {
    if DropsNothingItFetches(entries, own, input) {
      forall eventType, tags | Wanted(entries, [input], eventType, tags)
        ensures MatchesFoldQuery(entries, own, eventType, tags)
      {
        FoldFilterIsTagInclusion(entries, own, eventType, tags);
      }
    } else {
      var entry :| entry in entries
                   && !(FindEntry(entries, entry.eventType).Some?
                        && EntryTags(FindEntry(entries, entry.eventType).value, own) <= EntryTags(entry, input));
      var tags := SequenceOf(EntryTags(entry, input));
      FoldFilterIsTagInclusion(entries, own, entry.eventType, tags);
      var j :| 0 <= j < |entries| && entries[j] == entry;
      assert EntryTags(entries[j], [input][0]) <= Elements(tags);
      assert Wanted(entries, [input], entry.eventType, tags);
    }
  }

  /** Entry fields bound alike are enough for the first condition, and one entry per event type
      is enough for the second. */
  lemma UsualFoldsQualify(entries: seq<Entry>, own: Bindings, input: Bindings)
    ensures FieldsCovered(entries, input, own) ==> TakesOnlyWhatItFetches(entries, own, input)
    ensures FieldsCovered(entries, own, input)
            && (forall i, j :: 0 <= i < j < |entries| ==> entries[i].eventType != entries[j].eventType)
            ==> DropsNothingItFetches(entries, own, input)
  {
    if FieldsCovered(entries, input, own) {
      forall entry | entry in entries ensures EntryTags(entry, input) <= EntryTags(entry, own) {}
    }
    if FieldsCovered(entries, own, input)
       && forall i, j :: 0 <= i < j < |entries| ==> entries[i].eventType != entries[j].eventType {
      forall entry | entry in entries
        ensures FindEntry(entries, entry.eventType) == Some(entry)
      {
        FindEntryFindsTheFirst(entries, entry.eventType);
        var found := FindEntry(entries, entry.eventType).value;
        var k :| 0 <= k < |entries| && entries[k] == found && found.eventType == entry.eventType;
        var j :| 0 <= j < |entries| && entries[j] == entry;
      }
      forall entry | entry in entries ensures EntryTags(entry, own) <= EntryTags(entry, input) {}
    }
  }

  /** The folds of a command do not interfere: whatever other entries widen the query, a fold
      ends in the state it reaches alone over the whole log. */
  lemma CommandFoldsDoNotInterfere<S, T>(
    bound: BoundFold<S, T>, allEntries: seq<Entry>, input: Bindings, q: Query, log: Log, deleted: set<KeyId>)
    requires Denotes(q, allEntries, [input])
    requires forall entry :: entry in bound.fold.entries ==> entry in allEntries
    requires TakesOnlyWhatItFetches(bound.fold.entries, bound.binding, input)
    ensures FoldOver(bound, RevealAll(deleted, Read(log, q))) == FoldOver(bound, RevealAll(deleted, Read(log, All)))
  {
    var own := bound.fold.entries;
    TakesOnlyWhatItFetchesExactly(own, bound.binding, input);
    forall eventType, tags | Wanted(own, [input], eventType, tags)
      ensures Matches(q, eventType, tags)
    {
      var i, j :| 0 <= i < |[input]| && 0 <= j < |own| && own[j].eventType == eventType
                  && EntryTags(own[j], [input][i]) <= Elements(tags);
      assert own[j] in own;
      var k :| 0 <= k < |allEntries| && allEntries[k] == own[j];
      assert EntryTags(allEntries[k], [input][i]) <= Elements(tags);
      assert Wanted(allEntries, [input], eventType, tags);
    }
    QueryFiltersNothingTheFoldTakes(bound, q, log, deleted, |log|);
  }

  // ---------- two scoped variants of one event type ----------

  function TopicEntry(topic: string): Entry {
    Entry("A", [], [("topic", topic)])
  }

  /** A fold over an event set with two variants of one type, told apart by a static field: the
      payload decides the variant, and the fold collects what it is given. */
  function ScopedFold(first: string, second: string): Fold<seq<string>, string> {
    Fold([TopicEntry(first), TopicEntry(second)], {}, [],
         (eventType: string, data: Json) =>
           if eventType == "A" && data.Payload? && (data.text == first || data.text == second) then Item(data.text)
           else NotInSet,
         (state: seq<string>, event: StoredEvent<string>) => state + [event.data])
  }

  function TopicEvent(topic: string): Event {
    Event("A", [Tag("topic", topic)], None, None, None, Payload(topic))
  }

  lemma TopicTags(topic: string, other: string)
    ensures EntryTags(TopicEntry(topic), map[]) == {Tag("topic", topic)}
    ensures Tag("topic", topic) == Tag("topic", other) <==> topic == other
  {
    assert ("topic", topic) in TopicEntry(topic).staticFields;
    assert Tag("topic", topic)[|"topic:"|..] == topic && Tag("topic", other)[|"topic:"|..] == other;
  }

  /** What a two-variant fold makes of the one event: it takes it iff its first variant is the event's. */
  lemma OnlyTheFirstVariantIsTaken(first: string, second: string, topic: string)
    requires topic == first || topic == second
    ensures
      var bound := BindToInput(ScopedFold(first, second), map[]);
      && MatchesFoldQuery(bound.fold.entries, bound.binding, "A", [Tag("topic", topic)]) == (topic == first)
      && FoldOver(bound, [Stored(TopicEvent(topic), 1)]) == Ok(if topic == first then [topic] else [])
  {
    var bound, e := BindToInput(ScopedFold(first, second), map[]), Stored(TopicEvent(topic), 1);
    TopicTags(first, topic);
    FoldFilterIsTagInclusion(bound.fold.entries, bound.binding, "A", [Tag("topic", topic)]);
    assert [Tag("topic", topic)][0] in Elements([Tag("topic", topic)]);
    assert bound.binding == map[];
    assert FoldOver(bound, [e]) == BoxApply(bound, [], e) by {
      assert [e][..0] == [];
    }
    assert bound.fold.decode("A", e.data) == Item(topic);
    assert bound.fold.apply([], WithData(e, topic)) == [topic];
  }

  /** The filter looks at the first entry of a type only, so the second of two variants of one
      type is fetched and then dropped: the fold asks for the event, its query returns it, and its
      state is as if it had not happened.  With the variants declared the other way round the
      same log gives the state that holds it. */
  lemma SecondVariantIsDropped(first: string, second: string)
    requires first != second
    ensures
      var fold, swapped := ScopedFold(first, second), ScopedFold(second, first);
      var log: Log := [TopicEvent(second)];
      && Wanted(fold.entries, [map[]], "A", [Tag("topic", second)])
      && !MatchesFoldQuery(fold.entries, map[], "A", [Tag("topic", second)])
      && Read(log, DcbQuery(fold.entries, [map[]])) == Read(log, All)
      && FoldOver(BindToInput(fold, map[]), Read(log, All)) == Ok([])
      && FoldOver(BindToInput(swapped, map[]), Read(log, All)) == Ok([second])
  {
    var fold := ScopedFold(first, second);
    TopicTags(second, second);
    assert EntryTags(fold.entries[1], [map[]][0]) <= Elements([Tag("topic", second)]) by {
      assert [Tag("topic", second)][0] in Elements([Tag("topic", second)]);
    }
    DcbQueryMeansItsEntries(fold.entries, [map[]]);
    ReadsOne(DcbQuery(fold.entries, [map[]]), TopicEvent(second));
    ReadsOne(All, TopicEvent(second));
    OnlyTheFirstVariantIsTaken(first, second, second);
    OnlyTheFirstVariantIsTaken(second, first, second);
    assert FoldBinding(fold.domainIdFields, map[]) == map[];
  }
}

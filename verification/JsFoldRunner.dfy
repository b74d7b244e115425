/** The TypeScript SDK's replay loop, against the same specification as the Rust one. */
module JsFoldRunner {
  import opened Prelude
  import opened EventLog
  import opened DomainQuery
  import opened Folds
  import opened Replay
  import opened Transactions
  import opened CommandRun
  import opened FoldQueries
  import opened JsBindings

  /** What a user's `apply` does: it may change the state it is given, and it may return the
      next state; a returned state wins over the changed one. */
  datatype Applied<S> = Applied(mutated: S, returned: Option<S>)

  datatype JsFold<!S> = JsFold(
    entries: seq<Entry>,
    bindings: Bindings,
    initial: S,
    apply: (S, StoredEvent<Json>) -> Applied<S>)

  function NextState<S>(applied: Applied<S>): S {
    match applied.returned
    case Some(state) => state
    case None => applied.mutated
  }

  /** The JS fold seen as a fold of the common model: its event set accepts every payload. */
  function AsBound<S>(fold: JsFold<S>): BoundFold<S, Json> {
    BoundFold(
      Fold(fold.entries, {}, fold.initial, (eventType, data) => Item(data),
           (state, event) => NextState(fold.apply(state, event))),
      fold.bindings)
  }

  function AllBound<S>(folds: seq<JsFold<S>>): (r: seq<BoundFold<S, Json>>)
    ensures |r| == |folds| && forall i :: 0 <= i < |folds| ==> r[i] == AsBound(folds[i])
  {
    seq(|folds|, i requires 0 <= i < |folds| => AsBound(folds[i]))
  }

  datatype Ending = DrainedEnd | IdempotentEnd

  method FindEntryJs(entries: seq<Entry>, eventType: string) returns (r: Option<Entry>)
    ensures r == FindEntry(entries, eventType)
  {
    for i := 0 to |entries|
      invariant FindEntry(entries, eventType) == FindEntry(entries[i..], eventType)
    {
      if entries[i].eventType == eventType {
        return Some(entries[i]);
      }
      assert entries[i..][1..] == entries[i + 1..];
    }
    return None;
  }

  /** What one event does to the state of a JS fold, in terms of the event as it lies in the log: nothing
      when it cannot be read or is outside the fold's filter; otherwise the state that `apply` returns, or
      the one it left changed when it returns none, whatever the payload is. */
  lemma JsOneEventExactly<S>(fold: JsFold<S>, state: S, raw: StoredEvent<Json>, deleted: set<KeyId>)
    ensures
      var gone := raw.encryptionKeyId.Some? && raw.encryptionKeyId.value in deleted;
      var seen := raw.(data := if gone then Null else raw.data);
      var applied := fold.apply(state, seen);
      BoxApply(AsBound(fold), state, Reveal(deleted, raw)) ==
        if (raw.encryptionScope.Some? && (raw.data == Null || gone))
           || !MatchesFoldQuery(fold.entries, fold.bindings, raw.eventType, raw.tags) then Ok(state)
        else Ok(if applied.returned.Some? then applied.returned.value else applied.mutated)
  {
    OneEventExactly(AsBound(fold), state, raw, deleted);
    SeenExactly(deleted, raw);
  }

  /** One event offered to one slot. */
  method OfferToSlot<S>(fold: JsFold<S>, state: S, event: StoredEvent<Json>) returns (next: S)
    ensures Skipped(event) ==> next == state
    ensures Ok(next) == BoxApply(AsBound(fold), state, event)
  {
    if Skipped(event) {
      return state;
    }
    var entry := FindEntryJs(fold.entries, event.eventType);
    if entry.None? {
      return state;
    }
    FoldFilterIsTagInclusion(fold.entries, fold.bindings, event.eventType, event.tags);
    FoldFilterIsTagInclusion([entry.value], fold.bindings, event.eventType, event.tags);
    FindEntryFindsTheFirst(fold.entries, event.eventType);
    var matches := MatchesFoldQueryJs(entry.value, event.tags, fold.bindings);
    if !matches {
      return state;
    }
    var applied := fold.apply(state, event);
    assert WithData(event, event.data) == event;
    return if applied.returned.Some? then applied.returned.value else applied.mutated;
  }

  /** The loop over a transaction.  It ends early exactly when an event carries the caller's
      idempotency key; otherwise every slot ends in the state of its own fold over all the
      events the transaction returned, which for JS folds always exists. */
  method RunFolds<S(!new)>(
    host: TransactionHost, tx: nat, folds: seq<JsFold<S>>, idempotencyKey: Option<Uuid>, deleted: set<KeyId>)
    returns (ending: Ending, states: seq<S>)
    requires host.Valid() && tx in host.transactions
    modifies host`transactions
    ensures host.Valid()
    ensures
      var read := RevealAll(deleted, Unread(old(host.transactions)[tx]));
      && (ending.IdempotentEnd? <==>
            idempotencyKey.Some? && exists e :: e in read && e.idempotencyKey == idempotencyKey)
      && (ending.DrainedEnd? ==> |states| == |folds| && StatesOver(AllBound(folds), read) == Ok(states))
  {
    ghost var read := RevealAll(deleted, Unread(host.transactions[tx]));
    ghost var bound := AllBound(folds);
    states := seq(|folds|, i requires 0 <= i < |folds| => folds[i].initial);
    ghost var drained := false;
    while true
      invariant host.Valid() && tx in host.transactions && |states| == |folds|
      invariant RevealAll(deleted, Unread(host.transactions[tx])) == if drained then [] else read
      invariant InStep(bound, states, if drained then read else [])
      invariant drained ==> forall e :: e in read ==> !IsDuplicate(idempotencyKey, e)
      decreases |Unread(host.transactions[tx])|
    {
      var next := host.NextBatch(tx, deleted);
      var batch := next.value;
      if batch == [] {
        break;
      }
      ghost var table := host.transactions;
      for k := 0 to |batch|
        invariant host.transactions == table
        invariant |states| == |folds| && InStep(bound, states, batch[..k])
        invariant forall i :: 0 <= i < k ==> !IsDuplicate(idempotencyKey, batch[i])
      {
        if IsDuplicate(idempotencyKey, batch[k]) {
          assert batch[k] in read;
          return IdempotentEnd, states;
        }
        states := OfferToAll(folds, states, batch[k], batch[..k]);
        assert batch[..k + 1] == batch[..k] + [batch[k]];
      }
      assert batch[..|batch|] == batch == read;
      drained := true;
    }
    InStepIsStatesOver(bound, states, read);
    return DrainedEnd, states;
  }

  ghost predicate InStep<S(!new)>(bound: seq<BoundFold<S, Json>>, states: seq<S>, events: seq<StoredEvent<Json>>) {
    |states| == |bound| && forall i :: 0 <= i < |bound| ==> FoldOver(bound[i], events) == Ok(states[i])
  }

  lemma InStepIsStatesOver<S(!new)>(bound: seq<BoundFold<S, Json>>, states: seq<S>, events: seq<StoredEvent<Json>>)
    requires InStep(bound, states, events)
    ensures StatesOver(bound, events) == Ok(states)
  {
    assert StatesOver(bound, events).value == states;
  }

  method OfferToAll<S(!new)>(
    folds: seq<JsFold<S>>, states: seq<S>, event: StoredEvent<Json>, ghost before: seq<StoredEvent<Json>>)
    returns (r: seq<S>)
    requires InStep(AllBound(folds), states, before)
    ensures InStep(AllBound(folds), r, before + [event])
  {
    r := states;
    for i := 0 to |folds|
      invariant |r| == |folds|
      invariant forall k :: 0 <= k < i ==> FoldOver(AsBound(folds[k]), before + [event]) == Ok(r[k])
      invariant forall k :: i <= k < |folds| ==> r[k] == states[k]
    {
      var next := OfferToSlot(folds[i], r[i], event);
      assert FoldOver(AllBound(folds)[i], before) == Ok(states[i]);
      FoldOneMore(AsBound(folds[i]), before, event);
      r := r[i := next];
    }
  }

  // ---------- which folds an accepted query serves ----------

  /** A fold over what an accepted query returns is the fold alone over the whole log, whatever
      other folds and bindings the query serves, when the query fetches what the fold takes. */
  lemma FetchedFoldKeepsItsState<S(!new)>(
    fold: JsFold<S>, entries: seq<Entry>, bindings: seq<Bindings>, log: Log, deleted: set<KeyId>)
    requires JsQuery(entries, bindings).Ok? && Fetches(entries, bindings, fold.entries, fold.bindings)
    ensures FoldOver(AsBound(fold), RevealAll(deleted, Read(log, Items(JsQuery(entries, bindings).value))))
         == FoldOver(AsBound(fold), RevealAll(deleted, Read(log, All)))
  {
    FetchesWhatAFoldTakesExactly(entries, bindings, fold.entries, fold.bindings);
    QueryFiltersNothingTheFoldTakes(AsBound(fold), Items(JsQuery(entries, bindings).value), log, deleted, |log|);
  }

  /** A fold that counts the events it is given. */
  function CountingFold(entries: seq<Entry>, bindings: Bindings): JsFold<int> {
    JsFold(entries, bindings, 0, (state: int, event: StoredEvent<Json>) => Applied(state, Some(state + 1)))
  }

  function PlainEvent(eventType: string, tags: seq<string>): Event {
    Event(eventType, tags, None, None, None, Payload("p"))
  }

  /** A counting fold over a log of one event. */
  lemma CountsTheOneEvent(fold: JsFold<int>, eventType: string, tags: seq<string>)
    requires fold == CountingFold(fold.entries, fold.bindings)
    requires MatchesFoldQuery(fold.entries, fold.bindings, eventType, tags)
    ensures FoldOver(AsBound(fold), Read([PlainEvent(eventType, tags)], All)) == Ok(1)
    ensures FoldOver(AsBound(fold), []) == Ok(0)
  {
    var bound, e := AsBound(fold), Stored(PlainEvent(eventType, tags), 1);
    ReadsOne(All, PlainEvent(eventType, tags));
    assert FoldOver(bound, [e]) == BoxApply(bound, 0, e) by {
      assert [e][..0] == [];
    }
    assert fold.apply(0, WithData(e, e.data)) == Applied(0, Some(1));
    assert bound.fold.apply(0, WithData(e, e.data)) == NextState(fold.apply(0, WithData(e, e.data)));
  }

  /** What an accepted query does not fetch, the counting fold misses: on the log of that one event
      it stays where it began. */
  lemma UnfetchedEventIsMissed(fold: JsFold<int>, q: Query, eventType: string, tags: seq<string>)
    requires fold == CountingFold(fold.entries, fold.bindings)
    requires MatchesFoldQuery(fold.entries, fold.bindings, eventType, tags) && !Matches(q, eventType, tags)
    ensures
      var log: Log := [PlainEvent(eventType, tags)];
      FoldOver(AsBound(fold), Read(log, q)) == Ok(0) && FoldOver(AsBound(fold), Read(log, All)) == Ok(1)
  {
    CountsTheOneEvent(fold, eventType, tags);
    ReadsOne(q, PlainEvent(eventType, tags));
  }

  /** The condition is exact at the level of states: the counting fold with given entries and
      bindings keeps its whole-log state on every log if and only if the query fetches what folds
      with these entries and bindings take. */
  lemma KeepsItsStateExactly(entries: seq<Entry>, bindings: seq<Bindings>, own: seq<Entry>, ownBinding: Bindings)
    requires JsQuery(entries, bindings).Ok?
    ensures
      var bound := AsBound(CountingFold(own, ownBinding));
      (forall log :: FoldOver(bound, Read(log, Items(JsQuery(entries, bindings).value))) == FoldOver(bound, Read(log, All)))
      <==> Fetches(entries, bindings, own, ownBinding)
  {
    var fold, q := CountingFold(own, ownBinding), Items(JsQuery(entries, bindings).value);
    if Fetches(entries, bindings, own, ownBinding) {
      forall log ensures FoldOver(AsBound(fold), Read(log, q)) == FoldOver(AsBound(fold), Read(log, All)) {
        FetchedFoldKeepsItsState(fold, entries, bindings, log, {});
        NothingDeleted(Read(log, q));
        NothingDeleted(Read(log, All));
      }
    } else {
      FetchesWhatAFoldTakesExactly(entries, bindings, own, ownBinding);
      var eventType, tags :| MatchesFoldQuery(own, ownBinding, eventType, tags) && !Matches(q, eventType, tags);
      UnfetchedEventIsMissed(fold, q, eventType, tags);
      var log: Log := [PlainEvent(eventType, tags)];
      assert FoldOver(AsBound(fold), Read(log, q)) != FoldOver(AsBound(fold), Read(log, All));
    }
  }

  lemma NothingDeleted(events: seq<StoredEvent<Json>>)
    ensures RevealAll({}, events) == events
  {}

  // ---------- the query of a fold query ----------

  /** The fold's own entries yield no tag with the separator under its own bindings. */
  predicate OwnTagsAreClean(own: seq<Entry>, ownBinding: Bindings) {
    forall entry :: entry in own ==> Clean(JsTags(entry, ownBinding))
  }

  /** The JS fold query also crosses all entries with all bindings, so its folds do not interfere
      either: whenever the runtime accepts the query, a fold whose own tags do not carry the
      separator ends, over what the query returns, as alone over the whole log.  With the separator
      in its own tags it may not (`SeparatorLosesState`). */
  lemma JsFoldsDoNotInterfere<S(!new)>(
    folds: seq<JsFold<S>>, entries: seq<Entry>, log: Log, deleted: set<KeyId>, key: nat)
    requires key < |folds| && forall entry :: entry in folds[key].entries ==> entry in entries
    requires OwnTagsAreClean(folds[key].entries, folds[key].bindings)
    ensures Fetches(entries, BindingsOf(AllBound(folds)), folds[key].entries, folds[key].bindings)
    ensures
      var query := JsQuery(entries, BindingsOf(AllBound(folds)));
      query.Ok? ==>
        FoldOver(AsBound(folds[key]), RevealAll(deleted, Read(log, Items(query.value))))
        == FoldOver(AsBound(folds[key]), RevealAll(deleted, Read(log, All)))
  {
    var fold, bindings := folds[key], BindingsOf(AllBound(folds));
    forall entry | entry in fold.entries && FindEntry(fold.entries, entry.eventType) == Some(entry)
      ensures KeyAsksWithin(entries, bindings, entry.eventType, EntryTags(entry, fold.bindings))
    {
      assert bindings[key] == fold.bindings;
      CleanPairAsks(entries, bindings, entry, key, EntryTags(entry, fold.bindings));
    }
    if JsQuery(entries, bindings).Ok? {
      FetchedFoldKeepsItsState(fold, entries, bindings, log, deleted);
    }
  }

  /** The key of a clean pair asks for exactly its tags. */
  lemma CleanPairAsks(entries: seq<Entry>, bindings: seq<Bindings>, entry: Entry, i: nat, within: set<string>)
    requires entry in entries && i < |bindings| && Clean(JsTags(entry, bindings[i]))
    requires EntryTags(entry, bindings[i]) <= within
    ensures KeyAsksWithin(entries, bindings, entry.eventType, within)
  {
    TagsOfKeyOf(entry, bindings[i]);
    var j :| 0 <= j < |entries| && entries[j] == entry;
    assert TagSetOfKey(KeyOf(entries[j], bindings[i])) <= within;
  }

  // ---------- the query of a command ----------

  /** A command's query is built from the command's own bindings alone, or from none when its
      folds have no entries. */
  function CommandBindings(entries: seq<Entry>, cmdBindings: Bindings): seq<Bindings> {
    if entries == [] then [] else [cmdBindings]
  }

  /** Each fold of a command filters by its own bindings.  Whenever the runtime accepts the
      command's query, a fold keeps its whole-log state, whatever folds share the query, if what it
      takes under its own bindings is fetched by its own entries under the command's and these
      entries yield no tag with the separator there. */
  lemma JsCommandFoldsDoNotInterfere<S(!new)>(
    fold: JsFold<S>, entries: seq<Entry>, cmdBindings: Bindings, log: Log, deleted: set<KeyId>)
    requires forall entry :: entry in fold.entries ==> entry in entries
    requires OwnTagsAreClean(fold.entries, cmdBindings)
    requires TakesOnlyWhatItFetches(fold.entries, fold.bindings, cmdBindings)
    ensures Fetches(entries, CommandBindings(entries, cmdBindings), fold.entries, fold.bindings)
    ensures
      var query := JsQuery(entries, CommandBindings(entries, cmdBindings));
      query.Ok? ==>
        FoldOver(AsBound(fold), RevealAll(deleted, Read(log, Items(query.value))))
        == FoldOver(AsBound(fold), RevealAll(deleted, Read(log, All)))
  {
    var bindings := CommandBindings(entries, cmdBindings);
    forall entry | entry in fold.entries && FindEntry(fold.entries, entry.eventType) == Some(entry)
      ensures KeyAsksWithin(entries, bindings, entry.eventType, EntryTags(entry, fold.bindings))
    {
      var other :| other in fold.entries && other.eventType == entry.eventType
                   && EntryTags(other, cmdBindings) <= EntryTags(entry, fold.bindings);
      CleanPairAsks(entries, bindings, other, 0, EntryTags(entry, fold.bindings));
    }
    if JsQuery(entries, bindings).Ok? {
      FetchedFoldKeepsItsState(fold, entries, bindings, log, deleted);
    }
  }

  // ---------- two runs that lose an event ----------

  lemma TakesItsOneTag(entry: Entry, bindings: Bindings, tag: string)
    requires EntryTags(entry, bindings) == {tag}
    ensures MatchesFoldQuery([entry], bindings, entry.eventType, [tag])
  {
    FoldFilterIsTagInclusion([entry], bindings, entry.eventType, [tag]);
    assert [tag][0] in Elements([tag]);
  }

  /** A separator inside a binding: the runtime accepts the fold query, and the fold misses an
      event of its own filter. */
  lemma SeparatorLosesState()
    ensures
      var fold := CountingFold([SPLIT_ENTRY], SPLIT_BINDING);
      var log: Log := [PlainEvent("A", [SPLIT_TAG])];
      var query := JsQuery(fold.entries, [fold.bindings]);
      && query.Ok?
      && FoldOver(AsBound(fold), Read(log, Items(query.value))) == Ok(0)
      && FoldOver(AsBound(fold), Read(log, All)) == Ok(1)
  {
    SeparatorSplitsTheTag();
    SeparatorLosesAWantedEvent();
    TakesItsOneTag(SPLIT_ENTRY, SPLIT_BINDING, SPLIT_TAG);
    UnfetchedEventIsMissed(CountingFold([SPLIT_ENTRY], SPLIT_BINDING),
                           Items(JsQuery([SPLIT_ENTRY], [SPLIT_BINDING]).value), "A", [SPLIT_TAG]);
  }

  lemma OneIdTag(id: string)
    requires SEPARATOR !in id
    ensures EntryTags(SPLIT_ENTRY, map["id" := id]) == {Tag("id", id)}
    ensures NoSeparator([SPLIT_ENTRY], [map["id" := id]]) && NoDuplicateTag([SPLIT_ENTRY], [map["id" := id]])
  {
    var binding: Bindings := map["id" := id];
    assert ["id"][..0] == [];
    assert DynamicTags(["id"], binding) == [Tag("id", id)];
    assert JsTags(SPLIT_ENTRY, binding) == [Tag("id", id)];
    JsTagsAreTheEntryTags(SPLIT_ENTRY, binding);
    assert Elements([Tag("id", id)]) == {Tag("id", id)};
  }

  /** A command whose fold is bound to another id than the command itself: the query fetches the
      events of the command's id only, and the fold misses those of its own. */
  lemma FoldBoundElsewhereMissesItsEvents(cmdId: string, foldId: string)
    requires cmdId != foldId && SEPARATOR !in cmdId && SEPARATOR !in foldId
    ensures
      var fold := CountingFold([SPLIT_ENTRY], map["id" := foldId]);
      var log: Log := [PlainEvent("A", [Tag("id", foldId)])];
      var query := JsQuery(fold.entries, CommandBindings(fold.entries, map["id" := cmdId]));
      && query.Ok?
      && FoldOver(AsBound(fold), Read(log, Items(query.value))) == Ok(0)
      && FoldOver(AsBound(fold), Read(log, All)) == Ok(1)
  {
    var input: Bindings := map["id" := cmdId];
    OneIdTag(cmdId);
    OneIdTag(foldId);
    CleanQueryIsTheRustQuery([SPLIT_ENTRY], [input]);
    DcbQueryMeansItsEntries([SPLIT_ENTRY], [input]);
    assert Tag("id", cmdId)[3..] == cmdId && Tag("id", foldId)[3..] == foldId;
    assert Tag("id", cmdId) in EntryTags(SPLIT_ENTRY, input);
    assert !Wanted([SPLIT_ENTRY], [input], "A", [Tag("id", foldId)]);
    TakesItsOneTag(SPLIT_ENTRY, map["id" := foldId], Tag("id", foldId));
    UnfetchedEventIsMissed(CountingFold([SPLIT_ENTRY], map["id" := foldId]), DcbQuery([SPLIT_ENTRY], [input]),
                           "A", [Tag("id", foldId)]);
  }
}

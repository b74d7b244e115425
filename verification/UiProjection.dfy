/** The query builder behind the UI's ad-hoc projections: the third grouping of event types by
    tag set, here over scopes with fixed values and in key order instead of insertion order. */
module UiProjection {
  import opened Prelude
  import opened EventLog
  import opened Grouping
  import opened DomainQuery

  /** A JSON scope value: strings are taken as they are, anything else as it prints. */
  datatype ScopeValue = Text(text: string) | Other(printed: string)

  datatype EventEntry =
    | Type(eventType: string)
    | Scoped(eventType: string, scope: map<string, ScopeValue>)

  function TagValue(value: ScopeValue): string {
    match value
    case Text(text) => text
    case Other(printed) => printed
  }

  function UiTags(entry: EventEntry): set<string> {
    match entry
    case Type(_) => {}
    case Scoped(_, scope) => set field | field in scope :: Tag(field, TagValue(scope[field]))
  }

  function UiNeeds(entries: seq<EventEntry>): (r: seq<Need<set<string>>>)
    ensures |r| == |entries|
    ensures forall i :: 0 <= i < |r| ==> r[i] == Need(UiTags(entries[i]), entries[i].eventType)
  {
    seq(|entries|, i requires 0 <= i < |entries| => Need(UiTags(entries[i]), entries[i].eventType))
  }

  datatype ProjectionError = EmptyEventType

  /** Builds the query, or fails when a type name is empty.  The items are those of the Rust
      builder's grouping, each once, in another order. */
  method BuildQuery(entries: seq<EventEntry>) returns (r: Result<Query, ProjectionError>)
    ensures r.Err? <==> exists entry :: entry in entries && entry.eventType == ""
    ensures r.Ok? ==>
              && r.value.Items? && WellFormedItems(r.value.items)
              && Elements(r.value.items) == Elements(ItemsOf(Group(UiNeeds(entries))))
  {
    var grouped: map<set<string>, set<string>> := map[];
    ghost var order: seq<set<string>> := [];
    ghost var needs := UiNeeds(entries);
    for n := 0 to |entries|
      invariant Represents(order, grouped, needs[..n])
    {
      var tags := UiTags(entries[n]);
      assert needs[..n + 1] == needs[..n] + [needs[n]];
      if tags in grouped {
        WidenGroup(order, grouped, needs[..n], needs[n]);
        grouped := grouped[tags := grouped[tags] + {entries[n].eventType}];
      } else {
        OpenGroup(order, grouped, needs[..n], needs[n]);
        order := order + [tags];
        grouped := grouped[tags := {entries[n].eventType}];
      }
    }
    assert needs[..|entries|] == needs;
    var items: seq<QueryItem> := [];
    var remaining := grouped.Keys;
    while remaining != {}
      invariant remaining <= grouped.Keys
      invariant |items| + |remaining| == |grouped.Keys|
      invariant forall item :: item in items <==>
                  item.tags in grouped && item.tags !in remaining && item.types == grouped[item.tags]
      invariant forall i, j :: 0 <= i < j < |items| ==> items[i].tags != items[j].tags
      invariant forall key :: key in grouped && key !in remaining ==> "" !in grouped[key]
      decreases remaining
    {
      var tags :| tags in remaining;
      if "" in grouped[tags] {
        EmptyTypeIsDeclared(entries, order, grouped, tags);
        return Err(EmptyEventType);
      }
      items := items + [QueryItem(grouped[tags], tags)];
      remaining := remaining - {tags};
    }
    if entry :| entry in entries && entry.eventType == "" {
      EmptyTypeIsKept(entries, order, grouped, entry);
      assert false;
    }
    ItemsAreTheBuckets(items, order, grouped, needs);
    return Ok(Items(items));
  }

  lemma EmptyTypeIsDeclared(
    entries: seq<EventEntry>, order: seq<set<string>>, grouped: map<set<string>, set<string>>, tags: set<string>)
    requires Represents(order, grouped, UiNeeds(entries))
    requires tags in grouped && "" in grouped[tags]
    ensures exists entry :: entry in entries && entry.eventType == ""
  {
    var needs, need := UiNeeds(entries), Need(tags, "");
    var i :| 0 <= i < |order| && order[i] == tags;
    assert BucketsOf(order, grouped)[i].key == tags;
    GroupIsExact(needs, need);
    var k :| 0 <= k < |needs| && needs[k] == need;
    assert entries[k] in entries;
  }

  lemma EmptyTypeIsKept(
    entries: seq<EventEntry>, order: seq<set<string>>, grouped: map<set<string>, set<string>>, entry: EventEntry)
    requires Represents(order, grouped, UiNeeds(entries))
    requires entry in entries && entry.eventType == ""
    ensures exists tags :: tags in grouped && "" in grouped[tags]
  {
    var needs := UiNeeds(entries);
    var k :| 0 <= k < |entries| && entries[k] == entry;
    GroupIsExact(needs, needs[k]);
    var buckets := BucketsOf(order, grouped);
    var i :| 0 <= i < |buckets| && buckets[i].key == needs[k].key && needs[k].member in buckets[i].members;
    assert order[i] in order;
  }

  lemma ItemsAreTheBuckets(
    items: seq<QueryItem>, order: seq<set<string>>, grouped: map<set<string>, set<string>>, needs: seq<Need<set<string>>>)
    requires Represents(order, grouped, needs)
    requires forall item :: item in items <==> item.tags in grouped && item.types == grouped[item.tags]
    requires forall i, j :: 0 <= i < j < |items| ==> items[i].tags != items[j].tags
    ensures WellFormedItems(items)
    ensures Elements(items) == Elements(ItemsOf(Group(needs)))
  {
    var buckets := Group(needs);
    GroupIsExact(needs, Need({}, ""));
    forall item ensures item in items <==> item in ItemsOf(buckets) {
      if item in items {
        var i :| 0 <= i < |order| && order[i] == item.tags;
        assert ItemsOf(buckets)[i] == item;
      }
      if item in ItemsOf(buckets) {
        var i :| 0 <= i < |buckets| && ItemsOf(buckets)[i] == item;
        assert order[i] in order;
      }
    }
    forall i | 0 <= i < |items| ensures items[i].types != {} {
      assert items[i] in ItemsOf(buckets);
    }
  }

  /** The event has the entry's type and carries, for every field of its scope, the tag that joins the
      field and its value as it prints. */
  predicate Asks(entry: EventEntry, eventType: string, tags: seq<string>) {
    && entry.eventType == eventType
    && (entry.Scoped? ==> forall field :: field in entry.scope ==>
          field + ":" + (if entry.scope[field].Text? then entry.scope[field].text else entry.scope[field].printed) in tags)
  }

  lemma AsksItsTags(entry: EventEntry, eventType: string, tags: seq<string>)
    ensures Asks(entry, eventType, tags) <==> entry.eventType == eventType && UiTags(entry) <= Elements(tags)
  {
    if entry.Scoped? {
      forall field | field in entry.scope
        ensures field + ":" + (if entry.scope[field].Text? then entry.scope[field].text else entry.scope[field].printed)
                in UiTags(entry)
      {}
    }
  }

  /** The order of the items does not matter: any well-formed arrangement of the groups matches
      exactly the events that some entry names, with all the tags of its scope. */
  lemma UiQueryMeansItsEntries(entries: seq<EventEntry>, items: seq<QueryItem>, eventType: string, tags: seq<string>)
    requires Elements(items) == Elements(ItemsOf(Group(UiNeeds(entries))))
    ensures Matches(Items(items), eventType, tags) <==> exists entry :: entry in entries && Asks(entry, eventType, tags)
  {
    ItemsMeanUiTags(entries, items, eventType, tags);
    forall entry | entry in entries
      ensures Asks(entry, eventType, tags) <==> entry.eventType == eventType && UiTags(entry) <= Elements(tags)
    {
      AsksItsTags(entry, eventType, tags);
    }
  }

  lemma ItemsMeanUiTags(entries: seq<EventEntry>, items: seq<QueryItem>, eventType: string, tags: seq<string>)
    requires Elements(items) == Elements(ItemsOf(Group(UiNeeds(entries))))
    ensures Matches(Items(items), eventType, tags)
       <==> exists entry :: entry in entries && entry.eventType == eventType && UiTags(entry) <= Elements(tags)
  {
    var needs := UiNeeds(entries);
    var grouped := ItemsOf(Group(needs));
    ItemsMeanTheNeeds(needs, eventType, tags);
    if i :| 0 <= i < |items| && ItemMatches(items[i], eventType, tags) {
      assert items[i] in Elements(items);
      var k :| 0 <= k < |grouped| && grouped[k] == items[i];
    }
    if k :| 0 <= k < |grouped| && ItemMatches(grouped[k], eventType, tags) {
      assert grouped[k] in Elements(grouped);
      var i :| 0 <= i < |items| && items[i] == grouped[k];
    }
    if need :| need in needs && need.member == eventType && need.key <= Elements(tags) {
      var k :| 0 <= k < |needs| && needs[k] == need;
      assert entries[k] in entries && UiTags(entries[k]) <= Elements(tags);
    }
    if entry :| entry in entries && entry.eventType == eventType && UiTags(entry) <= Elements(tags) {
      var k :| 0 <= k < |entries| && entries[k] == entry;
      assert needs[k] in needs;
    }
  }

  /** The declaration written for the Rust SDK, with its scope as static fields. */
  ghost predicate WrittenFor(ui: EventEntry, entry: Entry) {
    && entry.eventType == ui.eventType && entry.dynamicFields == []
    && forall field, value :: (field, value) in entry.staticFields <==>
         ui.Scoped? && field in ui.scope && value == (if ui.scope[field].Text? then ui.scope[field].text else ui.scope[field].printed)
  }

  lemma WrittenAsks(ui: EventEntry, entry: Entry)
    requires WrittenFor(ui, entry)
    ensures EntryTags(entry, map[]) == UiTags(ui)
  {
    forall tag ensures tag in EntryTags(entry, map[]) <==> tag in UiTags(ui) {
      if pair :| pair in entry.staticFields && tag == Tag(pair.0, pair.1) {
        assert (pair.0, pair.1) in entry.staticFields;
      }
      if ui.Scoped? {
        if field :| field in ui.scope && tag == Tag(field, TagValue(ui.scope[field])) {
          assert (field, TagValue(ui.scope[field])) in entry.staticFields;
        }
      }
    }
  }

  /** The same declarations written for the Rust SDK, with every scope as static fields, make a
      query that matches the same events. */
  lemma UiQueryAgreesWithRust(
    uiEntries: seq<EventEntry>, items: seq<QueryItem>, entries: seq<Entry>, eventType: string, tags: seq<string>)
    requires Elements(items) == Elements(ItemsOf(Group(UiNeeds(uiEntries))))
    requires |entries| == |uiEntries| && forall i :: 0 <= i < |entries| ==> WrittenFor(uiEntries[i], entries[i])
    ensures Matches(Items(items), eventType, tags) <==> Matches(DcbQuery(entries, [map[]]), eventType, tags)
  {
    var noBindings: seq<Bindings> := [map[]];
    forall i | 0 <= i < |entries| ensures EntryTags(entries[i], map[]) == UiTags(uiEntries[i]) {
      WrittenAsks(uiEntries[i], entries[i]);
    }
    ItemsMeanUiTags(uiEntries, items, eventType, tags);
    DcbQueryMeansItsEntries(entries, noBindings);
    assert Matches(DcbQuery(entries, noBindings), eventType, tags) <==> Wanted(entries, noBindings, eventType, tags);
    if entry :| entry in uiEntries && entry.eventType == eventType && UiTags(entry) <= Elements(tags) {
      var k :| 0 <= k < |uiEntries| && uiEntries[k] == entry;
      assert EntryTags(entries[k], noBindings[0]) <= Elements(tags);
    }
    if i, j :| 0 <= i < |noBindings| && 0 <= j < |entries| && entries[j].eventType == eventType
               && EntryTags(entries[j], noBindings[i]) <= Elements(tags) {
      assert uiEntries[j] in uiEntries;
    }
  }
}

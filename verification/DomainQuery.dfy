/** Building the one query of a command or fold query out of its folds' event entries and
    the domain-id bindings, in the Rust SDK. */
module DomainQuery {
  import opened Prelude
  import opened EventLog
  import opened Grouping

  /** Which domain-id fields an event type is read by: `dynamicFields` take their value from
      the bindings, `staticFields` carry a fixed one. */
  datatype Entry = Entry(eventType: string, dynamicFields: seq<string>, staticFields: seq<(string, string)>)

  type Bindings = map<string, string>

  function Tag(field: string, value: string): string {
    field + ":" + value
  }

  /** The tags an event must carry to be read by `entry` under `binding`: one for every
      dynamic field that is bound, one for every static field. */
  function EntryTags(entry: Entry, binding: Bindings): set<string> {
    (set field | field in entry.dynamicFields && field in binding :: Tag(field, binding[field]))
    + (set pair | pair in entry.staticFields :: Tag(pair.0, pair.1))
  }

  /** The ungrouped meaning: some entry under some binding set asks for this event. */
  predicate Wanted(entries: seq<Entry>, bindings: seq<Bindings>, eventType: string, tags: seq<string>) {
    exists i, j :: 0 <= i < |bindings| && 0 <= j < |entries|
                   && entries[j].eventType == eventType
                   && EntryTags(entries[j], bindings[i]) <= Elements(tags)
  }

  /** `q` matches an event exactly when some entry under some binding set asks for it. */
  ghost predicate Denotes(q: Query, entries: seq<Entry>, bindings: seq<Bindings>) {
    forall eventType, tags :: Matches(q, eventType, tags) <==> Wanted(entries, bindings, eventType, tags)
  }

  // ---------- grouping, as a function ----------

  /** What the entries ask for under one binding set: a tag set and an event type each. */
  function EntryNeeds(entries: seq<Entry>, binding: Bindings): (r: seq<Need<set<string>>>)
    ensures |r| == |entries|
    ensures forall j :: 0 <= j < |r| ==> r[j] == Need(EntryTags(entries[j], binding), entries[j].eventType)
  {
    seq(|entries|, j requires 0 <= j < |entries| => Need(EntryTags(entries[j], binding), entries[j].eventType))
  }

  /** All that is asked for: binding sets outside, entries inside. */
  function AllNeeds(entries: seq<Entry>, bindings: seq<Bindings>): seq<Need<set<string>>> {
    if bindings == [] then []
    else AllNeeds(entries, bindings[..|bindings| - 1]) + EntryNeeds(entries, bindings[|bindings| - 1])
  }

  function ItemsOf(buckets: seq<Bucket<set<string>>>): (r: seq<QueryItem>)
    ensures |r| == |buckets| && forall i :: 0 <= i < |r| ==> r[i] == QueryItem(buckets[i].members, buckets[i].key)
  {
    seq(|buckets|, i requires 0 <= i < |buckets| => QueryItem(buckets[i].members, buckets[i].key))
  }

  /** No two items share a tag set, and none matches every type. */
  predicate WellFormedItems(items: seq<QueryItem>) {
    && (forall i :: 0 <= i < |items| ==> items[i].types != {})
    && forall i, j :: 0 <= i < j < |items| ==> items[i].tags != items[j].tags
  }

  /** Everything asked for comes from one entry under one binding set. */
  lemma {:induction false} AllNeedsAreTheCrossProduct(entries: seq<Entry>, bindings: seq<Bindings>, need: Need<set<string>>)
    ensures need in AllNeeds(entries, bindings) <==>
            exists i :: 0 <= i < |bindings| && need in EntryNeeds(entries, bindings[i])
  {
    if bindings != [] {
      var front, last := bindings[..|bindings| - 1], bindings[|bindings| - 1];
      AllNeedsAreTheCrossProduct(entries, front, need);
      assert need in AllNeeds(entries, bindings) <==> need in AllNeeds(entries, front) || need in EntryNeeds(entries, last);
      assert forall i :: 0 <= i < |front| ==> front[i] == bindings[i];
    }
  }

  function DcbQuery(entries: seq<Entry>, bindings: seq<Bindings>): Query {
    Items(ItemsOf(Group(AllNeeds(entries, bindings))))
  }

  /** An event matches the items of a grouping exactly when it meets something asked for. */
  lemma ItemsMeanTheNeeds(needs: seq<Need<set<string>>>, eventType: string, tags: seq<string>)
    ensures WellFormedItems(ItemsOf(Group(needs)))
    ensures Matches(Items(ItemsOf(Group(needs))), eventType, tags)
       <==> exists need :: need in needs && need.member == eventType && need.key <= Elements(tags)
  {
    var buckets := Group(needs);
    var items := ItemsOf(buckets);
    GroupIsExact(needs, Need({}, eventType));
    if i :| 0 <= i < |items| && ItemMatches(items[i], eventType, tags) {
      var need := Need(buckets[i].key, eventType);
      assert Grouping.Holds(buckets, need);
      GroupIsExact(needs, need);
    }
    if need :| need in needs && need.member == eventType && need.key <= Elements(tags) {
      GroupIsExact(needs, need);
      var i :| 0 <= i < |buckets| && buckets[i].key == need.key && need.member in buckets[i].members;
      assert ItemMatches(items[i], eventType, tags);
    }
  }

  /** The grouped query means what the ungrouped entries mean under the binding sets, its
      items have distinct tag sets, and none of them matches every type by accident. */
  lemma DcbQueryMeansItsEntries(entries: seq<Entry>, bindings: seq<Bindings>)
    ensures Denotes(DcbQuery(entries, bindings), entries, bindings)
    ensures WellFormedItems(DcbQuery(entries, bindings).items)
  {
    var needs := AllNeeds(entries, bindings);
    forall eventType, tags
      ensures Matches(DcbQuery(entries, bindings), eventType, tags) <==> Wanted(entries, bindings, eventType, tags)
    {
      ItemsMeanTheNeeds(needs, eventType, tags);
      if need :| need in needs && need.member == eventType && need.key <= Elements(tags) {
        AllNeedsAreTheCrossProduct(entries, bindings, need);
        var i :| 0 <= i < |bindings| && need in EntryNeeds(entries, bindings[i]);
        var j :| 0 <= j < |entries| && EntryNeeds(entries, bindings[i])[j] == need;
        assert EntryTags(entries[j], bindings[i]) <= Elements(tags);
      }
      if i, j :| 0 <= i < |bindings| && 0 <= j < |entries|
                 && entries[j].eventType == eventType
                 && EntryTags(entries[j], bindings[i]) <= Elements(tags) {
        var need := EntryNeeds(entries, bindings[i])[j];
        AllNeedsAreTheCrossProduct(entries, bindings, need);
      }
    }
    ItemsMeanTheNeeds(needs, "", []);
  }

  // ---------- the loops of build_dcb_query ----------

  /** The tag set of one entry, field by field. */
  method CollectTags(entry: Entry, binding: Bindings) returns (tags: set<string>)
    ensures tags == EntryTags(entry, binding)
  {
    tags := {};
    for f := 0 to |entry.dynamicFields|
      invariant tags == EntryTags(Entry(entry.eventType, entry.dynamicFields[..f], []), binding)
    {
      var field := entry.dynamicFields[f];
      assert entry.dynamicFields[..f + 1] == entry.dynamicFields[..f] + [field];
      if field in binding {
        tags := tags + {Tag(field, binding[field])};
      }
    }
    assert entry.dynamicFields[..|entry.dynamicFields|] == entry.dynamicFields;
    for f := 0 to |entry.staticFields|
      invariant tags == EntryTags(Entry(entry.eventType, entry.dynamicFields, entry.staticFields[..f]), binding)
    {
      var pair := entry.staticFields[f];
      assert entry.staticFields[..f + 1] == entry.staticFields[..f] + [pair];
      tags := tags + {Tag(pair.0, pair.1)};
    }
    assert entry.staticFields[..|entry.staticFields|] == entry.staticFields;
  }

  method BuildDcbQuery(entries: seq<Entry>, bindings: seq<Bindings>) returns (q: Query)
    ensures q == DcbQuery(entries, bindings)
    ensures Denotes(q, entries, bindings)
  {
    var order: seq<set<string>>, groups: map<set<string>, set<string>> := [], map[];
    for b := 0 to |bindings|
      invariant Represents(order, groups, AllNeeds(entries, bindings[..b]))
    {
      ghost var outer, here := AllNeeds(entries, bindings[..b]), EntryNeeds(entries, bindings[b]);
      assert outer + here[..0] == outer;
      for n := 0 to |entries|
        invariant Represents(order, groups, outer + here[..n])
      {
        var tags := CollectTags(entries[n], bindings[b]);
        assert outer + here[..n + 1] == (outer + here[..n]) + [here[n]];
        order, groups := AddMember(order, groups, tags, entries[n].eventType, outer + here[..n]);
      }
      assert here[..|entries|] == here && bindings[..b + 1][..b] == bindings[..b];
    }
    assert bindings[..|bindings|] == bindings;
    q := Items(ItemsOf(BucketsOf(order, groups)));
    DcbQueryMeansItsEntries(entries, bindings);
  }
}

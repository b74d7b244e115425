/** The TypeScript SDK's query builder and filter.  It keys its groups by the sorted tags
    joined with a unit separator and splits the key again to get the tags back. */
module JsBindings {
  import opened Prelude
  import opened EventLog
  import opened Grouping
  import opened DomainQuery
  import opened Folds

  const SEPARATOR: char := '\U{1F}'

  // ---------- sorting, joining, splitting ----------

  /** Lexicographic order. */
  predicate AtMost(a: string, b: string) {
    a == "" || (b != "" && (a[0] < b[0] || (a[0] == b[0] && AtMost(a[1..], b[1..]))))
  }

  function Insert(x: string, sorted: seq<string>): seq<string> {
    if sorted == [] || AtMost(x, sorted[0]) then [x] + sorted else [sorted[0]] + Insert(x, sorted[1..])
  }

  /** What `Array.prototype.sort` returns. */
  function Sort(s: seq<string>): seq<string> {
    if s == [] then [] else Insert(s[0], Sort(s[1..]))
  }

  predicate Sorted(s: seq<string>) {
    forall i, j :: 0 <= i < j < |s| ==> AtMost(s[i], s[j])
  }

  lemma {:induction false} AtMostIsTotal(a: string, b: string)
    ensures AtMost(a, b) || AtMost(b, a)
    ensures AtMost(a, b) && AtMost(b, a) ==> a == b
  {
    if a != "" && b != "" && a[0] == b[0] {
      AtMostIsTotal(a[1..], b[1..]);
      assert a == [a[0]] + a[1..] && b == [b[0]] + b[1..];
    }
  }

  lemma {:induction false} AtMostIsTransitive(a: string, b: string, c: string)
    requires AtMost(a, b) && AtMost(b, c)
    ensures AtMost(a, c)
  {
    if a != "" && a[0] == b[0] && b[0] == c[0] {
      AtMostIsTransitive(a[1..], b[1..], c[1..]);
    }
  }

  lemma ConsIsSorted(x: string, s: seq<string>)
    requires Sorted(s) && forall y :: y in s ==> AtMost(x, y)
    ensures Sorted([x] + s)
  {}

  lemma {:induction false} InsertCounts(x: string, s: seq<string>)
    ensures multiset(Insert(x, s)) == multiset(s) + multiset{x}
  {
    if s != [] && !AtMost(x, s[0]) {
      InsertCounts(x, s[1..]);
      assert s == [s[0]] + s[1..];
    }
  }

  lemma SortedFirst(s: seq<string>, y: string)
    requires Sorted(s) && y in s
    ensures AtMost(s[0], y)
  {
    var i :| 0 <= i < |s| && s[i] == y;
    if i == 0 {
      AtMostIsTotal(y, y);
    }
  }

  lemma {:induction false} InsertKeepsOrder(x: string, s: seq<string>)
    requires Sorted(s)
    ensures Sorted(Insert(x, s))
  {
    if s != [] && !AtMost(x, s[0]) {
      InsertKeepsOrder(x, s[1..]);
      InsertCounts(x, s[1..]);
      AtMostIsTotal(x, s[0]);
      forall y | y in Insert(x, s[1..]) ensures AtMost(s[0], y) {
        assert y in multiset(Insert(x, s[1..]));
        if y != x {
          SortedFirst(s, y);
        }
      }
      ConsIsSorted(s[0], Insert(x, s[1..]));
    } else if s != [] {
      forall y | y in s ensures AtMost(x, y) {
        SortedFirst(s, y);
        AtMostIsTransitive(x, s[0], y);
      }
      ConsIsSorted(x, s);
    }
  }

  lemma RestCounts(s: seq<string>)
    requires s != []
    ensures multiset(s[1..]) == multiset(s) - multiset{s[0]}
  {
    assert s == [s[0]] + s[1..];
  }

  lemma {:induction false} SortSorts(s: seq<string>)
    ensures Sorted(Sort(s)) && multiset(Sort(s)) == multiset(s)
  {
    if s != [] {
      var first, rest := s[0], Sort(s[1..]);
      SortSorts(s[1..]);
      InsertKeepsOrder(first, rest);
      InsertCounts(first, rest);
      RestCounts(s);
      assert Sort(s) == Insert(first, rest);
    }
  }

  lemma SortedHeadsAgree(s: seq<string>, t: seq<string>)
    requires Sorted(s) && Sorted(t) && multiset(s) == multiset(t) && s != [] && t != []
    ensures s[0] == t[0]
  {
    assert s[0] in multiset(s) && t[0] in multiset(t);
    SortedFirst(t, s[0]);
    SortedFirst(s, t[0]);
    AtMostIsTotal(s[0], t[0]);
  }

  /** A multiset of strings has one sorted sequence. */
  lemma {:induction false} SortedIsUnique(s: seq<string>, t: seq<string>)
    requires Sorted(s) && Sorted(t) && multiset(s) == multiset(t)
    ensures s == t
  {
    assert |s| == |multiset(s)| == |multiset(t)| == |t|;
    if s != [] {
      SortedHeadsAgree(s, t);
      RestCounts(s);
      RestCounts(t);
      SortedIsUnique(s[1..], t[1..]);
      assert s == [s[0]] + s[1..] && t == [t[0]] + t[1..];
    }
  }

  function Join(tags: seq<string>): string {
    if tags == [] then "" else if |tags| == 1 then tags[0] else tags[0] + [SEPARATOR] + Join(tags[1..])
  }

  function Split(key: string): (r: seq<string>)
    ensures r != []
  {
    if key == "" then [""]
    else
      var rest := Split(key[1..]);
      if key[0] == SEPARATOR then [""] + rest else [[key[0]] + rest[0]] + rest[1..]
  }

  predicate Clean(tags: seq<string>) {
    forall tag :: tag in tags ==> SEPARATOR !in tag
  }

  lemma {:induction false} PiecesAreClean(key: string)
    ensures Clean(Split(key))
  {
    if key != "" {
      PiecesAreClean(key[1..]);
    }
  }

  lemma {:induction false} SplitOne(tag: string)
    requires SEPARATOR !in tag
    ensures Split(tag) == [tag]
  {
    if tag != "" {
      SplitOne(tag[1..]);
      assert tag == [tag[0]] + tag[1..];
    }
  }

  lemma {:induction false} SplitFirst(tag: string, rest: string)
    requires SEPARATOR !in tag
    ensures Split(tag + [SEPARATOR] + rest) == [tag] + Split(rest)
  {
    var key := tag + [SEPARATOR] + rest;
    if tag == "" {
      assert key[1..] == rest;
    } else {
      SplitFirst(tag[1..], rest);
      assert key[1..] == tag[1..] + [SEPARATOR] + rest;
      assert tag == [tag[0]] + tag[1..];
    }
  }

  lemma {:induction false} SplitUndoesJoin(tags: seq<string>)
    requires tags != [] && Clean(tags)
    ensures Split(Join(tags)) == tags
  {
    if |tags| == 1 {
      SplitOne(tags[0]);
    } else {
      SplitUndoesJoin(tags[1..]);
      SplitFirst(tags[0], Join(tags[1..]));
    }
  }

  /** The key gives the tags back exactly when no tag contains the separator. */
  lemma KeyRoundTripsExactly(tags: seq<string>)
    requires tags != []
    ensures Split(Join(tags)) == tags <==> Clean(tags)
  {
    if Clean(tags) {
      SplitUndoesJoin(tags);
    } else {
      PiecesAreClean(Join(tags));
    }
  }

  // ---------- tags of one entry ----------

  function DynamicTags(fields: seq<string>, binding: Bindings): seq<string> {
    if fields == [] then []
    else
      DynamicTags(fields[..|fields| - 1], binding)
      + (var field := fields[|fields| - 1]; if field in binding then [Tag(field, binding[field])] else [])
  }

  function StaticTags(pairs: seq<(string, string)>): (r: seq<string>)
    ensures |r| == |pairs| && forall i :: 0 <= i < |r| ==> r[i] == Tag(pairs[i].0, pairs[i].1)
  {
    seq(|pairs|, i requires 0 <= i < |pairs| => Tag(pairs[i].0, pairs[i].1))
  }

  /** The tags in the order they are pushed, repetitions included. */
  function JsTags(entry: Entry, binding: Bindings): seq<string> {
    DynamicTags(entry.dynamicFields, binding) + StaticTags(entry.staticFields)
  }

  lemma {:induction false} DynamicTagsElements(fields: seq<string>, binding: Bindings, tag: string)
    ensures tag in DynamicTags(fields, binding)
       <==> exists field :: field in fields && field in binding && tag == Tag(field, binding[field])
  {
    if fields != [] {
      var front := fields[..|fields| - 1];
      DynamicTagsElements(front, binding, tag);
      assert fields == front + [fields[|fields| - 1]];
    }
  }

  /** The pushed tags are the tags of the Rust builder's set. */
  lemma JsTagsAreTheEntryTags(entry: Entry, binding: Bindings)
    ensures Elements(JsTags(entry, binding)) == EntryTags(entry, binding)
    ensures "" !in JsTags(entry, binding)
  {
    forall tag ensures tag in JsTags(entry, binding) <==> tag in EntryTags(entry, binding) {
      DynamicTagsElements(entry.dynamicFields, binding, tag);
      if tag in StaticTags(entry.staticFields) {
        var i :| 0 <= i < |entry.staticFields| && StaticTags(entry.staticFields)[i] == tag;
        assert entry.staticFields[i] in entry.staticFields;
      }
      if pair :| pair in entry.staticFields && tag == Tag(pair.0, pair.1) {
        var i :| 0 <= i < |entry.staticFields| && entry.staticFields[i] == pair;
        assert StaticTags(entry.staticFields)[i] == tag;
      }
    }
    DynamicTagsElements(entry.dynamicFields, binding, "");
  }

  // ---------- the filters handed to the runtime ----------

  datatype EventFilter = EventFilter(types: set<string>, tags: seq<string>)

  datatype QueryError = InvalidName | DuplicateTag

  /** The runtime accepts a filter whose names are non-empty and whose tags are distinct. */
  function ToItem(filter: EventFilter): Result<QueryItem, QueryError> {
    if "" in filter.types || "" in filter.tags then Err(InvalidName)
    else if !Distinct(filter.tags) then Err(DuplicateTag)
    else Ok(QueryItem(filter.types, Elements(filter.tags)))
  }

  function ToItems(filters: seq<EventFilter>): Result<seq<QueryItem>, QueryError> {
    if filters == [] then Ok([])
    else
      match ToItem(filters[0])
      case Err(error) => Err(error)
      case Ok(item) =>
        match ToItems(filters[1..])
        case Err(error) => Err(error)
        case Ok(items) => Ok([item] + items)
  }

  lemma {:induction false} ToItemsIsPointwise(filters: seq<EventFilter>)
    ensures ToItems(filters).Ok? <==> forall i :: 0 <= i < |filters| ==> ToItem(filters[i]).Ok?
    ensures ToItems(filters).Ok? ==>
              |ToItems(filters).value| == |filters|
              && forall i :: 0 <= i < |filters| ==> Ok(ToItems(filters).value[i]) == ToItem(filters[i])
  {
    if filters != [] {
      ToItemsIsPointwise(filters[1..]);
      assert forall i :: 0 < i < |filters| ==> filters[i] == filters[1..][i - 1];
    }
  }

  function TagsOfKey(key: string): seq<string> {
    if key == "" then [] else Split(key)
  }

  function KeyOf(entry: Entry, binding: Bindings): string {
    Join(Sort(JsTags(entry, binding)))
  }

  function JsEntryNeeds(entries: seq<Entry>, binding: Bindings): (r: seq<Need<string>>)
    ensures |r| == |entries|
    ensures forall j :: 0 <= j < |r| ==> r[j] == Need(KeyOf(entries[j], binding), entries[j].eventType)
  {
    seq(|entries|, j requires 0 <= j < |entries| => Need(KeyOf(entries[j], binding), entries[j].eventType))
  }

  function JsNeeds(entries: seq<Entry>, bindings: seq<Bindings>): seq<Need<string>> {
    if bindings == [] then []
    else JsNeeds(entries, bindings[..|bindings| - 1]) + JsEntryNeeds(entries, bindings[|bindings| - 1])
  }

  function FiltersOf(buckets: seq<Bucket<string>>): (r: seq<EventFilter>)
    ensures |r| == |buckets|
    ensures forall i :: 0 <= i < |r| ==> r[i] == EventFilter(buckets[i].members, TagsOfKey(buckets[i].key))
  {
    seq(|buckets|, i requires 0 <= i < |buckets| => EventFilter(buckets[i].members, TagsOfKey(buckets[i].key)))
  }

  method CollectJsTags(entry: Entry, binding: Bindings) returns (tags: seq<string>)
    ensures tags == JsTags(entry, binding)
  {
    tags := [];
    for f := 0 to |entry.dynamicFields|
      invariant tags == DynamicTags(entry.dynamicFields[..f], binding)
    {
      var field := entry.dynamicFields[f];
      assert entry.dynamicFields[..f + 1][..f] == entry.dynamicFields[..f];
      if field in binding {
        tags := tags + [Tag(field, binding[field])];
      }
    }
    assert entry.dynamicFields[..|entry.dynamicFields|] == entry.dynamicFields;
    for f := 0 to |entry.staticFields|
      invariant tags == DynamicTags(entry.dynamicFields, binding) + StaticTags(entry.staticFields)[..f]
    {
      tags := tags + [Tag(entry.staticFields[f].0, entry.staticFields[f].1)];
    }
    assert StaticTags(entry.staticFields)[..|entry.staticFields|] == StaticTags(entry.staticFields);
  }

  lemma OneMoreNeed(before: seq<Need<string>>, here: seq<Need<string>>, n: nat)
    requires n < |here|
    ensures before + here[..n + 1] == (before + here[..n]) + [here[n]]
  {}

  method AddEntry(
      order: seq<string>, grouped: map<string, set<string>>, entry: Entry, binding: Bindings,
      ghost before: seq<Need<string>>)
    returns (order': seq<string>, grouped': map<string, set<string>>)
    requires Represents(order, grouped, before)
    ensures Represents(order', grouped', before + [Need(KeyOf(entry, binding), entry.eventType)])
  {
    var tags := CollectJsTags(entry, binding);
    order', grouped' := AddMember(order, grouped, Join(Sort(tags)), entry.eventType, before);
  }

  /** The inner loop: every entry under one binding set. */
  method AddEntries(
      order: seq<string>, grouped: map<string, set<string>>, entries: seq<Entry>, binding: Bindings,
      ghost before: seq<Need<string>>)
    returns (order': seq<string>, grouped': map<string, set<string>>)
    requires Represents(order, grouped, before)
    ensures Represents(order', grouped', before + JsEntryNeeds(entries, binding))
  {
    order', grouped' := order, grouped;
    ghost var here := JsEntryNeeds(entries, binding);
    assert before + here[..0] == before;
    for n := 0 to |entries|
      invariant Represents(order', grouped', before + here[..n])
    {
      order', grouped' := AddEntry(order', grouped', entries[n], binding, before + here[..n]);
      OneMoreNeed(before, here, n);
    }
    assert here[..|entries|] == here;
  }

  method BuildDcbQueryJs(entries: seq<Entry>, bindingSets: seq<Bindings>) returns (filters: seq<EventFilter>)
    ensures filters == FiltersOf(Group(JsNeeds(entries, bindingSets)))
  {
    var order: seq<string>, grouped: map<string, set<string>> := [], map[];
    for b := 0 to |bindingSets|
      invariant Represents(order, grouped, JsNeeds(entries, bindingSets[..b]))
    {
      order, grouped := AddEntries(order, grouped, entries, bindingSets[b], JsNeeds(entries, bindingSets[..b]));
      assert bindingSets[..b + 1][..b] == bindingSets[..b];
    }
    assert bindingSets[..|bindingSets|] == bindingSets;
    filters := FiltersOf(BucketsOf(order, grouped));
  }

  // ---------- agreement with the Rust builder ----------

  /** No tag made from the entries and bindings contains the separator. */
  predicate NoSeparator(entries: seq<Entry>, bindings: seq<Bindings>) {
    forall i, j :: 0 <= i < |bindings| && 0 <= j < |entries| ==> Clean(JsTags(entries[j], bindings[i]))
  }

  /** No entry produces a tag twice under a binding set. */
  predicate NoDuplicateTag(entries: seq<Entry>, bindings: seq<Bindings>) {
    forall i, j :: 0 <= i < |bindings| && 0 <= j < |entries| ==> Distinct(JsTags(entries[j], bindings[i]))
  }

  lemma DistinctIsMultisetOfSet(s: seq<string>)
    ensures Distinct(s) <==> forall x :: multiset(s)[x] <= 1
  {
    if !Distinct(s) {
      var i, j :| 0 <= i < j < |s| && s[i] == s[j];
      assert s == s[..j] + [s[j]] + s[j + 1..];
      assert s[i] in s[..j];
      assert multiset(s)[s[i]] >= 2;
    } else {
      forall x ensures multiset(s)[x] <= 1 {
        CountsOnce(s, x);
      }
    }
  }

  lemma {:induction false} CountsOnce(s: seq<string>, x: string)
    requires Distinct(s)
    ensures multiset(s)[x] <= 1
  {
    if s != [] {
      CountsOnce(s[1..], x);
      assert s == [s[0]] + s[1..];
      if x == s[0] {
        assert x !in s[1..];
      }
    }
  }

  /** From the key of a clean entry one reads off its tags: the same ones, sorted. */
  lemma TagsOfKeyOf(entry: Entry, binding: Bindings)
    requires Clean(JsTags(entry, binding))
    ensures TagsOfKey(KeyOf(entry, binding)) == Sort(JsTags(entry, binding))
    ensures Elements(TagsOfKey(KeyOf(entry, binding))) == EntryTags(entry, binding)
    ensures "" !in TagsOfKey(KeyOf(entry, binding))
    ensures Distinct(TagsOfKey(KeyOf(entry, binding))) <==> Distinct(JsTags(entry, binding))
  {
    var tags := JsTags(entry, binding);
    var sorted := Sort(tags);
    SortSorts(tags);
    JsTagsAreTheEntryTags(entry, binding);
    forall tag ensures tag in sorted <==> tag in tags {
      assert tag in sorted <==> tag in multiset(sorted);
    }
    if sorted != [] {
      assert Join(sorted) != "" by {
        assert sorted[0] != "";
      }
      SplitUndoesJoin(sorted);
    }
    DistinctIsMultisetOfSet(sorted);
    DistinctIsMultisetOfSet(tags);
  }

  /** Two clean, duplicate-free tag lists with the same elements get the same key. */
  lemma SameTagsSameKey(e1: Entry, b1: Bindings, e2: Entry, b2: Bindings)
    requires Distinct(JsTags(e1, b1)) && Distinct(JsTags(e2, b2))
    requires EntryTags(e1, b1) == EntryTags(e2, b2)
    ensures KeyOf(e1, b1) == KeyOf(e2, b2)
  {
    var s, t := JsTags(e1, b1), JsTags(e2, b2);
    JsTagsAreTheEntryTags(e1, b1);
    JsTagsAreTheEntryTags(e2, b2);
    SortSorts(s);
    SortSorts(t);
    DistinctIsMultisetOfSet(s);
    DistinctIsMultisetOfSet(t);
    assert multiset(s) == multiset(t) by {
      forall x ensures multiset(s)[x] == multiset(t)[x] {
        assert x in s <==> x in Elements(s);
        assert x in t <==> x in Elements(t);
        assert x in s <==> x in multiset(s);
        assert x in t <==> x in multiset(t);
      }
    }
    SortedIsUnique(Sort(s), Sort(t));
  }

  lemma {:induction false} JsNeedsAreTheCrossProduct(
      entries: seq<Entry>, bindings: seq<Bindings>, k: nat) returns (i: nat, j: nat)
    requires k < |JsNeeds(entries, bindings)|
    ensures |AllNeeds(entries, bindings)| == |JsNeeds(entries, bindings)|
    ensures i < |bindings| && j < |entries|
    ensures JsNeeds(entries, bindings)[k] == Need(KeyOf(entries[j], bindings[i]), entries[j].eventType)
    ensures AllNeeds(entries, bindings)[k] == Need(EntryTags(entries[j], bindings[i]), entries[j].eventType)
  {
    var front := bindings[..|bindings| - 1];
    SameNumberOfNeeds(entries, front);
    if k < |JsNeeds(entries, front)| {
      i, j := JsNeedsAreTheCrossProduct(entries, front, k);
    } else {
      i, j := |bindings| - 1, k - |JsNeeds(entries, front)|;
    }
  }

  lemma {:induction false} SameNumberOfNeeds(entries: seq<Entry>, bindings: seq<Bindings>)
    ensures |AllNeeds(entries, bindings)| == |JsNeeds(entries, bindings)|
  {
    if bindings != [] {
      SameNumberOfNeeds(entries, bindings[..|bindings| - 1]);
    }
  }

  function TagSetOfKey(key: string): set<string> {
    Elements(TagsOfKey(key))
  }

  /** When no tag contains the separator or is repeated, the JS groups are the Rust groups, in
      the same order, under keys that name the same tag sets. */
  lemma JsGroupsAreTheRustGroups(entries: seq<Entry>, bindings: seq<Bindings>)
    requires NoSeparator(entries, bindings) && NoDuplicateTag(entries, bindings)
    ensures RenameBuckets(Group(JsNeeds(entries, bindings)), TagSetOfKey) == Group(AllNeeds(entries, bindings))
  {
    var needs := JsNeeds(entries, bindings);
    SameNumberOfNeeds(entries, bindings);
    forall k | 0 <= k < |needs|
      ensures AllNeeds(entries, bindings)[k] == Need(TagSetOfKey(needs[k].key), needs[k].member)
    {
      var i, j := JsNeedsAreTheCrossProduct(entries, bindings, k);
      TagsOfKeyOf(entries[j], bindings[i]);
    }
    assert RenameNeeds(needs, TagSetOfKey) == AllNeeds(entries, bindings);
    forall k, l | 0 <= k < |needs| && 0 <= l < |needs| && TagSetOfKey(needs[k].key) == TagSetOfKey(needs[l].key)
      ensures needs[k].key == needs[l].key
    {
      var i, j := JsNeedsAreTheCrossProduct(entries, bindings, k);
      var m, n := JsNeedsAreTheCrossProduct(entries, bindings, l);
      SameTagsSameKey(entries[j], bindings[i], entries[n], bindings[m]);
    }
    GroupFollowsRenaming(needs, TagSetOfKey);
  }

  /** Every group key comes from an entry under a binding set, and every such pair has a group. */
  lemma KeysOfGroups(entries: seq<Entry>, bindings: seq<Bindings>, b: nat) returns (i: nat, j: nat)
    requires b < |Group(JsNeeds(entries, bindings))|
    ensures i < |bindings| && j < |entries| && Group(JsNeeds(entries, bindings))[b].key == KeyOf(entries[j], bindings[i])
  {
    var needs := JsNeeds(entries, bindings);
    var bucket := Group(needs)[b];
    GroupIsExact(needs, Need(bucket.key, ""));
    var member :| member in bucket.members;
    GroupIsExact(needs, Need(bucket.key, member));
    var k :| 0 <= k < |needs| && needs[k] == Need(bucket.key, member);
    i, j := JsNeedsAreTheCrossProduct(entries, bindings, k);
  }

  lemma {:induction false} PairHasGroup(entries: seq<Entry>, bindings: seq<Bindings>, i: nat, j: nat) returns (b: nat)
    requires i < |bindings| && j < |entries|
    ensures b < |Group(JsNeeds(entries, bindings))|
    ensures Group(JsNeeds(entries, bindings))[b].key == KeyOf(entries[j], bindings[i])
    ensures entries[j].eventType in Group(JsNeeds(entries, bindings))[b].members
  {
    var need := Need(KeyOf(entries[j], bindings[i]), entries[j].eventType);
    JsNeedsContains(entries, bindings, i, j);
    GroupIsExact(JsNeeds(entries, bindings), need);
    b :| 0 <= b < |Group(JsNeeds(entries, bindings))| && Group(JsNeeds(entries, bindings))[b].key == need.key
         && need.member in Group(JsNeeds(entries, bindings))[b].members;
  }

  lemma {:induction false} JsNeedsContains(entries: seq<Entry>, bindings: seq<Bindings>, i: nat, j: nat)
    requires i < |bindings| && j < |entries|
    ensures Need(KeyOf(entries[j], bindings[i]), entries[j].eventType) in JsNeeds(entries, bindings)
  {
    if i < |bindings| - 1 {
      JsNeedsContains(entries, bindings[..|bindings| - 1], i, j);
    } else {
      assert JsEntryNeeds(entries, bindings[i])[j] == Need(KeyOf(entries[j], bindings[i]), entries[j].eventType);
    }
  }

  lemma MembersAreTypes(entries: seq<Entry>, bindings: seq<Bindings>, b: nat, member: string)
    requires b < |Group(JsNeeds(entries, bindings))| && member in Group(JsNeeds(entries, bindings))[b].members
    ensures exists entry :: entry in entries && entry.eventType == member
  {
    var needs := JsNeeds(entries, bindings);
    var need := Need(Group(needs)[b].key, member);
    assert Grouping.Holds(Group(needs), need);
    GroupIsExact(needs, need);
    var k :| 0 <= k < |needs| && needs[k] == need;
    var i, j := JsNeedsAreTheCrossProduct(entries, bindings, k);
    assert entries[j] in entries;
  }

  /** No entry that is asked for at all has an empty event type. */
  predicate NamedTypes(entries: seq<Entry>, bindings: seq<Bindings>) {
    bindings != [] ==> forall entry :: entry in entries ==> entry.eventType != ""
  }

  /** What the runtime makes of the filters the JS builder hands to it. */
  function JsQuery(entries: seq<Entry>, bindings: seq<Bindings>): Result<seq<QueryItem>, QueryError> {
    ToItems(FiltersOf(Group(JsNeeds(entries, bindings))))
  }

  /** The filter that the pair ends up in is one the runtime accepts. */
  predicate PairAccepted(entry: Entry, binding: Bindings) {
    entry.eventType != "" && "" !in TagsOfKey(KeyOf(entry, binding)) && Distinct(TagsOfKey(KeyOf(entry, binding)))
  }

  lemma RejectedPair(entries: seq<Entry>, bindings: seq<Bindings>, i: nat, j: nat)
    requires i < |bindings| && j < |entries| && !PairAccepted(entries[j], bindings[i])
    ensures JsQuery(entries, bindings).Err?
  {
    var b := PairHasGroup(entries, bindings, i, j);
    var filters := FiltersOf(Group(JsNeeds(entries, bindings)));
    assert ToItem(filters[b]).Err?;
    ToItemsIsPointwise(filters);
  }

  lemma AcceptedFilter(entries: seq<Entry>, bindings: seq<Bindings>, b: nat)
    requires forall i, j :: 0 <= i < |bindings| && 0 <= j < |entries| ==> PairAccepted(entries[j], bindings[i])
    requires b < |Group(JsNeeds(entries, bindings))|
    ensures ToItem(FiltersOf(Group(JsNeeds(entries, bindings)))[b]).Ok?
  {
    var i, j := KeysOfGroups(entries, bindings, b);
    assert PairAccepted(entries[j], bindings[i]);
    if "" in Group(JsNeeds(entries, bindings))[b].members {
      MembersAreTypes(entries, bindings, b, "");
    }
  }

  /** The runtime accepts the JS query exactly when it accepts the filter of every pair. */
  lemma AcceptedExactly(entries: seq<Entry>, bindings: seq<Bindings>)
    ensures JsQuery(entries, bindings).Ok?
       <==> forall i, j :: 0 <= i < |bindings| && 0 <= j < |entries| ==> PairAccepted(entries[j], bindings[i])
  {
    if i: nat, j: nat :| i < |bindings| && j < |entries| && !PairAccepted(entries[j], bindings[i]) {
      RejectedPair(entries, bindings, i, j);
    } else {
      var filters := FiltersOf(Group(JsNeeds(entries, bindings)));
      forall b | 0 <= b < |filters| ensures ToItem(filters[b]).Ok? {
        AcceptedFilter(entries, bindings, b);
      }
      ToItemsIsPointwise(filters);
    }
  }

  lemma CleanPairAccepted(entry: Entry, binding: Bindings)
    requires Clean(JsTags(entry, binding))
    ensures PairAccepted(entry, binding) <==> entry.eventType != "" && Distinct(JsTags(entry, binding))
  {
    TagsOfKeyOf(entry, binding);
  }

  /** For separator-free tags the runtime accepts the JS query exactly when no entry yields a tag
      twice and no type is empty, and then it is the query the Rust builder makes, item for item. */
  lemma CleanQueryIsTheRustQuery(entries: seq<Entry>, bindings: seq<Bindings>)
    requires NoSeparator(entries, bindings)
    ensures JsQuery(entries, bindings).Ok? <==> NoDuplicateTag(entries, bindings) && NamedTypes(entries, bindings)
    ensures JsQuery(entries, bindings).Ok? ==> Items(JsQuery(entries, bindings).value) == DcbQuery(entries, bindings)
  {
    AcceptedExactly(entries, bindings);
    forall i, j | 0 <= i < |bindings| && 0 <= j < |entries|
      ensures PairAccepted(entries[j], bindings[i])
         <==> entries[j].eventType != "" && Distinct(JsTags(entries[j], bindings[i]))
    {
      CleanPairAccepted(entries[j], bindings[i]);
    }
    if JsQuery(entries, bindings).Ok? {
      assert NamedTypes(entries, bindings) by {
        assert forall entry :: entry in entries && bindings != [] ==> PairAccepted(entry, bindings[0]);
      }
      JsGroupsAreTheRustGroups(entries, bindings);
      ToItemsIsPointwise(FiltersOf(Group(JsNeeds(entries, bindings))));
      assert JsQuery(entries, bindings).value == ItemsOf(Group(AllNeeds(entries, bindings)));
    }
  }

  /** The items of an accepted JS query carry only separator-free tags: each was cut from a key. */
  lemma AcceptedTagsAreClean(entries: seq<Entry>, bindings: seq<Bindings>, k: nat, tag: string)
    requires JsQuery(entries, bindings).Ok?
    requires k < |JsQuery(entries, bindings).value| && tag in JsQuery(entries, bindings).value[k].tags
    ensures SEPARATOR !in tag
  {
    var buckets := Group(JsNeeds(entries, bindings));
    ToItemsIsPointwise(FiltersOf(buckets));
    assert tag in TagsOfKey(buckets[k].key);
    PiecesAreClean(buckets[k].key);
  }

  /** Every tag of an entry under a binding set is in some item of the Rust query. */
  lemma EntryTagIsInAnItem(entries: seq<Entry>, bindings: seq<Bindings>, i: nat, j: nat, tag: string) returns (k: nat)
    requires i < |bindings| && j < |entries| && tag in EntryTags(entries[j], bindings[i])
    ensures k < |DcbQuery(entries, bindings).items| && tag in DcbQuery(entries, bindings).items[k].tags
  {
    var need := EntryNeeds(entries, bindings[i])[j];
    AllNeedsAreTheCrossProduct(entries, bindings, need);
    GroupIsExact(AllNeeds(entries, bindings), need);
    k :| 0 <= k < |Group(AllNeeds(entries, bindings))| && Group(AllNeeds(entries, bindings))[k].key == need.key;
  }

  /** The TypeScript query is accepted and is the Rust query, item for item, exactly when no tag
      contains the separator, no entry yields a tag twice, and no type asked for is empty. */
  lemma JsQueryIsTheRustQueryExactly(entries: seq<Entry>, bindings: seq<Bindings>)
    ensures JsQuery(entries, bindings).Ok? && Items(JsQuery(entries, bindings).value) == DcbQuery(entries, bindings)
       <==> NoSeparator(entries, bindings) && NoDuplicateTag(entries, bindings) && NamedTypes(entries, bindings)
  {
    if NoSeparator(entries, bindings) {
      CleanQueryIsTheRustQuery(entries, bindings);
    } else if JsQuery(entries, bindings).Ok? {
      var i: nat, j: nat :| i < |bindings| && j < |entries| && !Clean(JsTags(entries[j], bindings[i]));
      var tag :| tag in JsTags(entries[j], bindings[i]) && SEPARATOR in tag;
      JsTagsAreTheEntryTags(entries[j], bindings[i]);
      assert tag in Elements(JsTags(entries[j], bindings[i]));
      var k := EntryTagIsInAnItem(entries, bindings, i, j, tag);
      if Items(JsQuery(entries, bindings).value) == DcbQuery(entries, bindings) {
        AcceptedTagsAreClean(entries, bindings, k, tag);
      }
    }
  }

  // ---------- what an accepted query matches ----------

  /** Some entry under some binding set asks, in the Rust builder, for no tag outside `within`. */
  predicate AsksWithin(entries: seq<Entry>, bindings: seq<Bindings>, eventType: string, within: set<string>) {
    exists i, j :: 0 <= i < |bindings| && 0 <= j < |entries|
                   && entries[j].eventType == eventType && EntryTags(entries[j], bindings[i]) <= within
  }

  /** The same with the tags that are read off the pair's key. */
  predicate KeyAsksWithin(entries: seq<Entry>, bindings: seq<Bindings>, eventType: string, within: set<string>) {
    exists i, j :: 0 <= i < |bindings| && 0 <= j < |entries|
                   && entries[j].eventType == eventType && TagSetOfKey(KeyOf(entries[j], bindings[i])) <= within
  }

  lemma AcceptedItems(entries: seq<Entry>, bindings: seq<Bindings>)
    requires JsQuery(entries, bindings).Ok?
    ensures
      var buckets, items := Group(JsNeeds(entries, bindings)), JsQuery(entries, bindings).value;
      |items| == |buckets|
      && forall k :: 0 <= k < |items| ==> items[k] == QueryItem(buckets[k].members, TagSetOfKey(buckets[k].key))
  {
    ToItemsIsPointwise(FiltersOf(Group(JsNeeds(entries, bindings))));
  }

  /** A matching item goes back to a pair whose key asks for no more than the event carries. */
  lemma MatchHasPair(entries: seq<Entry>, bindings: seq<Bindings>, k: nat, eventType: string, tags: seq<string>)
    requires k < |Group(JsNeeds(entries, bindings))|
    requires
      var bucket := Group(JsNeeds(entries, bindings))[k];
      ItemMatches(QueryItem(bucket.members, TagSetOfKey(bucket.key)), eventType, tags)
    ensures KeyAsksWithin(entries, bindings, eventType, Elements(tags))
  {
    var needs := JsNeeds(entries, bindings);
    var bucket := Group(needs)[k];
    var need := Need(bucket.key, eventType);
    GroupIsExact(needs, need);
    assert eventType in bucket.members;
    assert Grouping.Holds(Group(needs), need);
    var n :| 0 <= n < |needs| && needs[n] == need;
    var i, j := JsNeedsAreTheCrossProduct(entries, bindings, n);
  }

  /** An accepted query matches an event exactly when the key of some pair of an entry of its type
      and a binding set asks for no tag that the event does not carry. */
  lemma AcceptedQueryMatchesExactly(entries: seq<Entry>, bindings: seq<Bindings>, eventType: string, tags: seq<string>)
    requires JsQuery(entries, bindings).Ok?
    ensures Matches(Items(JsQuery(entries, bindings).value), eventType, tags)
       <==> KeyAsksWithin(entries, bindings, eventType, Elements(tags))
  {
    var items := JsQuery(entries, bindings).value;
    AcceptedItems(entries, bindings);
    if k :| 0 <= k < |items| && ItemMatches(items[k], eventType, tags) {
      MatchHasPair(entries, bindings, k, eventType, tags);
    }
    if i, j :| 0 <= i < |bindings| && 0 <= j < |entries| && entries[j].eventType == eventType
               && TagSetOfKey(KeyOf(entries[j], bindings[i])) <= Elements(tags) {
      var k := PairHasGroup(entries, bindings, i, j);
      assert ItemMatches(items[k], eventType, tags);
    }
  }

  /** Some key of the pair's type asks for no more than the pair's tags, and some pair of the type
      for no more than its key. */
  predicate PairAgrees(entries: seq<Entry>, bindings: seq<Bindings>, i: nat, j: nat)
    requires i < |bindings| && j < |entries|
  {
    && KeyAsksWithin(entries, bindings, entries[j].eventType, EntryTags(entries[j], bindings[i]))
    && AsksWithin(entries, bindings, entries[j].eventType, TagSetOfKey(KeyOf(entries[j], bindings[i])))
  }

  predicate KeysAgree(entries: seq<Entry>, bindings: seq<Bindings>) {
    forall i, j :: 0 <= i < |bindings| && 0 <= j < |entries| ==> PairAgrees(entries, bindings, i, j)
  }

  lemma WantedIsAsked(entries: seq<Entry>, bindings: seq<Bindings>, eventType: string, tags: seq<string>)
    ensures Wanted(entries, bindings, eventType, tags) <==> AsksWithin(entries, bindings, eventType, Elements(tags))
  {}

  lemma WiderAsks(entries: seq<Entry>, bindings: seq<Bindings>, eventType: string, within: set<string>, wider: set<string>)
    requires within <= wider
    ensures AsksWithin(entries, bindings, eventType, within) ==> AsksWithin(entries, bindings, eventType, wider)
    ensures KeyAsksWithin(entries, bindings, eventType, within) ==> KeyAsksWithin(entries, bindings, eventType, wider)
  {}

  lemma AgreeingKeysDenote(entries: seq<Entry>, bindings: seq<Bindings>, eventType: string, within: set<string>)
    requires KeysAgree(entries, bindings)
    ensures KeyAsksWithin(entries, bindings, eventType, within) <==> AsksWithin(entries, bindings, eventType, within)
  {
    if KeyAsksWithin(entries, bindings, eventType, within) {
      var i, j :| 0 <= i < |bindings| && 0 <= j < |entries| && entries[j].eventType == eventType
                  && TagSetOfKey(KeyOf(entries[j], bindings[i])) <= within;
      assert PairAgrees(entries, bindings, i, j);
      WiderAsks(entries, bindings, eventType, TagSetOfKey(KeyOf(entries[j], bindings[i])), within);
    }
    if AsksWithin(entries, bindings, eventType, within) {
      var i, j :| 0 <= i < |bindings| && 0 <= j < |entries| && entries[j].eventType == eventType
                  && EntryTags(entries[j], bindings[i]) <= within;
      assert PairAgrees(entries, bindings, i, j);
      WiderAsks(entries, bindings, eventType, EntryTags(entries[j], bindings[i]), within);
    }
  }

  lemma DenotingKeysAgree(entries: seq<Entry>, bindings: seq<Bindings>, i: nat, j: nat)
    requires JsQuery(entries, bindings).Ok? && Denotes(Items(JsQuery(entries, bindings).value), entries, bindings)
    requires i < |bindings| && j < |entries|
    ensures PairAgrees(entries, bindings, i, j)
  {
    var eventType := entries[j].eventType;
    var tags := SequenceOf(EntryTags(entries[j], bindings[i]));
    var split := SequenceOf(TagSetOfKey(KeyOf(entries[j], bindings[i])));
    AcceptedQueryMatchesExactly(entries, bindings, eventType, tags);
    AcceptedQueryMatchesExactly(entries, bindings, eventType, split);
    WantedIsAsked(entries, bindings, eventType, tags);
    WantedIsAsked(entries, bindings, eventType, split);
  }

  /** An accepted query means what its entries ask for exactly when the keys agree with the tags,
      pair by pair; it need not be the Rust query for that. */
  lemma AcceptedQueryDenotesExactly(entries: seq<Entry>, bindings: seq<Bindings>)
    requires JsQuery(entries, bindings).Ok?
    ensures Denotes(Items(JsQuery(entries, bindings).value), entries, bindings) <==> KeysAgree(entries, bindings)
  {
    var q := Items(JsQuery(entries, bindings).value);
    if KeysAgree(entries, bindings) {
      forall eventType, tags ensures Matches(q, eventType, tags) <==> Wanted(entries, bindings, eventType, tags) {
        AcceptedQueryMatchesExactly(entries, bindings, eventType, tags);
        AgreeingKeysDenote(entries, bindings, eventType, Elements(tags));
        WantedIsAsked(entries, bindings, eventType, tags);
      }
    }
    if Denotes(q, entries, bindings) {
      forall i, j | 0 <= i < |bindings| && 0 <= j < |entries| ensures PairAgrees(entries, bindings, i, j) {
        DenotingKeysAgree(entries, bindings, i, j);
      }
    }
  }

  // ---------- what a fold takes and an accepted query fetches ----------

  /** For the first entry of each type the fold has, some pair of that type has a key that asks for
      no further tag than the entry does under the fold's own bindings. */
  predicate Fetches(entries: seq<Entry>, bindings: seq<Bindings>, own: seq<Entry>, ownBinding: Bindings) {
    forall entry :: entry in own && FindEntry(own, entry.eventType) == Some(entry) ==>
      KeyAsksWithin(entries, bindings, entry.eventType, EntryTags(entry, ownBinding))
  }

  /** An accepted query fetches everything a fold takes exactly under that condition, whatever
      else the query asks for. */
  lemma FetchesWhatAFoldTakesExactly(entries: seq<Entry>, bindings: seq<Bindings>, own: seq<Entry>, ownBinding: Bindings)
    requires JsQuery(entries, bindings).Ok?
    ensures (forall eventType, tags ::
               MatchesFoldQuery(own, ownBinding, eventType, tags)
               ==> Matches(Items(JsQuery(entries, bindings).value), eventType, tags))
            <==> Fetches(entries, bindings, own, ownBinding)
  {
    var q := Items(JsQuery(entries, bindings).value);
    if Fetches(entries, bindings, own, ownBinding) {
      forall eventType, tags | MatchesFoldQuery(own, ownBinding, eventType, tags) ensures Matches(q, eventType, tags) {
        FoldFilterIsTagInclusion(own, ownBinding, eventType, tags);
        FindEntryFindsTheFirst(own, eventType);
        var entry := FindEntry(own, eventType).value;
        assert KeyAsksWithin(entries, bindings, entry.eventType, EntryTags(entry, ownBinding));
        AcceptedQueryMatchesExactly(entries, bindings, eventType, tags);
      }
    } else {
      var entry :| entry in own && FindEntry(own, entry.eventType) == Some(entry)
                   && !KeyAsksWithin(entries, bindings, entry.eventType, EntryTags(entry, ownBinding));
      var tags := SequenceOf(EntryTags(entry, ownBinding));
      FoldFilterIsTagInclusion(own, ownBinding, entry.eventType, tags);
      AcceptedQueryMatchesExactly(entries, bindings, entry.eventType, tags);
      assert !Matches(q, entry.eventType, tags);
    }
  }

  // ---------- a value with the separator ----------

  const SPLIT_ENTRY := Entry("A", ["id"], [])
  const SPLIT_BINDING: Bindings := map["id" := "x\U{1F}y"]
  const SPLIT_TAG := "id:x\U{1F}y"

  /** The one tag the entry asks for becomes two when its key is split. */
  lemma SeparatorSplitsTheTag()
    ensures TagsOfKey(KeyOf(SPLIT_ENTRY, SPLIT_BINDING)) == ["id:x", "y"]
    ensures EntryTags(SPLIT_ENTRY, SPLIT_BINDING) == {SPLIT_TAG}
  {
    var tag := "id:x" + [SEPARATOR] + "y";
    assert Tag("id", "x\U{1F}y") == tag == SPLIT_TAG;
    assert ["id"][..0] == [];
    assert DynamicTags(["id"], SPLIT_BINDING) == [tag];
    assert JsTags(SPLIT_ENTRY, SPLIT_BINDING) == [tag];
    JsTagsAreTheEntryTags(SPLIT_ENTRY, SPLIT_BINDING);
    assert Elements([tag]) == {tag};
    assert Sort([tag]) == [tag] by { assert [tag][1..] == []; }
    SplitFirst("id:x", "y");
    SplitOne("y");
    assert Join([tag]) == tag;
  }

  lemma OneNeedOneBucket(key: string, member: string)
    ensures Group([Need(key, member)]) == [Bucket(key, {member})]
  {
    var need: Need<string> := Need(key, member);
    var none: seq<Bucket<string>> := Group([need][..0]);
    assert Group([need]) == Add(none, need);
  }

  lemma OnePairOneNeed(entry: Entry, binding: Bindings)
    ensures JsNeeds([entry], [binding]) == [Need(KeyOf(entry, binding), entry.eventType)]
  {
    assert [binding][..0] == [];
    assert JsNeeds([entry], [binding][..0]) == [];
  }

  /** The filter of a key that splits into two tags is accepted. */
  lemma OneBucketOneItem(key: string, eventType: string, first: string, second: string)
    requires eventType != "" && first != "" && second != "" && first != second
    requires TagsOfKey(key) == [first, second]
    ensures ToItems(FiltersOf([Bucket(key, {eventType})])) == Ok([QueryItem({eventType}, {first, second})])
  {
    var filters := FiltersOf([Bucket(key, {eventType})]);
    assert filters[0] == EventFilter({eventType}, [first, second]);
    assert Elements([first, second]) == {first, second};
    assert Distinct([first, second]);
    assert ToItem(filters[0]) == Ok(QueryItem({eventType}, {first, second}));
    ToItemsIsPointwise(filters);
    assert ToItems(filters).value == [QueryItem({eventType}, {first, second})];
  }

  /** What the runtime makes of the entry: one item with the two halves for tags. */
  lemma SplitQuery()
    ensures JsQuery([SPLIT_ENTRY], [SPLIT_BINDING]) == Ok([QueryItem({"A"}, {"id:x", "y"})])
  {
    SeparatorSplitsTheTag();
    OnePairOneNeed(SPLIT_ENTRY, SPLIT_BINDING);
    var key := KeyOf(SPLIT_ENTRY, SPLIT_BINDING);
    OneNeedOneBucket(key, "A");
    OneBucketOneItem(key, "A", "id:x", "y");
    assert JsNeeds([SPLIT_ENTRY], [SPLIT_BINDING]) == [Need(key, "A")];
    assert Group(JsNeeds([SPLIT_ENTRY], [SPLIT_BINDING])) == [Bucket(key, {"A"})];
  }

  lemma OnePairWants(entry: Entry, binding: Bindings, tags: seq<string>)
    requires EntryTags(entry, binding) <= Elements(tags)
    ensures Wanted([entry], [binding], entry.eventType, tags)
    ensures Matches(DcbQuery([entry], [binding]), entry.eventType, tags)
  {
    assert EntryTags([entry][0], [binding][0]) <= Elements(tags);
    DcbQueryMeansItsEntries([entry], [binding]);
  }

  /** A separator inside a value: the runtime accepts the query, but the query does not match an
      event that the entry asks for and that the Rust query matches. */
  lemma SeparatorLosesAWantedEvent()
    ensures JsQuery([SPLIT_ENTRY], [SPLIT_BINDING]).Ok?
    ensures !Matches(Items(JsQuery([SPLIT_ENTRY], [SPLIT_BINDING]).value), "A", [SPLIT_TAG])
    ensures Wanted([SPLIT_ENTRY], [SPLIT_BINDING], "A", [SPLIT_TAG])
    ensures Matches(DcbQuery([SPLIT_ENTRY], [SPLIT_BINDING]), "A", [SPLIT_TAG])
  {
    SplitQuery();
    assert SPLIT_TAG != "y";
    SeparatorSplitsTheTag();
    OnePairWants(SPLIT_ENTRY, SPLIT_BINDING, [SPLIT_TAG]);
  }

  // ---------- the fold filter ----------

  /** The filter of one entry, as the loops compute it; it asks for the same tags as the Rust
      filter with its stripped prefixes. */
  method MatchesFoldQueryJs(entry: Entry, storedTags: seq<string>, binding: Bindings) returns (r: bool)
    ensures r <==> MatchesFoldQuery([entry], binding, entry.eventType, storedTags)
  {
    FoldFilterIsTagInclusion([entry], binding, entry.eventType, storedTags);
    for f := 0 to |entry.dynamicFields|
      invariant forall k :: 0 <= k < f && entry.dynamicFields[k] in binding
                  ==> Tag(entry.dynamicFields[k], binding[entry.dynamicFields[k]]) in storedTags
    {
      var field := entry.dynamicFields[f];
      if field in binding {
        if Tag(field, binding[field]) !in storedTags {
          assert Tag(field, binding[field]) in EntryTags(entry, binding);
          return false;
        }
      }
    }
    for f := 0 to |entry.staticFields|
      invariant forall k :: 0 <= k < f ==> Tag(entry.staticFields[k].0, entry.staticFields[k].1) in storedTags
    {
      var pair := entry.staticFields[f];
      if Tag(pair.0, pair.1) !in storedTags {
        assert pair in entry.staticFields;
        assert Tag(pair.0, pair.1) in EntryTags(entry, binding);
        return false;
      }
    }
    return true;
  }
}

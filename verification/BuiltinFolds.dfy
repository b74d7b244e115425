/** The folds that ship with the SDK, and how they agree with one another on every log. */
module BuiltinFolds {
  import opened Prelude
  import opened EventLog
  import opened DomainQuery
  import opened Folds

  /** An event definition: its type name, its domain-id fields and its payload parser. */
  datatype EventDef<!D> = EventDef(eventType: string, fields: seq<string>, parse: Json -> Option<D>)

  const U64_MODULUS: nat := 0x1_0000_0000_0000_0000

  function OwnEntry<D>(def: EventDef<D>): Entry {
    Entry(def.eventType, def.fields, [])
  }

  function Parsed<D>(def: EventDef<D>, data: Json): Decoded<D> {
    match def.parse(data)
    case None => Malformed
    case Some(value) => Item(value)
  }

  function DecodeSingle<D>(def: EventDef<D>): (string, Json) -> Decoded<D> {
    (eventType, data) => if eventType == def.eventType then Parsed(def, data) else NotInSet
  }

  /** Keeps every occurrence. */
  function EventFold<D>(def: EventDef<D>): Fold<seq<StoredEvent<D>>, D> {
    Fold([OwnEntry(def)], Elements(def.fields), [], DecodeSingle(def), (state, event) => state + [event])
  }

  /** Keeps the most recent occurrence. */
  function LatestEvent<D>(def: EventDef<D>): Fold<Option<StoredEvent<D>>, D> {
    Fold([OwnEntry(def)], Elements(def.fields), None, DecodeSingle(def), (state, event) => Some(event))
  }

  /** Counts occurrences in a 64-bit counter. */
  function EventCounter<D>(def: EventDef<D>): Fold<nat, D> {
    Fold([OwnEntry(def)], Elements(def.fields), 0, DecodeSingle(def), (state, event) => (state + 1) % U64_MODULUS)
  }

  datatype EitherEvent<+A, +B> = SideA(a: A) | SideB(b: B)

  function DecodePair<A, B>(a: EventDef<A>, b: EventDef<B>): (string, Json) -> Decoded<EitherEvent<A, B>> {
    (eventType, data) =>
      if eventType == a.eventType then
        match a.parse(data) { case None => Malformed case Some(value) => Item(SideA(value)) }
      else if eventType == b.eventType then
        match b.parse(data) { case None => Malformed case Some(value) => Item(SideB(value)) }
      else NotInSet
  }

  /** Remembers which of two events came last.  It filters by the first event's fields only. */
  function EventToggle<A, B>(
      a: EventDef<A>, b: EventDef<B>): Fold<Option<StoredEvent<EitherEvent<A, B>>>, EitherEvent<A, B>> {
    Fold([OwnEntry(a), OwnEntry(b)], Elements(a.fields), None, DecodePair(a, b), (state, event) => Some(event))
  }

  /** `EventCounter` is the length of `EventFold`'s list in 64-bit arithmetic, and `LatestEvent`
      is the list's last element; the three fail together. */
  lemma {:induction false} SingleEventFoldsAgree<D>(def: EventDef<D>, binding: Bindings, events: seq<StoredEvent<Json>>)
    ensures
      var list := FoldOver(BoundFold(EventFold(def), binding), events);
      var latest := FoldOver(BoundFold(LatestEvent(def), binding), events);
      var count := FoldOver(BoundFold(EventCounter(def), binding), events);
      && (list.Err? <==> latest.Err?) && (list.Err? <==> count.Err?)
      && (list.Ok? ==>
            && count.value == |list.value| % U64_MODULUS
            && latest.value == if list.value == [] then None else Some(list.value[|list.value| - 1]))
  {
    if events != [] {
      SingleEventFoldsAgree(def, binding, events[..|events| - 1]);
    }
  }

  lemma {:induction false} AppendedAll<D>(def: EventDef<D>, start: seq<StoredEvent<D>>, items: seq<StoredEvent<D>>)
    ensures Applied(EventFold(def).apply, start, items) == start + items
    decreases |items|
  {
    if items != [] {
      AppendedAll(def, start + [items[0]], items[1..]);
      assert start + [items[0]] + items[1..] == start + items;
    }
  }

  /** `EventFold` returns exactly the events it takes, in log order; `EventCounter` is their number in
      64-bit arithmetic and `LatestEvent` the last of them; all three fail exactly when a readable event
      inside the filter does not parse. */
  lemma SingleEventFoldsCompute<D>(def: EventDef<D>, binding: Bindings, events: seq<StoredEvent<Json>>)
    ensures
      var list := BoundFold(EventFold(def), binding);
      var taken := Taken(list, events);
      if exists e :: e in events && Offered(list, e) && e.eventType == def.eventType && def.parse(e.data).None?
      then
        && FoldOver(list, events).Err?
        && FoldOver(BoundFold(LatestEvent(def), binding), events).Err?
        && FoldOver(BoundFold(EventCounter(def), binding), events).Err?
      else
        && FoldOver(list, events) == Ok(taken)
        && FoldOver(BoundFold(EventCounter(def), binding), events) == Ok(|taken| % U64_MODULUS)
        && FoldOver(BoundFold(LatestEvent(def), binding), events)
           == Ok(if taken == [] then None else Some(taken[|taken| - 1]))
  {
    var list := BoundFold(EventFold(def), binding);
    FoldComputes(list, events);
    forall e | e in events
      ensures Fatal(list, e) <==> Offered(list, e) && e.eventType == def.eventType && def.parse(e.data).None?
    {}
    var none: seq<StoredEvent<D>> := [];
    AppendedAll(def, none, Taken(list, events));
    assert none + Taken(list, events) == Taken(list, events);
    SingleEventFoldsAgree(def, binding, events);
  }

  /** What the toggle should hold, given the latest event of each kind. */
  function LaterOf<A, B>(a: Option<StoredEvent<A>>, b: Option<StoredEvent<B>>): Option<StoredEvent<EitherEvent<A, B>>> {
    match (a, b)
    case (None, None) => None
    case (Some(x), None) => Some(WithData(x, SideA(x.data)))
    case (None, Some(y)) => Some(WithData(y, SideB(y.data)))
    case (Some(x), Some(y)) =>
      if x.position > y.position then Some(WithData(x, SideA(x.data))) else Some(WithData(y, SideB(y.data)))
  }

  predicate InLogOrder(events: seq<StoredEvent<Json>>) {
    forall i, j :: 0 <= i < j < |events| ==> events[i].position < events[j].position
  }

  predicate AtMost<D>(latest: Option<StoredEvent<D>>, events: seq<StoredEvent<Json>>) {
    latest.Some? ==> exists e :: e in events && e.position == latest.value.position
  }

  lemma {:induction false} LatestIsAmongTheEvents<D>(def: EventDef<D>, binding: Bindings, events: seq<StoredEvent<Json>>)
    requires FoldOver(BoundFold(LatestEvent(def), binding), events).Ok?
    ensures AtMost(FoldOver(BoundFold(LatestEvent(def), binding), events).value, events)
  {
    if events != [] {
      var front, last := events[..|events| - 1], events[|events| - 1];
      LatestIsAmongTheEvents(def, binding, front);
      assert last in events && forall e :: e in front ==> e in events;
    }
  }

  predicate Before<D>(latest: Option<StoredEvent<D>>, position: nat) {
    latest.Some? ==> latest.value.position < position
  }

  /** One later event keeps the toggle in step with the two latest events. */
  lemma ToggleStep<A, B>(
    a: EventDef<A>, b: EventDef<B>, binding: Bindings, e: StoredEvent<Json>,
    latestA: Option<StoredEvent<A>>, latestB: Option<StoredEvent<B>>)
    requires a.eventType != b.eventType
    requires Before(latestA, e.position) && Before(latestB, e.position)
    ensures
      var toggle := BoxApply(BoundFold(EventToggle(a, b), binding), LaterOf(latestA, latestB), e);
      var nextA := BoxApply(BoundFold(LatestEvent(a), binding), latestA, e);
      var nextB := BoxApply(BoundFold(LatestEvent(b), binding), latestB, e);
      && (toggle.Err? <==> nextA.Err? || nextB.Err?)
      && (toggle.Ok? ==> toggle.value == LaterOf(nextA.value, nextB.value))
  {
    ToggleFilter(a, b, binding, e);
  }

  /** For two distinct event types under the same bindings, the toggle holds whichever of the
      two `LatestEvent` states has the greater position, and fails when either fails. */
  lemma {:induction false} ToggleIsTheLaterOfTheTwo<A, B>(
    a: EventDef<A>, b: EventDef<B>, binding: Bindings, events: seq<StoredEvent<Json>>)
    requires a.eventType != b.eventType
    requires InLogOrder(events)
    ensures
      var toggle := FoldOver(BoundFold(EventToggle(a, b), binding), events);
      var latestA := FoldOver(BoundFold(LatestEvent(a), binding), events);
      var latestB := FoldOver(BoundFold(LatestEvent(b), binding), events);
      && (toggle.Err? <==> latestA.Err? || latestB.Err?)
      && (toggle.Ok? ==> toggle.value == LaterOf(latestA.value, latestB.value))
  {
    if events != [] {
      var front, last := events[..|events| - 1], events[|events| - 1];
      ToggleIsTheLaterOfTheTwo(a, b, binding, front);
      var latestA := FoldOver(BoundFold(LatestEvent(a), binding), front);
      var latestB := FoldOver(BoundFold(LatestEvent(b), binding), front);
      if latestA.Ok? && latestB.Ok? {
        LatestIsAmongTheEvents(a, binding, front);
        LatestIsAmongTheEvents(b, binding, front);
        EarlierThanLast(events, latestA.value);
        EarlierThanLast(events, latestB.value);
        ToggleStep(a, b, binding, last, latestA.value, latestB.value);
      }
    }
  }

  lemma EarlierThanLast<D>(events: seq<StoredEvent<Json>>, latest: Option<StoredEvent<D>>)
    requires events != [] && InLogOrder(events) && AtMost(latest, events[..|events| - 1])
    ensures Before(latest, events[|events| - 1].position)
  {
    if latest.Some? {
      var e :| e in events[..|events| - 1] && e.position == latest.value.position;
      var i :| 0 <= i < |events| - 1 && events[i] == e;
    }
  }

  /** The toggle's filter accepts an event when the single-event filter of its type does. */
  lemma ToggleFilter<A, B>(a: EventDef<A>, b: EventDef<B>, binding: Bindings, e: StoredEvent<Json>)
    requires a.eventType != b.eventType
    ensures MatchesFoldQuery([OwnEntry(a), OwnEntry(b)], binding, e.eventType, e.tags)
       <==> MatchesFoldQuery([OwnEntry(a)], binding, e.eventType, e.tags)
            || MatchesFoldQuery([OwnEntry(b)], binding, e.eventType, e.tags)
  {
    assert [OwnEntry(a), OwnEntry(b)][1..] == [OwnEntry(b)];
    assert [OwnEntry(a)][1..] == [] && [OwnEntry(b)][1..] == [];
    assert FindEntry([OwnEntry(a), OwnEntry(b)], e.eventType)
        == if e.eventType == a.eventType then Some(OwnEntry(a)) else FindEntry([OwnEntry(b)], e.eventType);
    assert FindEntry([OwnEntry(a)], e.eventType) == if e.eventType == a.eventType then Some(OwnEntry(a)) else None;
    assert FindEntry([OwnEntry(b)], e.eventType) == if e.eventType == b.eventType then Some(OwnEntry(b)) else None;
  }

  /** The built-in folds over one event type satisfy both conditions of non-interference. */
  lemma SingleEventFoldsQualify<D>(def: EventDef<D>, input: Bindings)
    ensures TakesOnlyWhatItFetches([OwnEntry(def)], FoldBinding(Elements(def.fields), input), input)
    ensures DropsNothingItFetches([OwnEntry(def)], FoldBinding(Elements(def.fields), input), input)
  {
    UsualFoldsQualify([OwnEntry(def)], FoldBinding(Elements(def.fields), input), input);
  }

  /** A toggle takes only what it fetches exactly when every field of its second event that
      the input binds is also a field of its first (distinct event types, distinct tags). */
  lemma ToggleQualifiesExactly<A, B>(a: EventDef<A>, b: EventDef<B>, input: Bindings)
    requires a.eventType != b.eventType
    requires forall f, g ::
               (f in b.fields && g in b.fields && f in input && g in input && Tag(f, input[f]) == Tag(g, input[g]))
               ==> f == g
    ensures TakesOnlyWhatItFetches([OwnEntry(a), OwnEntry(b)], FoldBinding(Elements(a.fields), input), input)
       <==> forall field :: field in b.fields && field in input ==> field in a.fields
  {
    var entries, own := [OwnEntry(a), OwnEntry(b)], FoldBinding(Elements(a.fields), input);
    assert FindEntry(entries, a.eventType) == Some(OwnEntry(a));
    assert entries[1..] == [OwnEntry(b)];
    assert FindEntry(entries, b.eventType) == Some(OwnEntry(b));
    if forall field :: field in b.fields && field in input ==> field in a.fields {
      UsualFoldsQualify(entries, own, input);
    }
    if TakesOnlyWhatItFetches(entries, own, input) {
      forall field | field in b.fields && field in input ensures field in a.fields {
        assert entries[1] in entries;
        var other :| other in entries && other.eventType == b.eventType
                     && EntryTags(other, input) <= EntryTags(OwnEntry(b), own);
        assert other == OwnEntry(b);
        assert Tag(field, input[field]) in EntryTags(OwnEntry(b), input);
      }
    }
  }

  function Opened(): EventDef<Json> {
    EventDef("Opened", ["account"], (data: Json) => Some(data))
  }

  function Closed(): EventDef<Json> {
    EventDef("Closed", ["account", "branch"], (data: Json) => Some(data))
  }

  function AccountAndBranch(): Bindings {
    map["account" := "1", "branch" := "x"]
  }

  /** The toggle's own entries do not ask for the event. */
  lemma ToggleAsksForBranch()
    ensures !Wanted([OwnEntry(Opened()), OwnEntry(Closed())], [AccountAndBranch()], "Closed", ["account:1"])
  {
    var closed, input := OwnEntry(Closed()), AccountAndBranch();
    assert "branch" in closed.dynamicFields by { assert Closed().fields[1] == "branch"; }
    assert Tag("branch", "x") == "branch:x" && Tag("branch", "x") in EntryTags(closed, input);
    assert "branch:x" != "account:1" by { assert "branch:x"[0] != "account:1"[0]; }
  }

  /** Another entry of the same command does. */
  lemma OtherEntryAsksForAccount()
    ensures Wanted([OwnEntry(Opened()), OwnEntry(Closed()), Entry("Closed", ["account"], [])], [AccountAndBranch()], "Closed", ["account:1"])
  {
    var entries, input := [OwnEntry(Opened()), OwnEntry(Closed()), Entry("Closed", ["account"], [])], AccountAndBranch();
    assert Tag("account", "1") == "account:1";
    assert EntryTags(entries[2], [input][0]) <= Elements(["account:1"]) by {
      forall tag | tag in EntryTags(entries[2], input) ensures tag == Tag("account", "1") {
        var field :| field in entries[2].dynamicFields && field in input && tag == Tag(field, input[field]);
        assert entries[2].dynamicFields == ["account"] && field == "account";
      }
      assert ["account:1"][0] in Elements(["account:1"]);
    }
  }

  /** And the toggle's filter, which knows no branch, takes it. */
  lemma ToggleTakesIt()
    ensures
      var bound := BindToInput(EventToggle(Opened(), Closed()), AccountAndBranch());
      MatchesFoldQuery(bound.fold.entries, bound.binding, "Closed", ["account:1"])
  {
    var bound := BindToInput(EventToggle(Opened(), Closed()), AccountAndBranch());
    FoldFilterIsTagInclusion(bound.fold.entries, bound.binding, "Closed", ["account:1"]);
    assert bound.fold.entries[1..] == [OwnEntry(Closed())];
    assert "Opened" != "Closed";
    assert FindEntry(bound.fold.entries, "Closed") == Some(OwnEntry(Closed()));
    assert Tag("account", "1") == "account:1";
    assert EntryTags(OwnEntry(Closed()), bound.binding) <= {Tag("account", "1")};
    assert ["account:1"][0] in Elements(["account:1"]);
  }

  function ClosedEvent(): Event {
    Event("Closed", ["account:1"], None, None, None, Payload("p"))
  }

  lemma ToggleTurns()
    ensures
      var bound := BindToInput(EventToggle(Opened(), Closed()), AccountAndBranch());
      FoldOver(bound, [Stored(ClosedEvent(), 1)]) != FoldOver(bound, [])
  {
    var bound, e := BindToInput(EventToggle(Opened(), Closed()), AccountAndBranch()), Stored(ClosedEvent(), 1);
    ToggleTakesIt();
    assert FoldOver(bound, [e]) == Advance(bound, FoldOver(bound, []), e) by {
      assert [e][..0] == [];
    }
  }

  /** Without that condition folds do interfere: a toggle whose second event has a bound field
      of its own ends in a different state once another entry widens the query. */
  lemma TogglesWithMismatchedFieldsInterfere()
    ensures
      var toggle := EventToggle(Opened(), Closed());
      var input := AccountAndBranch();
      var log: Log := [ClosedEvent()];
      var alone := DcbQuery(toggle.entries, [input]);
      var widened := DcbQuery(toggle.entries + [Entry("Closed", ["account"], [])], [input]);
      FoldOver(BindToInput(toggle, input), Read(log, alone)) != FoldOver(BindToInput(toggle, input), Read(log, widened))
  {
    var toggle, input := EventToggle(Opened(), Closed()), AccountAndBranch();
    var more := toggle.entries + [Entry("Closed", ["account"], [])];
    assert more == [OwnEntry(Opened()), OwnEntry(Closed()), Entry("Closed", ["account"], [])];
    DcbQueryMeansItsEntries(toggle.entries, [input]);
    DcbQueryMeansItsEntries(more, [input]);
    ToggleAsksForBranch();
    OtherEntryAsksForAccount();
    ReadsOne(DcbQuery(toggle.entries, [input]), ClosedEvent());
    ReadsOne(DcbQuery(more, [input]), ClosedEvent());
    ToggleTurns();
  }
}

/** The stand-alone fold query: a builder that collects folds with their own bindings, reads
    once under the cross product of all entries with all bindings, and hands every handle its
    own final state. */
module FoldQueries {
  import opened Prelude
  import opened EventLog
  import opened DomainQuery
  import opened Folds
  import opened Replay
  import opened Transactions

  /** What the builder hands back for a fold, or for a whole iterator of folds. */
  datatype Handle = One(key: nat) | Many(keys: seq<nat>)

  datatype Extracted<S> = OneState(state: S) | ManyStates(states: seq<S>)

  function HandleKeys(handle: Handle): seq<nat> {
    match handle
    case One(key) => [key]
    case Many(keys) => keys
  }

  function AllKeys(handles: seq<Handle>): seq<nat> {
    if handles == [] then []
    else AllKeys(handles[..|handles| - 1]) + HandleKeys(handles[|handles| - 1])
  }

  function UpTo(n: nat): (r: seq<nat>)
    ensures |r| == n && forall i :: 0 <= i < n ==> r[i] == i
  {
    seq(n, i => i)
  }

  function BindingsOf<S, T>(folds: seq<BoundFold<S, T>>): (r: seq<Bindings>)
    ensures |r| == |folds| && forall i :: 0 <= i < |folds| ==> r[i] == folds[i].binding
  {
    seq(|folds|, i requires 0 <= i < |folds| => folds[i].binding)
  }

  /** The cross product of all entries with all bindings fetches at least what each fold takes,
      so every fold ends where it ends alone over the whole log.  There is no side condition on
      the folds, their entries or their bindings. */
  lemma FoldsOfOneQueryDoNotInterfere<S(!new), T(!new)>(
    entries: seq<Entry>, folds: seq<BoundFold<S, T>>, q: Query, log: Log, deleted: set<KeyId>, key: nat)
    requires Denotes(q, entries, BindingsOf(folds))
    requires key < |folds| && forall entry :: entry in folds[key].fold.entries ==> entry in entries
    ensures FoldOver(folds[key], RevealAll(deleted, Read(log, q)))
         == FoldOver(folds[key], RevealAll(deleted, Read(log, All)))
  {
    var bound := folds[key];
    forall eventType, tags | MatchesFoldQuery(bound.fold.entries, bound.binding, eventType, tags)
      ensures Matches(q, eventType, tags)
    {
      FoldFilterIsTagInclusion(bound.fold.entries, bound.binding, eventType, tags);
      FindEntryFindsTheFirst(bound.fold.entries, eventType);
      var entry := FindEntry(bound.fold.entries, eventType).value;
      assert entry in entries;
      var j :| 0 <= j < |entries| && entries[j] == entry;
      assert EntryTags(entries[j], BindingsOf(folds)[key]) <= Elements(tags);
      assert Wanted(entries, BindingsOf(folds), eventType, tags);
    }
    QueryFiltersNothingTheFoldTakes(bound, q, log, deleted, |log|);
  }

  /** What a handle should receive: the state of its own fold, alone over the whole log. */
  ghost predicate Delivers<S(!new), T(!new)>(
    handle: Handle, got: Extracted<S>, folds: seq<BoundFold<S, T>>, whole: seq<StoredEvent<Json>>)
  {
    match handle
    case One(key) => key < |folds| && got.OneState? && FoldOver(folds[key], whole) == Ok(got.state)
    case Many(keys) =>
      && got.ManyStates? && |got.states| == |keys|
      && forall i :: 0 <= i < |keys| ==> keys[i] < |folds| && FoldOver(folds[keys[i]], whole) == Ok(got.states[i])
  }

  class FoldQuery<S(!new), T(!new)> {
    var domainIds: seq<Entry>
    var folds: seq<BoundFold<S, T>>
    var handles: seq<Handle>

    /** Every fold's entries are in the query, and the handles own the fold keys, each once. */
    ghost predicate Valid()
      reads this
    {
      && (forall key, entry :: 0 <= key < |folds| && entry in folds[key].fold.entries ==> entry in domainIds)
      && AllKeys(handles) == UpTo(|folds|)
    }

    constructor ()
      ensures Valid() && folds == [] && domainIds == [] && handles == []
    {
      domainIds, folds, handles := [], [], [];
    }

    /** Adds one fold with its own bindings. */
    method Fold(bound: BoundFold<S, T>)
      requires Valid()
      modifies this
      ensures Valid()
      ensures folds == old(folds) + [bound]
      ensures domainIds == old(domainIds) + bound.fold.entries
      ensures handles == old(handles) + [One(|old(folds)|)]
    {
      domainIds := domainIds + bound.fold.entries;
      var key := |folds|;
      folds := folds + [bound];
      handles := handles + [One(key)];
      assert handles[..|handles| - 1] == old(handles);
    }

    /** Adds the folds of an iterator under one handle.  They share an event set, whose entries
        are added once, even when the iterator is empty. */
    method FoldIter(entries: seq<Entry>, items: seq<BoundFold<S, T>>)
      requires Valid()
      requires forall i :: 0 <= i < |items| ==> items[i].fold.entries == entries
      modifies this
      ensures Valid()
      ensures folds == old(folds) + items
      ensures domainIds == old(domainIds) + entries
      ensures |handles| == |old(handles)| + 1 && handles[..|old(handles)|] == old(handles)
      ensures handles[|old(handles)|].Many? && |handles[|old(handles)|].keys| == |items|
      ensures forall i :: 0 <= i < |items| ==> handles[|old(handles)|].keys[i] == |old(folds)| + i
    {
      domainIds := domainIds + entries;
      var keys: seq<nat> := [];
      for i := 0 to |items|
        invariant folds == old(folds) + items[..i]
        invariant |keys| == i && forall k :: 0 <= k < i ==> keys[k] == |old(folds)| + k
        invariant handles == old(handles) && domainIds == old(domainIds) + entries
      {
        keys := keys + [|folds|];
        folds := folds + [items[i]];
      }
      assert folds == old(folds) + items;
      handles := handles + [Many(keys)];
      assert handles[..|handles| - 1] == old(handles);
    }

    /** Takes each handle's states out of the map; no key is missing and none is taken twice. */
    method Extract(states: map<nat, S>, ghost whole: seq<StoredEvent<Json>>) returns (r: seq<Extracted<S>>)
      requires Valid() && Holds(folds, states, whole)
      ensures |r| == |handles|
      ensures forall h :: 0 <= h < |handles| ==> Delivers(handles[h], r[h], folds, whole)
    {
      r := [];
      var left := states;
      for h := 0 to |handles|
        invariant |r| == h && |AllKeys(handles[..h])| <= |folds|
        invariant RemainFrom(left, states, |AllKeys(handles[..h])|)
        invariant forall k :: 0 <= k < h ==> Carries(handles[k], r[k], states)
      {
        KeysContinue(handles, h, |folds|);
        var got;
        got, left := TakeHandle(left, states, handles[h], |AllKeys(handles[..h])|);
        r := r + [got];
      }
      forall h | 0 <= h < |handles| ensures Delivers(handles[h], r[h], folds, whole) {
        CarriedIsDelivered(handles, h, r[h], folds, states, whole);
      }
    }

    /** Runs the query in one transaction.  On success every handle gets the state of its own
        fold alone over the whole log; a failure is the failure of some fold alone. */
    method Run(host: TransactionHost, deleted: set<KeyId>) returns (r: Result<seq<Extracted<S>>, FoldError>)
      requires Valid() && host.Valid()
      modifies host
      ensures host.Valid() && host.store.log == old(host.store.log)
      ensures r.Ok? ==> |r.value| == |handles|
                        && forall h :: 0 <= h < |handles| ==>
                             Delivers(handles[h], r.value[h], folds, RevealAll(deleted, Read(host.store.log, All)))
      ensures r.Err? ==> SomeFoldFails(folds, RevealAll(deleted, Read(host.store.log, All)))
    {
      var q := BuildDcbQuery(domainIds, BindingsOf(folds));
      ghost var read, whole := RevealAll(deleted, Read(host.store.log, q)), RevealAll(deleted, Read(host.store.log, All));
      assert SameStates(folds, read, whole) by {
        forall key: nat | key < |folds| ensures FoldOver(folds[key], read) == FoldOver(folds[key], whole) {
          FoldsOfOneQueryDoNotInterfere(domainIds, folds, q, host.store.log, deleted, key);
        }
      }
      if QueryIsEmpty(q) {
        EmptyQueryNeverConflicts(host.store.log, q, 0);
      }
      var tx := host.New(q);
      var drained := Drain(host, tx, folds, deleted, read);
      host.Drop(tx);
      if drained.Err? {
        return Err(drained.error);
      }
      var got := Extract(drained.value, whole);
      return Ok(got);
    }
  }

  ghost predicate SameStates<S(!new), T(!new)>(
    folds: seq<BoundFold<S, T>>, read: seq<StoredEvent<Json>>, whole: seq<StoredEvent<Json>>)
  {
    forall key: nat :: key < |folds| ==> FoldOver(folds[key], read) == FoldOver(folds[key], whole)
  }

  /** Replays batch after batch until an empty one. */
  method Drain<S(!new), T(!new)>(
    host: TransactionHost, tx: nat, folds: seq<BoundFold<S, T>>, deleted: set<KeyId>, ghost read: seq<StoredEvent<Json>>)
    returns (r: Result<map<nat, S>, FoldError>)
    requires host.Valid() && tx in host.transactions
    requires RevealAll(deleted, Unread(host.transactions[tx])) == read
    modifies host`transactions
    ensures host.Valid()
    ensures r.Ok? ==> Holds(folds, r.value, read)
    ensures r.Err? ==> SomeFoldFails(folds, read)
  {
    var states := InitialStates(folds);
    InitialStatesHold(folds);
    ghost var drained := false;
    while true
      invariant host.Valid() && tx in host.transactions
      invariant RevealAll(deleted, Unread(host.transactions[tx])) == if drained then [] else read
      invariant Holds(folds, states, if drained then read else [])
      decreases |Unread(host.transactions[tx])|
    {
      var batch := host.NextBatch(tx, deleted);
      var events := batch.value;
      if events == [] {
        break;
      }
      var next := ReplayBatch(folds, states, events, []);
      assert [] + events == read;
      if next.Err? {
        return Err(next.error);
      }
      states := next.value;
      drained := true;
    }
    return Ok(states);
  }

  function Unread(item: TransactionItem): seq<StoredEvent<Json>> {
    if item.read.Some? then item.read.value.events else []
  }

  /** The states from key `first` on are still in the map. */
  ghost predicate RemainFrom<S(!new)>(left: map<nat, S>, states: map<nat, S>, first: nat) {
    && (forall key: nat :: key in left <==> key in states && first <= key)
    && forall key: nat :: key in left ==> left[key] == states[key]
  }

  /** The states the map held under the handle's keys. */
  ghost predicate Carries<S(!new)>(handle: Handle, got: Extracted<S>, states: map<nat, S>) {
    match handle
    case One(key) => key in states && got == OneState(states[key])
    case Many(keys) =>
      && got.ManyStates? && |got.states| == |keys|
      && forall i :: 0 <= i < |keys| ==> keys[i] in states && got.states[i] == states[keys[i]]
  }

  /** States carried out of the map of a replay are the states of the folds. */
  lemma CarriedIsDelivered<S(!new), T(!new)>(
    handles: seq<Handle>, h: nat, got: Extracted<S>, folds: seq<BoundFold<S, T>>, states: map<nat, S>,
    whole: seq<StoredEvent<Json>>)
    requires h < |handles| && AllKeys(handles) == UpTo(|folds|)
    requires Carries(handles[h], got, states) && Holds(folds, states, whole)
    ensures Delivers(handles[h], got, folds, whole)
  {}

  method TakeHandle<S(!new)>(left: map<nat, S>, ghost states: map<nat, S>, handle: Handle, ghost first: nat)
    returns (got: Extracted<S>, rest: map<nat, S>)
    requires RemainFrom(left, states, first)
    requires forall i :: 0 <= i < |HandleKeys(handle)| ==> HandleKeys(handle)[i] == first + i && HandleKeys(handle)[i] in states
    ensures Carries(handle, got, states)
    ensures RemainFrom(rest, states, first + |HandleKeys(handle)|)
  {
    match handle {
      case One(key) =>
        assert HandleKeys(handle)[0] == key;
        got, rest := OneState(left[key]), left - {key};
      case Many(keys) =>
        var taken: seq<S> := [];
        rest := left;
        assert forall i :: 0 <= i < |keys| ==> HandleKeys(handle)[i] == keys[i] && keys[i] in states;
        for k := 0 to |keys|
          invariant |taken| == k && RemainFrom(rest, states, first + k)
          invariant forall i :: 0 <= i < k ==> taken[i] == states[keys[i]]
        {
          taken := taken + [rest[keys[k]]];
          rest := rest - {keys[k]};
        }
        got := ManyStates(taken);
    }
  }

  /** The keys of handle `h` follow those of the handles before it. */
  lemma KeysContinue(handles: seq<Handle>, h: nat, n: nat)
    requires h < |handles| && AllKeys(handles) == UpTo(n)
    ensures |AllKeys(handles[..h + 1])| == |AllKeys(handles[..h])| + |HandleKeys(handles[h])| <= n
    ensures forall i :: 0 <= i < |HandleKeys(handles[h])| ==> HandleKeys(handles[h])[i] == |AllKeys(handles[..h])| + i
  {
    assert handles[..h + 1][..h] == handles[..h];
    var here := AllKeys(handles[..h]);
    KeysArePrefixes(handles, h + 1);
    forall i | 0 <= i < |HandleKeys(handles[h])| ensures HandleKeys(handles[h])[i] == |here| + i {
      assert AllKeys(handles[..h + 1])[|here| + i] == HandleKeys(handles[h])[i];
      assert AllKeys(handles)[|here| + i] == |here| + i;
    }
  }

  lemma {:induction false} KeysArePrefixes(handles: seq<Handle>, h: nat)
    requires h <= |handles|
    ensures AllKeys(handles[..h]) <= AllKeys(handles)
    decreases |handles|
  {
    if h == |handles| {
      assert handles[..h] == handles;
    } else {
      var front := handles[..|handles| - 1];
      assert front[..h] == handles[..h];
      KeysArePrefixes(front, h);
    }
  }
}

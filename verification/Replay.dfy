/** Replaying a batch of events into several folds at once, as both `Command::run` and
    `FoldQuery::run` do over a hash map of fold states. */
module Replay {
  import opened Prelude
  import opened EventLog
  import opened Folds

  /** Every fold of `folds`, each alone over `events`; fails when one of them fails. */
  function StatesOver<S, T>(folds: seq<BoundFold<S, T>>, events: seq<StoredEvent<Json>>): (r: Result<seq<S>, FoldError>)
    ensures r.Ok? <==> forall i :: 0 <= i < |folds| ==> FoldOver(folds[i], events).Ok?
    ensures r.Ok? ==> |r.value| == |folds| && forall i :: 0 <= i < |folds| ==> Ok(r.value[i]) == FoldOver(folds[i], events)
  {
    if folds == [] then Ok([])
    else
      match (FoldOver(folds[0], events), StatesOver(folds[1..], events))
      case (Ok(state), Ok(rest)) => Ok([state] + rest)
      case _ => Err(PayloadMalformed)
  }

  /** The map holds, for every fold, the state it has alone over `events`. */
  ghost predicate Holds<S(!new), T(!new)>(folds: seq<BoundFold<S, T>>, states: map<nat, S>, events: seq<StoredEvent<Json>>) {
    && (forall key: nat :: key in states <==> key < |folds|)
    && forall key: nat :: key < |folds| ==> FoldOver(folds[key], events) == Ok(states[key])
  }

  /** Some fold fails on its own over `events`. */
  ghost predicate SomeFoldFails<S(!new), T(!new)>(folds: seq<BoundFold<S, T>>, events: seq<StoredEvent<Json>>) {
    exists key :: 0 <= key < |folds| && FoldOver(folds[key], events).Err?
  }

  function InitialStates<S, T>(folds: seq<BoundFold<S, T>>): map<nat, S> {
    map key: nat | key < |folds| :: folds[key].fold.initial
  }

  lemma InitialStatesHold<S(!new), T(!new)>(folds: seq<BoundFold<S, T>>)
    ensures Holds(folds, InitialStates(folds), [])
  {}

  lemma StateAfter<S, T>(bound: BoundFold<S, T>, before: seq<StoredEvent<Json>>, state: S, event: StoredEvent<Json>)
    requires FoldOver(bound, before) == Ok(state)
    ensures FoldOver(bound, before + [event]) == BoxApply(bound, state, event)
  {
    FoldOneMore(bound, before, event);
  }

  /** One event offered to every fold, in whatever order the map yields them. */
  method ApplyToAll<S(!new), T(!new)>(
    folds: seq<BoundFold<S, T>>, states: map<nat, S>, event: StoredEvent<Json>, ghost before: seq<StoredEvent<Json>>)
    returns (r: Result<map<nat, S>, FoldError>)
    requires Holds(folds, states, before)
    ensures r.Ok? ==> Holds(folds, r.value, before + [event])
    ensures r.Err? ==> SomeFoldFails(folds, before + [event])
  {
    var now := states;
    var remaining := states.Keys;
    while remaining != {}
      invariant remaining <= states.Keys == now.Keys
      invariant forall key :: 0 <= key < |folds| ==>
                  FoldOver(folds[key], if key in remaining then before else before + [event]) == Ok(now[key])
      decreases remaining
    {
      var key :| key in remaining;
      StateAfter(folds[key], before, now[key], event);
      var next := BoxApply(folds[key], now[key], event);
      if next.Err? {
        return Err(next.error);
      }
      now := now[key := next.value];
      remaining := remaining - {key};
    }
    return Ok(now);
  }

  lemma FailureSpreads<S(!new), T(!new)>(folds: seq<BoundFold<S, T>>, events: seq<StoredEvent<Json>>, k: nat)
    requires k <= |events| && SomeFoldFails(folds, events[..k])
    ensures SomeFoldFails(folds, events)
  {
    var key :| 0 <= key < |folds| && FoldOver(folds[key], events[..k]).Err?;
    FailureIsFinal(folds[key], events, k);
  }

  /** A batch of events offered to every fold, in log order. */
  method ReplayBatch<S(!new), T(!new)>(
    folds: seq<BoundFold<S, T>>, states: map<nat, S>, events: seq<StoredEvent<Json>>, ghost before: seq<StoredEvent<Json>>)
    returns (r: Result<map<nat, S>, FoldError>)
    requires Holds(folds, states, before)
    ensures r.Ok? ==> Holds(folds, r.value, before + events)
    ensures r.Err? ==> SomeFoldFails(folds, before + events)
  {
    var now := states;
    assert before + events[..0] == before;
    for i := 0 to |events|
      invariant Holds(folds, now, before + events[..i])
    {
      assert before + events[..i + 1] == (before + events[..i]) + [events[i]];
      var next := ApplyToAll(folds, now, events[i], before + events[..i]);
      if next.Err? {
        assert (before + events)[..|before| + i + 1] == (before + events[..i]) + [events[i]];
        FailureSpreads(folds, before + events, |before| + i + 1);
        return Err(next.error);
      }
      now := next.value;
    }
    assert events[..|events|] == events;
    return Ok(now);
  }
}

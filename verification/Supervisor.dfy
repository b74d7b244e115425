/** The supervisor of one kind of module: loading, hand-over, restart with backoff, deactivation
    and deletion, driven by messages and by the deaths of the actors it spawned. */
module Supervisor {
  import opened Prelude

  type ActorId = nat

  datatype Loaded = Loaded(id: ActorId, version: nat)

  /** A module waiting for its predecessor to stop. */
  datatype Pending = Pending(version: nat, resetDb: bool)

  datatype Backoff = Backoff(delay: nat, lastFailed: Option<nat>, attempt: nat)

  const MAX_DELAY: nat := 600

  /** Whether failed modules are restarted (effects are, projectors are not), the supervisor's
      maps, then the actor system around it: `live` actors, deaths whose notice
      has not arrived, the module each actor runs, and who was asked to stop.  The last three
      fields record what the supervisor did: failures it counted, state files and databases it
      removed. */
  datatype State = State(
    retries: bool,
    modules: map<string, Loaded>,
    pending: map<ActorId, (string, Pending)>,
    deletions: map<ActorId, string>,
    backoff: map<string, Backoff>,
    live: set<ActorId>,
    notices: set<ActorId>,
    names: map<ActorId, string>,
    stopping: set<ActorId>,
    nextId: ActorId,
    failures: seq<ActorId>,
    wiped: seq<string>,
    resets: seq<string>)

  datatype Step =
    | Load(name: string, version: nat)
    | Reset(name: string, active: Option<nat>)
    | Restart(name: string, version: nat)
    | Deactivate(name: string)
    | Delete(name: string)
    | Die(id: ActorId)
    | LinkDied(id: ActorId, position: Option<nat>)

  // ---------- what each handler does ----------

  predicate LoadedAndLive(s: State, name: string) {
    name in s.modules && s.modules[name].id in s.live
  }

  function Spawned(s: State, name: string, p: Pending): State {
    s.(modules := s.modules[name := Loaded(s.nextId, p.version)],
       live := s.live + {s.nextId},
       names := s.names[s.nextId := name],
       nextId := s.nextId + 1,
       resets := if p.resetDb then s.resets + [name] else s.resets)
  }

  /** A live predecessor is taken off the modules, asked to stop, and succeeded when it has
      stopped; otherwise the successor is spawned at once. */
  function HandedOver(s: State, name: string, p: Pending): State {
    var base := s.(backoff := s.backoff - {name}, modules := s.modules - {name});
    if LoadedAndLive(s, name) then
      var oldId := s.modules[name].id;
      base.(pending := s.pending[oldId := (name, p)], stopping := s.stopping + {oldId})
    else Spawned(base, name, p)
  }

  function Restarted(s: State, name: string, version: nat): State {
    if name !in s.backoff || LoadedAndLive(s, name) then s else Spawned(s, name, Pending(version, false))
  }

  function Deactivated(s: State, name: string): State {
    var base := s.(backoff := s.backoff - {name}, modules := s.modules - {name});
    if name in s.modules then base.(stopping := s.stopping + {s.modules[name].id}) else base
  }

  function Deleted(s: State, name: string): State {
    var base := s.(backoff := s.backoff - {name}, modules := s.modules - {name});
    if LoadedAndLive(s, name) then
      var oldId := s.modules[name].id;
      base.(deletions := s.deletions[oldId := name], stopping := s.stopping + {oldId})
    else base.(wiped := s.wiped + [name])
  }

  /** The delay doubles while a module keeps failing at one position and starts over at one
      second when it has moved. */
  function Backed(entry: Option<Backoff>, position: Option<nat>): Backoff {
    var state := if entry.Some? then entry.value else Backoff(1, None, 0);
    var delay := if state.lastFailed != position then 1
                 else if state.delay * 2 <= MAX_DELAY then state.delay * 2 else MAX_DELAY;
    Backoff(delay, position, state.attempt + 1)
  }

  ghost predicate Runs(s: State, name: string, id: ActorId) {
    name in s.modules && s.modules[name].id == id
  }

  function Failed(s: State, name: string, id: ActorId, position: Option<nat>): State {
    var entry := if name in s.backoff then Some(s.backoff[name]) else None;
    s.(failures := s.failures + [id],
       backoff := if s.retries then s.backoff[name := Backed(entry, position)] else s.backoff)
  }

  /** A death: the successor is spawned, or a deleted module's files go, or it counts as a
      failure of the module that still runs on it, or it means nothing any more. */
  ghost function Buried(s: State, id: ActorId, position: Option<nat>): State {
    if id in s.pending then
      var (name, p) := s.pending[id];
      Spawned(s.(pending := s.pending - {id}), name, p)
    else if id in s.deletions then
      var name := s.deletions[id];
      var base := s.(deletions := s.deletions - {id});
      if name in s.modules then base else base.(wiped := s.wiped + [name])
    else if exists name :: Runs(s, name, id) then
      var name :| Runs(s, name, id);
      Failed(s, name, id, position)
    else s
  }

  ghost function Apply(s: State, step: Step): State {
    match step
    case Load(name, version) => HandedOver(s, name, Pending(version, false))
    case Reset(name, active) =>
      if active.None? then s else HandedOver(s, name, Pending(active.value, true))
    case Restart(name, version) => Restarted(s, name, version)
    case Deactivate(name) => Deactivated(s, name)
    case Delete(name) => Deleted(s, name)
    case Die(id) => if id in s.live then s.(live := s.live - {id}, notices := s.notices + {id}) else s
    case LinkDied(id, position) =>
      if id in s.notices then Buried(s.(notices := s.notices - {id}), id, position) else s
  }

  ghost function Exec(s: State, steps: seq<Step>): State {
    if steps == [] then s else Apply(Exec(s, steps[..|steps| - 1]), steps[|steps| - 1])
  }

  function Empty(retries: bool): State {
    State(retries, map[], map[], map[], map[], {}, {}, map[], {}, 0, [], [], [])
  }

  // ---------- ownership ----------

  /** The actor a module entry points to was spawned for that module, is not known to be dead and
      done with, and has not been asked to stop. */
  ghost predicate ModuleOk(s: State, name: string) {
    name in s.modules ==>
      && s.modules[name].id < s.nextId
      && s.modules[name].id !in s.stopping
      && s.modules[name].id in s.names && s.names[s.modules[name].id] == name
  }

  /** An actor waited for was asked to stop, runs the module it is waited for, and is alive or has
      a death notice under way. */
  ghost predicate WaitOk(s: State, id: ActorId, name: string) {
    && id < s.nextId && id in s.stopping
    && id in s.names && s.names[id] == name
    && (id in s.live || id in s.notices)
  }

  ghost predicate Ownership(s: State) {
    && (forall name :: name in s.modules ==> ModuleOk(s, name))
    && (forall id :: id in s.pending ==> WaitOk(s, id, s.pending[id].0) && id !in s.deletions)
    && (forall id :: id in s.deletions ==> WaitOk(s, id, s.deletions[id]))
    && (forall id :: id in s.live || id in s.notices || id in s.stopping ==> id < s.nextId)
    && (forall id: ActorId :: id in s.names <==> id < s.nextId)
    && s.live !! s.notices
  }

  lemma OneModuleOfAnActor(s: State, a: string, b: string, id: ActorId)
    requires Ownership(s) && Runs(s, a, id) && Runs(s, b, id)
    ensures a == b
  {
    assert ModuleOk(s, a) && ModuleOk(s, b);
  }

  lemma SpawnKeepsOwnership(s: State, name: string, p: Pending)
    requires Ownership(s)
    ensures Ownership(Spawned(s, name, p))
  {
    var next := Spawned(s, name, p);
    forall n | n in next.modules ensures ModuleOk(next, n) {
      if n != name {
        assert ModuleOk(s, n);
      }
    }
  }

  lemma DropKeepsOwnership(s: State, name: string)
    requires Ownership(s)
    ensures Ownership(s.(backoff := s.backoff - {name}, modules := s.modules - {name}))
  {
    var next := s.(backoff := s.backoff - {name}, modules := s.modules - {name});
    forall n | n in next.modules ensures ModuleOk(next, n) {
      assert ModuleOk(s, n);
    }
  }

  /** Taking a module off the map and asking its actor to stop. */
  lemma StopKeepsOwnership(s: State, name: string)
    requires Ownership(s) && name in s.modules
    ensures
      var id := s.modules[name].id;
      Ownership(s.(backoff := s.backoff - {name}, modules := s.modules - {name}, stopping := s.stopping + {id}))
      && id !in s.pending && id !in s.deletions && id in s.names && s.names[id] == name
  {
    var id := s.modules[name].id;
    var next := s.(backoff := s.backoff - {name}, modules := s.modules - {name}, stopping := s.stopping + {id});
    assert ModuleOk(s, name);
    forall n | n in next.modules ensures ModuleOk(next, n) {
      assert ModuleOk(s, n);
      if s.modules[n].id == id {
        OneModuleOfAnActor(s, n, name, id);
      }
    }
  }

  lemma HandOverKeepsOwnership(s: State, name: string, p: Pending)
    requires Ownership(s)
    ensures Ownership(HandedOver(s, name, p))
  {
    if LoadedAndLive(s, name) {
      StopKeepsOwnership(s, name);
      var id := s.modules[name].id;
      var base := s.(backoff := s.backoff - {name}, modules := s.modules - {name}, stopping := s.stopping + {id});
      var next := base.(pending := s.pending[id := (name, p)]);
      assert HandedOver(s, name, p) == next;
      forall n | n in next.modules ensures ModuleOk(next, n) {
        assert ModuleOk(base, n);
      }
    } else {
      DropKeepsOwnership(s, name);
      SpawnKeepsOwnership(s.(backoff := s.backoff - {name}, modules := s.modules - {name}), name, p);
    }
  }

  lemma DeleteKeepsOwnership(s: State, name: string)
    requires Ownership(s)
    ensures Ownership(Deleted(s, name))
  {
    if LoadedAndLive(s, name) {
      StopKeepsOwnership(s, name);
      var id := s.modules[name].id;
      var base := s.(backoff := s.backoff - {name}, modules := s.modules - {name}, stopping := s.stopping + {id});
      var next := base.(deletions := s.deletions[id := name]);
      assert Deleted(s, name) == next;
      forall n | n in next.modules ensures ModuleOk(next, n) {
        assert ModuleOk(base, n);
      }
    } else {
      DropKeepsOwnership(s, name);
      var base := s.(backoff := s.backoff - {name}, modules := s.modules - {name});
      forall n | n in base.modules ensures ModuleOk(Deleted(s, name), n) {
        assert ModuleOk(base, n);
      }
    }
  }

  lemma DieKeepsOwnership(s: State, id: ActorId)
    requires Ownership(s) && id in s.live
    ensures Ownership(s.(live := s.live - {id}, notices := s.notices + {id}))
  {
    var next := s.(live := s.live - {id}, notices := s.notices + {id});
    forall n | n in next.modules ensures ModuleOk(next, n) {
      assert ModuleOk(s, n);
    }
  }

  /** Once its notice is taken, a dead actor is waited for no more. */
  lemma TakenKeepsOwnership(s: State, id: ActorId)
    requires Ownership(s) && id in s.notices
    ensures Ownership(s.(notices := s.notices - {id}, pending := s.pending - {id}, deletions := s.deletions - {id}))
  {
    var taken := s.(notices := s.notices - {id}, pending := s.pending - {id}, deletions := s.deletions - {id});
    forall n | n in taken.modules ensures ModuleOk(taken, n) {
      assert ModuleOk(s, n);
    }
  }

  /** Ownership does not look at the records. */
  lemma RecordsDoNotMatter(s: State, next: State)
    requires Ownership(s)
    requires next == s.(failures := next.failures, wiped := next.wiped, backoff := next.backoff)
    ensures Ownership(next)
  {
    forall n | n in next.modules ensures ModuleOk(next, n) {
      assert ModuleOk(s, n);
    }
  }

  /** Without a successor waiting, a death changes nothing but records and waiting lists. */
  lemma QuietBurial(s: State, id: ActorId, position: Option<nat>)
    requires id !in s.pending
    ensures
      var taken := s.(pending := s.pending - {id}, deletions := s.deletions - {id});
      var next := Buried(s, id, position);
      next == taken.(failures := next.failures, wiped := next.wiped, backoff := next.backoff)
  {
    assert s.pending - {id} == s.pending;
    assert id !in s.deletions ==> s.deletions - {id} == s.deletions;
  }

  lemma BuryKeepsOwnership(s: State, id: ActorId, position: Option<nat>)
    requires Ownership(s) && id in s.notices
    ensures Ownership(Buried(s.(notices := s.notices - {id}), id, position))
  {
    var taken := s.(notices := s.notices - {id}, pending := s.pending - {id}, deletions := s.deletions - {id});
    TakenKeepsOwnership(s, id);
    if id in s.pending {
      assert s.deletions - {id} == s.deletions;
      SpawnKeepsOwnership(taken, s.pending[id].0, s.pending[id].1);
    } else {
      QuietBurial(s.(notices := s.notices - {id}), id, position);
      RecordsDoNotMatter(taken, Buried(s.(notices := s.notices - {id}), id, position));
    }
  }

  lemma StepKeepsOwnership(s: State, step: Step)
    requires Ownership(s)
    ensures Ownership(Apply(s, step))
  {
    match step
    case Load(name, version) => HandOverKeepsOwnership(s, name, Pending(version, false));
    case Reset(name, active) =>
      if active.Some? {
        HandOverKeepsOwnership(s, name, Pending(active.value, true));
      }
    case Restart(name, version) => SpawnKeepsOwnership(s, name, Pending(version, false));
    case Deactivate(name) =>
      if name in s.modules {
        StopKeepsOwnership(s, name);
      } else {
        DropKeepsOwnership(s, name);
      }
    case Delete(name) => DeleteKeepsOwnership(s, name);
    case Die(id) =>
      if id in s.live {
        DieKeepsOwnership(s, id);
      }
    case LinkDied(id, position) =>
      if id in s.notices {
        BuryKeepsOwnership(s, id, position);
      }
  }

  /** Induction over a run whose steps are all allowed where they happen. */
  lemma {:induction false} RunInduction(s: State, steps: seq<Step>, allowed: (State, Step) -> bool, holds: State -> bool)
    requires holds(s)
    requires forall i :: 0 <= i < |steps| ==> allowed(Exec(s, steps[..i]), steps[i])
    requires forall t, step :: holds(t) && allowed(t, step) ==> holds(Apply(t, step))
    ensures holds(Exec(s, steps))
  {
    if steps != [] {
      var front := steps[..|steps| - 1];
      forall i | 0 <= i < |front| ensures allowed(Exec(s, front[..i]), front[i]) {
        assert front[..i] == steps[..i];
        assert allowed(Exec(s, steps[..i]), steps[i]);
      }
      RunInduction(s, front, allowed, holds);
      assert allowed(Exec(s, steps[..|front|]), steps[|front|]);
    }
  }

  lemma RunKeepsOwnership(s: State, steps: seq<Step>)
    requires Ownership(s)
    ensures Ownership(Exec(s, steps))
  {
    var allowed := (t: State, step: Step) => true;
    var holds := (t: State) => Ownership(t);
    forall t, step | holds(t) && allowed(t, step) ensures holds(Apply(t, step)) {
      StepKeepsOwnership(t, step);
    }
    RunInduction(s, steps, allowed, holds);
  }

  /** In every reachable state an actor is in at most one of the three maps, and under at most one
      name, so its death takes exactly one branch. */
  lemma OneOwner(retries: bool, steps: seq<Step>, id: ActorId)
    ensures
      var s := Exec(Empty(retries), steps);
      && !(id in s.pending && id in s.deletions)
      && !(id in s.pending && exists name :: Runs(s, name, id))
      && !(id in s.deletions && exists name :: Runs(s, name, id))
      && forall a, b :: Runs(s, a, id) && Runs(s, b, id) ==> a == b
  {
    var s := Exec(Empty(retries), steps);
    RunKeepsOwnership(Empty(retries), steps);
    forall name | Runs(s, name, id) ensures id !in s.pending && id !in s.deletions {
      assert ModuleOk(s, name);
    }
    forall a, b | Runs(s, a, id) && Runs(s, b, id) ensures a == b {
      OneModuleOfAnActor(s, a, b, id);
    }
  }

  lemma BurialCounts(s: State, id: ActorId, position: Option<nat>)
    requires Ownership(s) && id in s.notices
    ensures
      var next := Buried(s.(notices := s.notices - {id}), id, position);
      if exists name :: Runs(s, name, id) then next.failures == s.failures + [id] && id !in s.stopping
      else next.failures == s.failures
  {
    var taken := s.(notices := s.notices - {id});
    if name :| Runs(s, name, id) {
      assert ModuleOk(s, name);
      assert Runs(taken, name, id) && id !in s.pending && id !in s.deletions;
    } else {
      assert forall name :: Runs(taken, name, id) ==> Runs(s, name, id);
    }
  }

  lemma HandOverCountsNothing(s: State, name: string, p: Pending)
    ensures HandedOver(s, name, p).failures == s.failures
  {}

  lemma NoOtherStepCounts(s: State, step: Step)
    requires !(step.LinkDied? && step.id in s.notices)
    ensures Apply(s, step).failures == s.failures
  {
    match step
    case Load(name, version) => HandOverCountsNothing(s, name, Pending(version, false));
    case Reset(name, active) =>
      if active.Some? {
        HandOverCountsNothing(s, name, Pending(active.value, true));
      }
    case _ =>
  }

  /** An actor that was asked to stop, because its module was replaced, reset, deactivated or
      deleted, never counts as a failure; and only the death of an actor still on the modules
      does. */
  lemma StoppedIsNoFailure(retries: bool, steps: seq<Step>, step: Step)
    ensures
      var s := Exec(Empty(retries), steps);
      var next := Apply(s, step);
      if step.LinkDied? && step.id in s.notices && exists name :: Runs(s, name, step.id)
      then next.failures == s.failures + [step.id] && step.id !in s.stopping
      else next.failures == s.failures
  {
    var s := Exec(Empty(retries), steps);
    RunKeepsOwnership(Empty(retries), steps);
    if step.LinkDied? && step.id in s.notices {
      BurialCounts(s, step.id, step.position);
    } else {
      NoOtherStepCounts(s, step);
    }
  }

  // ---------- at most one actor of a module ----------

  /** `id` runs module `name` and is alive or has a successor waiting for it. */
  predicate Occupies(s: State, name: string, id: ActorId) {
    id in s.names && s.names[id] == name && (id in s.live || id in s.pending)
  }

  /** An actor of the module is on its way out: it is no longer the module's entry. */
  ghost predicate Departing(s: State, name: string) {
    exists id :: Occupies(s, name, id) && !(Runs(s, name, id))
  }

  /** One actor at most, and while one departs the module has no entry and no restart due. */
  ghost predicate Tidy(s: State, name: string) {
    && (forall a, b :: Occupies(s, name, a) && Occupies(s, name, b) ==> a == b)
    && (Departing(s, name) ==> name !in s.modules && name !in s.backoff)
  }

  /** No load of a module, nor a reset that finds an active version, arrives while an actor of it
      is on its way out. */
  ghost predicate Patient(s: State, step: Step) {
    step.Load? || (step.Reset? && step.active.Some?) ==> !Departing(s, step.name)
  }

  ghost predicate PatientRun(s: State, steps: seq<Step>) {
    forall i :: 0 <= i < |steps| ==> Patient(Exec(s, steps[..i]), steps[i])
  }

  lemma SpawnIsTidy(s: State, name: string, p: Pending, other: string)
    requires Ownership(s) && Tidy(s, other)
    requires other == name ==> forall id :: !Occupies(s, name, id)
    ensures Tidy(Spawned(s, name, p), other)
  {
    var next := Spawned(s, name, p);
    forall id | Occupies(next, other, id) ensures Occupies(s, other, id) || (other == name && id == s.nextId) {
      assert id in s.pending ==> WaitOk(s, id, s.pending[id].0);
    }
    assert other != name ==> forall id :: Runs(next, other, id) <==> Runs(s, other, id);
  }

  /** Nothing changes for a name whose actors, entry and restart are as before or fewer. */
  lemma SameIsTidy(s: State, next: State, name: string)
    requires Tidy(s, name)
    requires forall id :: Occupies(next, name, id) ==> Occupies(s, name, id)
    requires name in next.backoff ==> name in s.backoff
    requires if name in s.modules then name in next.modules && next.modules[name] == s.modules[name] else name !in next.modules
    ensures Tidy(next, name)
  {
    forall id | Occupies(next, name, id) && !Runs(next, name, id) ensures !Runs(s, name, id) {}
  }

  /** The entry goes; its actor, if there is one, is then on its way out. */
  lemma DroppedIsTidy(s: State, next: State, name: string)
    requires Tidy(s, name) && name !in next.modules && name !in next.backoff
    requires forall id :: Occupies(next, name, id) ==> Occupies(s, name, id)
    ensures Tidy(next, name)
  {}

  /** With no live entry and nobody on the way out, no actor of the module is left. */
  lemma NobodyHome(s: State, name: string)
    requires Ownership(s) && !LoadedAndLive(s, name) && !Departing(s, name)
    ensures forall id :: !Occupies(s, name, id)
  {
    assert name in s.modules ==> ModuleOk(s, name);
    forall id ensures !Occupies(s, name, id) {
      assert Occupies(s, name, id) ==> Runs(s, name, id);
      assert id in s.pending ==> WaitOk(s, id, s.pending[id].0);
    }
  }

  lemma HandOverIsTidy(s: State, name: string, p: Pending, other: string)
    requires Ownership(s) && Tidy(s, other) && (other == name ==> !Departing(s, name))
    ensures Tidy(HandedOver(s, name, p), other)
  {
    var next := HandedOver(s, name, p);
    if LoadedAndLive(s, name) {
      assert ModuleOk(s, name);
      if other == name {
        DroppedIsTidy(s, next, name);
      } else {
        SameIsTidy(s, next, other);
      }
    } else {
      var base := s.(backoff := s.backoff - {name}, modules := s.modules - {name});
      DropKeepsOwnership(s, name);
      if other == name {
        NobodyHome(s, name);
        DroppedIsTidy(s, base, name);
      } else {
        SameIsTidy(s, base, other);
      }
      SpawnIsTidy(base, name, p, other);
    }
  }

  lemma RestartIsTidy(s: State, name: string, version: nat, other: string)
    requires Ownership(s) && Tidy(s, other)
    ensures Tidy(Restarted(s, name, version), other)
  {
    if name in s.backoff && !LoadedAndLive(s, name) {
      if other == name {
        NobodyHome(s, name);
      }
      SpawnIsTidy(s, name, Pending(version, false), other);
    }
  }

  lemma FewerOccupy(s: State, next: State, name: string)
    requires next.names == s.names && next.live <= s.live
    requires forall id :: id in next.pending ==> id in s.pending
    ensures forall id :: Occupies(next, name, id) ==> Occupies(s, name, id)
  {}

  lemma DeactivateIsTidy(s: State, name: string, other: string)
    requires Tidy(s, other)
    ensures Tidy(Deactivated(s, name), other)
  {
    var next := Deactivated(s, name);
    FewerOccupy(s, next, other);
    if other == name {
      DroppedIsTidy(s, next, other);
    } else {
      SameIsTidy(s, next, other);
    }
  }

  lemma DeleteIsTidy(s: State, name: string, other: string)
    requires Tidy(s, other)
    ensures Tidy(Deleted(s, name), other)
  {
    var next := Deleted(s, name);
    FewerOccupy(s, next, other);
    if other == name {
      DroppedIsTidy(s, next, other);
    } else {
      SameIsTidy(s, next, other);
    }
  }

  lemma SuccessionIsTidy(s: State, id: ActorId, position: Option<nat>, other: string)
    requires Ownership(s) && id in s.notices && id in s.pending && Tidy(s, other)
    ensures Tidy(Buried(s.(notices := s.notices - {id}), id, position), other)
  {
    var (name, p) := s.pending[id];
    assert WaitOk(s, id, name);
    var base := s.(notices := s.notices - {id}, pending := s.pending - {id});
    SameIsTidy(s, base, other);
    assert Ownership(base) by {
      forall n | n in base.modules ensures ModuleOk(base, n) {
        assert ModuleOk(s, n);
      }
    }
    if other == name {
      assert Occupies(s, name, id);
      assert !Occupies(base, name, id);
    }
    SpawnIsTidy(base, name, p, other);
  }

  lemma FailureIsTidy(s: State, name: string, id: ActorId, position: Option<nat>, other: string)
    requires Ownership(s) && Runs(s, name, id) && Tidy(s, other) && id !in s.live
    ensures Tidy(Failed(s, name, id, position), other)
  {
    var next := Failed(s, name, id, position);
    assert ModuleOk(s, name);
    assert forall a :: Occupies(next, other, a) <==> Occupies(s, other, a);
    assert forall a :: Runs(next, other, a) <==> Runs(s, other, a);
  }

  lemma OwnDeathIsTidy(s: State, name: string, id: ActorId, position: Option<nat>, other: string)
    requires Ownership(s) && id in s.notices && id !in s.pending && id !in s.deletions && Runs(s, name, id) && Tidy(s, other)
    ensures Tidy(Failed(s.(notices := s.notices - {id}), name, id, position), other)
  {
    var taken := s.(notices := s.notices - {id});
    SameIsTidy(s, taken, other);
    TakenKeepsOwnership(s, id);
    assert s.pending - {id} == s.pending && s.deletions - {id} == s.deletions;
    FailureIsTidy(taken, name, id, position, other);
  }

  lemma BuryIsTidy(s: State, id: ActorId, position: Option<nat>, other: string)
    requires Ownership(s) && id in s.notices && Tidy(s, other)
    ensures Tidy(Buried(s.(notices := s.notices - {id}), id, position), other)
  {
    var taken := s.(notices := s.notices - {id});
    if id in s.pending {
      SuccessionIsTidy(s, id, position, other);
    } else if id !in s.deletions && exists name :: Runs(taken, name, id) {
      var name :| Runs(taken, name, id) && Buried(taken, id, position) == Failed(taken, name, id, position);
      OwnDeathIsTidy(s, name, id, position, other);
    } else {
      SameIsTidy(s, Buried(taken, id, position), other);
    }
  }

  lemma StepIsTidy(s: State, step: Step, other: string)
    requires Ownership(s) && Tidy(s, other) && Patient(s, step)
    ensures Tidy(Apply(s, step), other)
  {
    match step
    case Load(name, version) => HandOverIsTidy(s, name, Pending(version, false), other);
    case Reset(name, active) =>
      if active.Some? {
        HandOverIsTidy(s, name, Pending(active.value, true), other);
      }
    case Restart(name, version) => RestartIsTidy(s, name, version, other);
    case Deactivate(name) => DeactivateIsTidy(s, name, other);
    case Delete(name) => DeleteIsTidy(s, name, other);
    case Die(id) => SameIsTidy(s, Apply(s, step), other);
    case LinkDied(id, position) =>
      if id in s.notices {
        BuryIsTidy(s, id, position, other);
      }
  }

  lemma PatientPrefix(s: State, steps: seq<Step>, k: nat)
    requires PatientRun(s, steps) && k <= |steps|
    ensures PatientRun(s, steps[..k])
  {
    forall i | 0 <= i < k ensures Patient(Exec(s, steps[..k][..i]), steps[..k][i]) {
      assert steps[..k][..i] == steps[..i];
      assert Patient(Exec(s, steps[..i]), steps[i]);
    }
  }

  lemma PatientSnoc(s: State, steps: seq<Step>)
    requires steps != [] && PatientRun(s, steps[..|steps| - 1])
    requires Patient(Exec(s, steps[..|steps| - 1]), steps[|steps| - 1])
    ensures PatientRun(s, steps)
  {
    var front := steps[..|steps| - 1];
    forall i | 0 <= i < |steps| ensures Patient(Exec(s, steps[..i]), steps[i]) {
      if i < |front| {
        assert front[..i] == steps[..i];
        assert Patient(Exec(s, front[..i]), front[i]);
      }
    }
  }

  lemma PatientRunIsTidy(retries: bool, steps: seq<Step>, name: string)
    requires PatientRun(Empty(retries), steps)
    ensures Tidy(Exec(Empty(retries), steps), name)
  {
    var allowed := (t: State, step: Step) => Patient(t, step);
    var holds := (t: State) => Ownership(t) && Tidy(t, name);
    forall t, step | holds(t) && allowed(t, step) ensures holds(Apply(t, step)) {
      StepKeepsOwnership(t, step);
      StepIsTidy(t, step, name);
    }
    RunInduction(Empty(retries), steps, allowed, holds);
  }

  predicate LiveActor(s: State, name: string, id: ActorId) {
    id in s.live && id in s.names && s.names[id] == name
  }

  ghost predicate OneLiveActor(s: State, name: string) {
    forall a, b :: LiveActor(s, name, a) && LiveActor(s, name, b) ==> a == b
  }

  lemma TidyHasOneLiveActor(s: State, name: string)
    requires Tidy(s, name)
    ensures OneLiveActor(s, name)
  {
    forall a, b | LiveActor(s, name, a) && LiveActor(s, name, b) ensures a == b {
      assert Occupies(s, name, a) && Occupies(s, name, b);
    }
  }

  /** A hand-over, of a load or a reset, leaves at most one live actor exactly when no live actor
      of the module is off the modules. */
  lemma HandOverLeavesOneActorExactly(s: State, name: string, p: Pending)
    requires Ownership(s) && OneLiveActor(s, name)
    ensures OneLiveActor(HandedOver(s, name, p), name)
       <==> forall id :: LiveActor(s, name, id) ==> Runs(s, name, id)
  {
    var next := HandedOver(s, name, p);
    if LoadedAndLive(s, name) {
      assert ModuleOk(s, name);
      assert LiveActor(s, name, s.modules[name].id);
      forall id ensures LiveActor(s, name, id) <==> LiveActor(next, name, id) {}
    } else {
      assert name in s.modules ==> ModuleOk(s, name);
      assert LiveActor(next, name, s.nextId);
      forall id ensures LiveActor(s, name, id) <==> LiveActor(next, name, id) && id != s.nextId {}
    }
  }

  /** A hand-over beside a dead predecessor that still waits for its notice spawns at once, and
      the notice spawns a second actor of the module. */
  lemma DeadPredecessorSpawnsBeside(s: State, name: string, p: Pending, id: ActorId, position: Option<nat>)
    requires Ownership(s) && !LoadedAndLive(s, name)
    requires id in s.pending && s.pending[id].0 == name && id !in s.live
    ensures
      var next := HandedOver(s, name, p);
      && id in next.notices
      && !OneLiveActor(Apply(next, LinkDied(id, position)), name)
  {
    var next := HandedOver(s, name, p);
    assert WaitOk(s, id, name);
    var last := Apply(next, LinkDied(id, position));
    assert LiveActor(last, name, s.nextId) && LiveActor(last, name, s.nextId + 1);
  }

  /** At most one live actor of the module, now and whichever death is dealt with next. */
  ghost predicate OneActor(s: State, name: string) {
    && OneLiveActor(s, name)
    && forall id, position :: id in s.notices ==> OneLiveActor(Apply(s, LinkDied(id, position)), name)
  }

  lemma TidyHasOneActor(s: State, name: string)
    requires Ownership(s) && Tidy(s, name)
    ensures OneActor(s, name)
  {
    TidyHasOneLiveActor(s, name);
    forall id, position | id in s.notices ensures OneLiveActor(Apply(s, LinkDied(id, position)), name) {
      BuryIsTidy(s, id, position, name);
      TidyHasOneLiveActor(Apply(s, LinkDied(id, position)), name);
    }
  }

  /** From a tidy state a hand-over keeps to one actor exactly when no actor of the module is on
      its way out. */
  lemma PatienceIsExact(s: State, name: string, p: Pending)
    requires Ownership(s) && Tidy(s, name)
    ensures OneActor(HandedOver(s, name, p), name) <==> !Departing(s, name)
  {
    if !Departing(s, name) {
      HandOverIsTidy(s, name, p, name);
      HandOverKeepsOwnership(s, name, p);
      TidyHasOneActor(HandedOver(s, name, p), name);
    } else {
      var id :| Occupies(s, name, id) && !Runs(s, name, id);
      if id in s.live {
        TidyHasOneLiveActor(s, name);
        HandOverLeavesOneActorExactly(s, name, p);
        assert LiveActor(s, name, id);
      } else {
        assert WaitOk(s, id, s.pending[id].0);
        DeadPredecessorSpawnsBeside(s, name, p, id, None);
      }
    }
  }

  ghost predicate OneActorEach(s: State) {
    forall name :: OneActor(s, name)
  }

  lemma ImpatientStepSpawnsBeside(s: State, step: Step)
    requires Ownership(s) && (forall name :: Tidy(s, name)) && !Patient(s, step)
    ensures !OneActorEach(Apply(s, step))
  {
    var p := if step.Load? then Pending(step.version, false) else Pending(step.active.value, true);
    PatienceIsExact(s, step.name, p);
    assert Apply(s, step) == HandedOver(s, step.name, p);
    assert !OneActor(Apply(s, step), step.name);
  }

  /** After a patient run only a patient step keeps to one actor per module. */
  lemma NextStepIsPatient(retries: bool, front: seq<Step>, step: Step)
    requires PatientRun(Empty(retries), front)
    requires OneActorEach(Apply(Exec(Empty(retries), front), step))
    ensures Patient(Exec(Empty(retries), front), step)
  {
    var before := Exec(Empty(retries), front);
    RunKeepsOwnership(Empty(retries), front);
    forall name ensures Tidy(before, name) {
      PatientRunIsTidy(retries, front, name);
    }
    if !Patient(before, step) {
      ImpatientStepSpawnsBeside(before, step);
    }
  }

  /** A run that at every moment keeps to one actor per module is patient. */
  lemma {:induction false} OneActorRunIsPatient(retries: bool, steps: seq<Step>)
    requires forall k :: 0 <= k <= |steps| ==> OneActorEach(Exec(Empty(retries), steps[..k]))
    ensures PatientRun(Empty(retries), steps)
  {
    if steps != [] {
      var n := |steps| - 1;
      var front := steps[..n];
      forall k | 0 <= k <= n ensures OneActorEach(Exec(Empty(retries), front[..k])) {
        assert front[..k] == steps[..k];
      }
      OneActorRunIsPatient(retries, front);
      assert steps[..n + 1] == steps && OneActorEach(Exec(Empty(retries), steps[..n + 1]));
      NextStepIsPatient(retries, front, steps[n]);
      PatientSnoc(Empty(retries), steps);
    }
  }

  /** At most one live actor per module, exactly: at every moment of a run, and whichever death is
      dealt with next, if and only if no load of a module, and no reset that finds an active
      version, arrives in the run while an actor of the module is on its way out. */
  lemma AtMostOneLiveActorExactly(retries: bool, steps: seq<Step>)
    ensures (forall k :: 0 <= k <= |steps| ==> OneActorEach(Exec(Empty(retries), steps[..k])))
       <==> PatientRun(Empty(retries), steps)
  {
    if forall k :: 0 <= k <= |steps| ==> OneActorEach(Exec(Empty(retries), steps[..k])) {
      OneActorRunIsPatient(retries, steps);
    }
    if PatientRun(Empty(retries), steps) {
      forall k | 0 <= k <= |steps| ensures OneActorEach(Exec(Empty(retries), steps[..k])) {
        PatientPrefix(Empty(retries), steps, k);
        RunKeepsOwnership(Empty(retries), steps[..k]);
        forall name ensures OneActor(Exec(Empty(retries), steps[..k]), name) {
          PatientRunIsTidy(retries, steps[..k], name);
          TidyHasOneActor(Exec(Empty(retries), steps[..k]), name);
        }
      }
    }
  }

  /** Two reloads in a row: the second finds no entry and spawns beside the stopping actor. */
  lemma SecondReloadSpawnsBeside(retries: bool, name: string)
    ensures
      var s := Exec(Empty(retries), [Load(name, 1), Load(name, 2), Load(name, 3)]);
      && s.live == {0, 1} && Occupies(s, name, 0) && Occupies(s, name, 1) && 0 in s.pending && Runs(s, name, 1)
  {
    ExecThree(retries, Load(name, 1), Load(name, 2), Load(name, 3));
    var s1 := Spawned(Empty(retries), name, Pending(1, false));
    assert Apply(Empty(retries), Load(name, 1)) == s1;
    var s2 := Apply(s1, Load(name, 2));
    assert LoadedAndLive(s1, name);
    assert name !in s2.modules && s2.live == {0} && s2.names == map[0 := name] && s2.nextId == 1 && 0 in s2.pending;
  }

  lemma ExecSnoc(retries: bool, steps: seq<Step>, step: Step)
    ensures Exec(Empty(retries), steps + [step]) == Apply(Exec(Empty(retries), steps), step)
  {
    assert (steps + [step])[..|steps|] == steps;
  }

  lemma ExecThree(retries: bool, a: Step, b: Step, c: Step)
    ensures Exec(Empty(retries), [a, b, c]) == Apply(Apply(Apply(Empty(retries), a), b), c)
  {
    ExecSnoc(retries, [], a);
    ExecSnoc(retries, [a], b);
    ExecSnoc(retries, [a, b], c);
    assert [a, b] + [c] == [a, b, c];
    assert [a] + [b] == [a, b];
    assert [] + [a] == [a];
    assert Exec(Empty(retries), []) == Empty(retries);
  }

  /** A module's state files are removed only while no module is loaded under its name: at once
      when a deletion finds no live entry, otherwise when the death of the entry's actor is dealt
      with, and then only if the name was not taken again in between.  An actor of the name that is
      no longer its entry may still be alive then (`WipesUnderALiveActorExactly`). */
  lemma WipesOnlyUnloaded(retries: bool, steps: seq<Step>, step: Step)
    ensures
      var s := Exec(Empty(retries), steps);
      var next := Apply(s, step);
      && (next.wiped != s.wiped <==>
            || (step.Delete? && !LoadedAndLive(s, step.name))
            || (step.LinkDied? && step.id in s.notices && step.id in s.deletions && s.deletions[step.id] !in s.modules))
      && (next.wiped != s.wiped ==>
            |next.wiped| == |s.wiped| + 1 && next.wiped[|s.wiped|] !in next.modules)
  {
    RunKeepsOwnership(Empty(retries), steps);
    var s := Exec(Empty(retries), steps);
    if step.LinkDied? && step.id in s.notices {
      WipedByDeath(s, step.id, step.position);
    } else if step.Delete? {
      WipedByDelete(s, step.name);
    } else {
      WipedByNoOther(s, step);
    }
  }

  lemma WipedByDeath(s: State, id: ActorId, position: Option<nat>)
    requires Ownership(s) && id in s.notices
    ensures
      var next := Buried(s.(notices := s.notices - {id}), id, position);
      next.wiped == if id in s.deletions && s.deletions[id] !in s.modules then s.wiped + [s.deletions[id]] else s.wiped
    ensures id in s.deletions ==> Buried(s.(notices := s.notices - {id}), id, position).modules == s.modules
  {
    if id in s.pending {
      assert id !in s.deletions;
    }
  }

  lemma WipedByDelete(s: State, name: string)
    ensures Deleted(s, name).wiped == if LoadedAndLive(s, name) then s.wiped else s.wiped + [name]
    ensures name !in Deleted(s, name).modules
  {}

  lemma HandOverWipesNothing(s: State, name: string, p: Pending)
    ensures HandedOver(s, name, p).wiped == s.wiped
  {}

  lemma WipedByNoOther(s: State, step: Step)
    requires !step.Delete? && !(step.LinkDied? && step.id in s.notices)
    ensures Apply(s, step).wiped == s.wiped
  {
    match step
    case Load(name, version) => HandOverWipesNothing(s, name, Pending(version, false));
    case Reset(name, active) =>
      if active.Some? {
        HandOverWipesNothing(s, name, Pending(active.value, true));
      }
    case _ =>
  }

  /** State files of a name are removed while an actor of it is alive. */
  ghost predicate WipedUnderALiveActor(s: State, next: State) {
    |next.wiped| > |s.wiped| && exists id :: LiveActor(s, next.wiped[|s.wiped|], id)
  }

  /** In every reachable state, exactly when a step removes files of a name that still has a live
      actor: a deletion finds an actor of the name alive, but not as its entry; or the death of a
      deleted actor is dealt with while the name is not loaded and another actor of it is alive. */
  lemma WipesUnderALiveActorExactly(retries: bool, steps: seq<Step>, step: Step)
    ensures
      var s := Exec(Empty(retries), steps);
      WipedUnderALiveActor(s, Apply(s, step)) <==>
        || (step.Delete? && !LoadedAndLive(s, step.name) && exists id :: LiveActor(s, step.name, id))
        || (step.LinkDied? && step.id in s.notices && step.id in s.deletions && s.deletions[step.id] !in s.modules
            && exists id :: LiveActor(s, s.deletions[step.id], id))
  {
    RunKeepsOwnership(Empty(retries), steps);
    WipesOnlyUnloaded(retries, steps, step);
    var s := Exec(Empty(retries), steps);
    if step.LinkDied? && step.id in s.notices {
      WipedByDeath(s, step.id, step.position);
    } else if step.Delete? {
      WipedByDelete(s, step.name);
    }
  }

  /** The shortest such run: a deactivated module is deleted while its actor is still stopping. */
  lemma DeleteAfterDeactivateHitsAStoppingActor(retries: bool, name: string)
    ensures
      var s := Exec(Empty(retries), [Load(name, 1), Deactivate(name), Delete(name)]);
      s.wiped == [name] && s.live == {0} && LiveActor(s, name, 0) && 0 in s.stopping
  {
    ExecThree(retries, Load(name, 1), Deactivate(name), Delete(name));
    var s1 := Spawned(Empty(retries), name, Pending(1, false));
    assert Apply(Empty(retries), Load(name, 1)) == s1;
    var s2 := Apply(s1, Deactivate(name));
    assert name !in s2.modules && s2.live == {0} && s2.names == map[0 := name];
  }

  lemma DeletedAndDead(retries: bool, name: string)
    ensures
      var s := Exec(Empty(retries), [Load(name, 1), Delete(name), Die(0)]);
      && s.deletions == map[0 := name] && s.live == {} && s.notices == {0} && s.nextId == 1
      && s.modules == map[] && s.pending == map[] && s.wiped == []
  {
    ExecThree(retries, Load(name, 1), Delete(name), Die(0));
    var s1 := Spawned(Empty(retries), name, Pending(1, false));
    assert Apply(Empty(retries), Load(name, 1)) == s1;
    assert LoadedAndLive(s1, name);
  }

  /** The name can be taken again and given up again in between: then the late removal hits the
      files of an actor that is still stopping. */
  lemma LateWipeHitsAStoppingActor(retries: bool, name: string)
    ensures
      var s := Apply(Apply(Apply(Exec(Empty(retries), [Load(name, 1), Delete(name), Die(0)]), Load(name, 2)), Deactivate(name)),
                     LinkDied(0, None));
      s.wiped == [name] && s.live == {1} && 1 in s.names && s.names[1] == name
  {
    DeletedAndDead(retries, name);
    var s3 := Exec(Empty(retries), [Load(name, 1), Delete(name), Die(0)]);
    var s5 := Apply(Apply(s3, Load(name, 2)), Deactivate(name));
    assert s5.live == {1} && s5.names[1] == name && name !in s5.modules && s5.deletions == map[0 := name] && 0 !in s5.pending;
  }

  // ---------- activation ----------

  predicate RunsAt(s: State, name: string, version: nat) {
    LoadedAndLive(s, name) && s.modules[name].version == version
  }

  /** An activation: nothing is done when the module already runs at the version, otherwise the
      version is compiled and loaded. */
  function AfterActivation(s: State, name: string, version: nat): State {
    if RunsAt(s, name, version) then s else HandedOver(s, name, Pending(version, false))
  }

  /** An activation takes effect: the module runs at the version, or the actor of another version
      was asked to stop and the module runs at the new one as soon as that actor's death is dealt
      with. */
  lemma ActivationTakesEffect(s: State, name: string, version: nat, position: Option<nat>)
    requires Ownership(s)
    ensures
      var next := AfterActivation(s, name, version);
      || RunsAt(next, name, version)
      || (&& LoadedAndLive(s, name) && s.modules[name].id in next.live && s.modules[name].id in next.stopping
          && var id := s.modules[name].id;
             RunsAt(Apply(Apply(next, Die(id)), LinkDied(id, position)), name, version))
  {
    if LoadedAndLive(s, name) && !RunsAt(s, name, version) {
      var id := s.modules[name].id;
      var next := AfterActivation(s, name, version);
      assert ModuleOk(s, name);
      assert next.pending[id] == (name, Pending(version, false));
      var dead := Apply(next, Die(id));
      assert dead == next.(live := next.live - {id}, notices := next.notices + {id});
    }
  }

  // ---------- database resets ----------

  /** The database resets a step records, exactly: one of the module for a reset with an active version
      that finds no live entry, one for the death of a predecessor whose successor waits with a reset,
      and none for any other step. */
  lemma ResetsExactly(s: State, step: Step)
    requires Ownership(s)
    ensures Apply(s, step).resets == s.resets +
            if step.Reset? && step.active.Some? && !LoadedAndLive(s, step.name) then [step.name]
            else if step.LinkDied? && step.id in s.notices && step.id in s.pending && s.pending[step.id].1.resetDb
            then [s.pending[step.id].0] else []
  {
    match step
    case Load(name, version) => HandOverResets(s, name, Pending(version, false));
    case Reset(name, active) =>
      if active.Some? {
        HandOverResets(s, name, Pending(active.value, true));
      }
    case LinkDied(id, position) =>
      if id in s.notices {
        BurialResets(s, id, position);
      }
    case _ =>
  }

  lemma HandOverResets(s: State, name: string, p: Pending)
    ensures HandedOver(s, name, p).resets == s.resets + if p.resetDb && !LoadedAndLive(s, name) then [name] else []
  {}

  lemma BurialResets(s: State, id: ActorId, position: Option<nat>)
    ensures
      Buried(s.(notices := s.notices - {id}), id, position).resets
      == s.resets + if id in s.pending && s.pending[id].1.resetDb then [s.pending[id].0] else []
  {
    if id !in s.pending {
      QuietBurial(s.(notices := s.notices - {id}), id, position);
    }
  }

  /** Who waits after a hand-over: the successor of the live entry, and whoever waited before. */
  lemma HandOverWaits(s: State, name: string, p: Pending)
    ensures HandedOver(s, name, p).pending ==
            if LoadedAndLive(s, name) then s.pending[s.modules[name].id := (name, p)] else s.pending
  {}

  lemma BurialWaits(s: State, id: ActorId, position: Option<nat>)
    ensures Buried(s.(notices := s.notices - {id}), id, position).pending == s.pending - {id}
  {
    assert id !in s.pending ==> s.pending - {id} == s.pending;
  }

  /** Who waits for whose death, after each step: a load, and a reset with an active version, that find the
      module alive promise its actor a successor, at that version and with a database reset exactly if it
      was a reset; dealing with a death ends the wait for it; nothing else changes who waits. */
  lemma WaitingExactly(s: State, step: Step)
    ensures Apply(s, step).pending ==
            if step.Load? && LoadedAndLive(s, step.name)
            then s.pending[s.modules[step.name].id := (step.name, Pending(step.version, false))]
            else if step.Reset? && step.active.Some? && LoadedAndLive(s, step.name)
            then s.pending[s.modules[step.name].id := (step.name, Pending(step.active.value, true))]
            else if step.LinkDied? && step.id in s.notices then s.pending - {step.id}
            else s.pending
  {
    match step
    case Load(name, version) => HandOverWaits(s, name, Pending(version, false));
    case Reset(name, active) =>
      if active.Some? {
        HandOverWaits(s, name, Pending(active.value, true));
      }
    case LinkDied(id, position) =>
      if id in s.notices {
        BurialWaits(s, id, position);
      }
    case _ =>
  }

  /** And what waits goes on waiting until the death of the predecessor is dealt with. */
  lemma WaitsForItsDeath(s: State, steps: seq<Step>, id: ActorId)
    requires Ownership(s) && id in s.pending
    requires forall i :: 0 <= i < |steps| ==> !(steps[i].LinkDied? && steps[i].id == id)
    ensures id in Exec(s, steps).pending && Exec(s, steps).pending[id] == s.pending[id]
  {
    var waiting := s.pending[id];
    var allowed := (t: State, step: Step) => !(step.LinkDied? && step.id == id);
    var holds := (t: State) => Ownership(t) && id in t.pending && t.pending[id] == waiting;
    forall t, step | holds(t) && allowed(t, step) ensures holds(Apply(t, step)) {
      StepKeepsOwnership(t, step);
      KeepsWaiting(t, step, id);
    }
    RunInduction(s, steps, allowed, holds);
  }

  lemma KeepsWaiting(s: State, step: Step, id: ActorId)
    requires Ownership(s) && id in s.pending && !(step.LinkDied? && step.id == id)
    ensures id in Apply(s, step).pending && Apply(s, step).pending[id] == s.pending[id]
  {
    WaitingExactly(s, step);
    assert WaitOk(s, id, s.pending[id].0);
    if (step.Load? || step.Reset?) && step.name in s.modules {
      assert ModuleOk(s, step.name);
    }
  }

  // ---------- restarts ----------

  /** What a counted failure leaves behind: with retries, one more attempt of the module at the position
      found, and nothing else; without retries, no attempt at all. */
  lemma FailureIsBackedOff(s: State, name: string, id: ActorId, position: Option<nat>)
    requires Ownership(s) && id in s.notices && Runs(s, name, id)
    ensures
      var next := Apply(s, LinkDied(id, position));
      && next.failures == s.failures + [id] && next.modules == s.modules && next.live == s.live
      && (if s.retries then
            && name in next.backoff && next.backoff[name].lastFailed == position
            && next.backoff[name].attempt == (if name in s.backoff then s.backoff[name].attempt else 0) + 1
            && next.backoff - {name} == s.backoff - {name}
          else next.backoff == s.backoff)
  {
    assert ModuleOk(s, name);
    var taken := s.(notices := s.notices - {id});
    assert Runs(taken, name, id) && id !in s.pending && id !in s.deletions;
    forall other | Runs(taken, other, id) ensures other == name {
      assert Runs(s, other, id);
      OneModuleOfAnActor(s, other, name, id);
    }
    assert Buried(taken, id, position) == Failed(taken, name, id, position);
  }

  /** A restart runs the module again, at the version given and with its database kept, exactly when it is
      backing off and not alive; otherwise it changes nothing. */
  lemma RestartsExactly(s: State, name: string, version: nat)
    requires Ownership(s)
    ensures
      var next := Apply(s, Restart(name, version));
      if name in s.backoff && !LoadedAndLive(s, name)
      then RunsAt(next, name, version) && next.live == s.live + {s.nextId} && Runs(next, name, s.nextId) && next.resets == s.resets
      else next == s
  {}

  /** A module that failed, with retries, is running again after its restart. */
  lemma FailedModuleIsRestarted(s: State, name: string, id: ActorId, position: Option<nat>, version: nat)
    requires Ownership(s) && s.retries && id in s.notices && Runs(s, name, id)
    ensures RunsAt(Apply(Apply(s, LinkDied(id, position)), Restart(name, version)), name, version)
  {
    FailureIsBackedOff(s, name, id, position);
  }

  /** Without retries nothing ever backs off, so no restart ever runs. */
  lemma NoRetriesNoBackoff(steps: seq<Step>, name: string, version: nat)
    ensures
      var s := Exec(Empty(false), steps);
      s.backoff == map[] && Apply(s, Restart(name, version)) == s
  {
    var allowed := (t: State, step: Step) => true;
    var holds := (t: State) => !t.retries && t.backoff == map[];
    forall t, step | holds(t) && allowed(t, step) ensures holds(Apply(t, step)) {
      if step.LinkDied? && step.id in t.notices {
        BurialBacksOff(t, step.id, step.position);
      }
    }
    RunInduction(Empty(false), steps, allowed, holds);
  }

  lemma BurialBacksOff(s: State, id: ActorId, position: Option<nat>)
    requires !s.retries
    ensures
      var next := Buried(s.(notices := s.notices - {id}), id, position);
      next.backoff == s.backoff && next.retries == s.retries
  {
    var taken := s.(notices := s.notices - {id});
    if id !in s.pending && id !in s.deletions && exists name :: Runs(taken, name, id) {
      var name :| Runs(taken, name, id) && Buried(taken, id, position) == Failed(taken, name, id, position);
    }
  }

  // ---------- backoff ----------

  function Pow2(n: nat): nat {
    if n == 0 then 1 else 2 * Pow2(n - 1)
  }

  /** The entry after `n + 1` failures in a row at one position. */
  function FailedAgain(entry: Option<Backoff>, position: Option<nat>, n: nat): Backoff {
    if n == 0 then Backed(entry, position) else Backed(Some(FailedAgain(entry, position, n - 1)), position)
  }

  function Capped(delay: nat): nat {
    if delay <= MAX_DELAY then delay else MAX_DELAY
  }

  /** The delay after `n + 1` failures in a row at one position: the first one doubled `n` times,
      capped at ten minutes.  The first is one second at a new position, but two seconds for a
      module that has failed for the first time before any position was persisted. */
  lemma {:induction false} DelayDoubles(entry: Option<Backoff>, position: Option<nat>, n: nat)
    ensures FailedAgain(entry, position, n).lastFailed == position
    ensures FailedAgain(entry, position, n).delay == Capped(Backed(entry, position).delay * Pow2(n))
    ensures position != (if entry.Some? then entry.value.lastFailed else None)
            ==> FailedAgain(entry, position, n).delay == Capped(Pow2(n))
    ensures entry.None? && position.None? ==> FailedAgain(entry, position, n).delay == Capped(Pow2(n + 1))
    ensures FailedAgain(entry, position, n).attempt == (if entry.Some? then entry.value.attempt else 0) + n + 1
  {
    if n > 0 {
      DelayDoubles(entry, position, n - 1);
      DoubleCapped(Backed(entry, position).delay, Pow2(n - 1));
    }
  }

  lemma DoubleCapped(delay: nat, power: nat)
    ensures delay * (2 * power) == 2 * (delay * power)
    ensures Capped(Capped(delay * power) * 2) == Capped(delay * (2 * power))
  {}

  // ---------- the supervisor as an object ----------

  /** The actors around the supervisor. */
  class ActorSystem {
    var live: set<ActorId>
    var notices: set<ActorId>
    var names: map<ActorId, string>
    var stopping: set<ActorId>
    var nextId: ActorId

    constructor ()
      ensures live == {} && notices == {} && names == map[] && stopping == {} && nextId == 0
    {
      live, notices, names, stopping, nextId := {}, {}, map[], {}, 0;
    }

    method Spawn(name: string) returns (id: ActorId)
      modifies this
      ensures id == old(nextId) && nextId == id + 1
      ensures live == old(live) + {id} && names == old(names)[id := name]
      ensures notices == old(notices) && stopping == old(stopping)
    {
      id := nextId;
      live, names, nextId := live + {id}, names[id := name], id + 1;
    }

    method StopGracefully(id: ActorId)
      modifies `stopping
      ensures stopping == old(stopping) + {id}
    {
      stopping := stopping + {id};
    }
  }

  class ModuleSupervisor {
    const retries: bool
    const system: ActorSystem
    var modules: map<string, Loaded>
    var pending: map<ActorId, (string, Pending)>
    var pendingDeletions: map<ActorId, string>
    var backoff: map<string, Backoff>
    var failures: seq<ActorId>
    var wiped: seq<string>
    var resets: seq<string>

    function View(): State
      reads this, system
    {
      State(retries, modules, pending, pendingDeletions, backoff, system.live, system.notices, system.names, system.stopping,
            system.nextId, failures, wiped, resets)
    }

    constructor (retries: bool, system: ActorSystem)
      requires system.live == {} && system.notices == {} && system.names == map[] && system.stopping == {} && system.nextId == 0
      ensures this.system == system && View() == Empty(retries)
    {
      this.retries, this.system := retries, system;
      modules, pending, pendingDeletions, backoff := map[], map[], map[], map[];
      failures, wiped, resets := [], [], [];
    }

    method SpawnModule(name: string, p: Pending)
      modifies this, system
      ensures View() == Spawned(old(View()), name, p)
    {
      if p.resetDb {
        resets := resets + [name];
      }
      var id := system.Spawn(name);
      modules := modules[name := Loaded(id, p.version)];
    }

    method HandOver(name: string, p: Pending)
      modifies this, system
      ensures View() == HandedOver(old(View()), name, p)
    {
      backoff := backoff - {name};
      if name in modules {
        var predecessor := modules[name];
        modules := modules - {name};
        if predecessor.id in system.live {
          pending := pending[predecessor.id := (name, p)];
          system.StopGracefully(predecessor.id);
          return;
        }
      }
      assert modules == old(modules) - {name};
      SpawnModule(name, p);
    }

    /** Whether the version is to be compiled, which ends in a load: not when the module already
        runs at it. */
    method Activated(name: string, version: nat) returns (compile: bool)
      ensures AfterActivation(View(), name, version)
           == if compile then Apply(View(), Load(name, version)) else View()
      ensures !compile ==> RunsAt(View(), name, version)
    {
      compile := !(name in modules && modules[name].id in system.live && modules[name].version == version);
    }

    method LoadModule(name: string, version: nat)
      modifies this, system
      ensures View() == Apply(old(View()), Load(name, version))
    {
      HandOver(name, Pending(version, false));
    }

    method Reset(name: string, active: Option<nat>) returns (ok: bool)
      modifies this, system
      ensures View() == Apply(old(View()), Step.Reset(name, active)) && (ok <==> active.Some?)
    {
      if active.None? {
        return false;
      }
      HandOver(name, Pending(active.value, true));
      return true;
    }

    method RestartModule(name: string, version: nat)
      modifies this, system
      ensures View() == Apply(old(View()), Restart(name, version))
    {
      if name !in backoff {
        return;
      }
      if name in modules && modules[name].id in system.live {
        return;
      }
      SpawnModule(name, Pending(version, false));
    }

    method Deactivated(name: string)
      modifies this, system
      ensures View() == Apply(old(View()), Deactivate(name))
    {
      backoff := backoff - {name};
      if name in modules {
        var id := modules[name].id;
        modules := modules - {name};
        system.StopGracefully(id);
      }
      assert modules == old(modules) - {name};
    }

    method Deleted(name: string)
      modifies this, system
      ensures View() == Apply(old(View()), Delete(name))
    {
      backoff := backoff - {name};
      if name in modules {
        var id := modules[name].id;
        modules := modules - {name};
        if id in system.live {
          pendingDeletions := pendingDeletions[id := name];
          system.StopGracefully(id);
          return;
        }
      }
      assert modules == old(modules) - {name};
      wiped := wiped + [name];
    }

    /** The name, if any, whose entry points to the actor. */
    method FindModule(id: ActorId) returns (found: Option<string>)
      ensures found.Some? ==> Runs(View(), found.value, id)
      ensures found.None? ==> forall name :: !Runs(View(), name, id)
    {
      var rest := modules.Keys;
      while rest != {}
        invariant rest <= modules.Keys
        invariant forall name :: name in modules && name !in rest ==> modules[name].id != id
        decreases rest
      {
        var name :| name in rest;
        if modules[name].id == id {
          return Some(name);
        }
        rest := rest - {name};
      }
      return None;
    }

    /** A module that died on its own. */
    method RecordFailure(name: string, id: ActorId, position: Option<nat>)
      modifies this`failures, this`backoff
      ensures View() == Failed(old(View()), name, id, position)
    {
      failures := failures + [id];
      if retries {
        var entry := if name in backoff then Some(backoff[name]) else None;
        backoff := backoff[name := Backed(entry, position)];
      }
    }

    /** What is left of a death that nobody waited for. */
    method CheckFailure(id: ActorId, position: Option<nat>)
      requires id !in pending && id !in pendingDeletions
      requires forall a, b :: Runs(View(), a, id) && Runs(View(), b, id) ==> a == b
      modifies this`failures, this`backoff
      ensures View() == Buried(old(View()), id, position)
    {
      var found := FindModule(id);
      if found.Some? {
        RecordFailure(found.value, id, position);
      }
    }

    /** A death whose notice has been taken. */
    method Bury(id: ActorId, position: Option<nat>)
      requires !(id in pending && id in pendingDeletions)
      requires forall a, b :: Runs(View(), a, id) && Runs(View(), b, id) ==> a == b
      modifies this, system
      ensures View() == Buried(old(View()), id, position)
    {
      if id in pending {
        var (name, p) := pending[id];
        pending := pending - {id};
        SpawnModule(name, p);
      } else if id in pendingDeletions {
        var name := pendingDeletions[id];
        pendingDeletions := pendingDeletions - {id};
        if name !in modules {
          wiped := wiped + [name];
        }
      } else {
        CheckFailure(id, position);
      }
    }

    /** The notice of a death, with the position found in the module's database. */
    method OnLinkDied(id: ActorId, position: Option<nat>)
      requires Ownership(View()) && id in system.notices
      modifies this, system
      ensures View() == Apply(old(View()), LinkDied(id, position))
    {
      ghost var was := View();
      system.notices := system.notices - {id};
      forall a, b | Runs(View(), a, id) && Runs(View(), b, id) ensures a == b {
        OneModuleOfAnActor(was, a, b, id);
      }
      Bury(id, position);
    }
  }
}

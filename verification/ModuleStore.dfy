/** The module store: module rows, which row is active for a module, and environment variables.
    Row ids are the database's to choose and may be used again after a deletion. */
module ModuleStore {
  import opened Prelude

  datatype Kind = CommandModule | ProjectorModule | EffectModule

  datatype Name = Name(kind: Kind, name: string)

  datatype Row = Row(owner: Name, version: string, bytes: string, hash: string)

  type Rows = map<nat, Row>

  datatype Tables = Tables(modules: Rows, active: map<Name, nat>, env: map<(Name, string), string>)

  datatype StoreError = InvalidName | ExistsWithSameHash | AlreadyExists | NotFound | CannotDeleteActive | Integrity

  datatype Op =
    | Save(owner: Name, version: string, env: map<string, string>, bytes: string, id: nat)
    | Activate(owner: Name, version: string)
    | Deactivate(owner: Name)
    | DeleteVersion(owner: Name, version: string)
    | DeleteModule(owner: Name)
    | SetEnv(owner: Name, key: string, value: string)
    | DeleteEnv(owner: Name, key: string)

  predicate IsValidName(name: string) {
    name != [] && forall c :: c in name ==> 'a' <= c <= 'z' || '0' <= c <= '9' || c == '-'
  }

  /** The row of a version, if there is one. */
  ghost predicate IsRowOf(modules: Rows, owner: Name, version: string, id: nat) {
    id in modules && modules[id].owner == owner && modules[id].version == version
  }

  ghost predicate HasVersion(modules: Rows, owner: Name, version: string) {
    exists id :: IsRowOf(modules, owner, version, id)
  }

  ghost function RowOf(modules: Rows, owner: Name, version: string): (id: nat)
    requires HasVersion(modules, owner, version)
    ensures IsRowOf(modules, owner, version, id)
  {
    var id :| IsRowOf(modules, owner, version, id);
    id
  }

  // ---------- what each operation does ----------

  function EnvRows(owner: Name, env: map<string, string>): map<(Name, string), string> {
    map row: (Name, string) | row in (set key | key in env :: (owner, key)) :: env[row.1]
  }

  ghost function SaveError(sha256: string -> string, t: Tables, op: Op): Option<StoreError>
    requires op.Save?
  {
    if !IsValidName(op.owner.name) then Some(InvalidName)
    else if !HasVersion(t.modules, op.owner, op.version) then None
    else if t.modules[RowOf(t.modules, op.owner, op.version)].hash == sha256(op.bytes) then Some(ExistsWithSameHash)
    else Some(AlreadyExists)
  }

  ghost function Apply(sha256: string -> string, t: Tables, op: Op): Tables {
    match op
    case Save(owner, version, env, bytes, id) =>
      if SaveError(sha256, t, op).Some? || id in t.modules then t
      else t.(modules := t.modules[id := Row(owner, version, bytes, sha256(bytes))], env := t.env + EnvRows(owner, env))
    case Activate(owner, version) =>
      if HasVersion(t.modules, owner, version) then t.(active := t.active[owner := RowOf(t.modules, owner, version)]) else t
    case Deactivate(owner) => t.(active := t.active - {owner})
    case DeleteVersion(owner, version) =>
      if HasVersion(t.modules, owner, version) && RowOf(t.modules, owner, version) !in t.active.Values
      then t.(modules := t.modules - {RowOf(t.modules, owner, version)}) else t
    case DeleteModule(owner) =>
      Tables(map id | id in t.modules && t.modules[id].owner != owner :: t.modules[id],
             t.active - {owner},
             map row | row in t.env && row.0 != owner :: t.env[row])
    case SetEnv(owner, key, value) => t.(env := t.env[(owner, key) := value])
    case DeleteEnv(owner, key) => t.(env := t.env - {(owner, key)})
  }

  ghost function Exec(sha256: string -> string, t: Tables, ops: seq<Op>): Tables {
    if ops == [] then t else Apply(sha256, Exec(sha256, t, ops[..|ops| - 1]), ops[|ops| - 1])
  }

  function Empty(): Tables {
    Tables(map[], map[], map[])
  }

  // ---------- integrity ----------

  ghost predicate UniqueVersions(modules: Rows) {
    forall i, j :: i in modules && j in modules && modules[i].owner == modules[j].owner && modules[i].version == modules[j].version
      ==> i == j
  }

  /** Every active row points to an existing module of the same type and name. */
  ghost predicate ActiveStands(t: Tables) {
    forall owner :: owner in t.active ==> t.active[owner] in t.modules && t.modules[t.active[owner]].owner == owner
  }

  ghost predicate Valid(sha256: string -> string, t: Tables) {
    && UniqueVersions(t.modules)
    && ActiveStands(t)
    && forall id :: id in t.modules ==> t.modules[id].hash == sha256(t.modules[id].bytes) && IsValidName(t.modules[id].owner.name)
  }

  lemma SaveKeepsValid(sha256: string -> string, t: Tables, op: Op)
    requires Valid(sha256, t) && op.Save?
    ensures Valid(sha256, Apply(sha256, t, op))
  {
    var next := Apply(sha256, t, op);
    var owner, version := op.owner, op.version;
    if next != t {
      forall i, j | i in next.modules && j in next.modules && next.modules[i].owner == next.modules[j].owner
                    && next.modules[i].version == next.modules[j].version
        ensures i == j
      {
        assert i in t.modules && t.modules[i].owner == owner && t.modules[i].version == version
               ==> IsRowOf(t.modules, owner, version, i);
        assert j in t.modules && t.modules[j].owner == owner && t.modules[j].version == version
               ==> IsRowOf(t.modules, owner, version, j);
      }
    }
  }

  lemma DeleteVersionKeepsValid(sha256: string -> string, t: Tables, op: Op)
    requires Valid(sha256, t) && op.DeleteVersion?
    ensures Valid(sha256, Apply(sha256, t, op))
  {
    var next := Apply(sha256, t, op);
    forall owner | owner in next.active ensures next.active[owner] in next.modules {
      assert t.active[owner] in t.active.Values;
    }
  }

  lemma StepKeepsValid(sha256: string -> string, t: Tables, op: Op)
    requires Valid(sha256, t)
    ensures Valid(sha256, Apply(sha256, t, op))
  {
    match op
    case Save(_, _, _, _, _) => SaveKeepsValid(sha256, t, op);
    case DeleteVersion(_, _) => DeleteVersionKeepsValid(sha256, t, op);
    case _ =>
  }

  /** Over every sequence of operations, with row ids used again or not, every active row points to
      an existing module of its own type and name, a module has each version at most once, and
      every stored hash is the hash of the stored bytes. */
  lemma {:induction false} IntegrityHolds(sha256: string -> string, ops: seq<Op>)
    ensures Valid(sha256, Exec(sha256, Empty(), ops))
  {
    if ops != [] {
      IntegrityHolds(sha256, ops[..|ops| - 1]);
      StepKeepsValid(sha256, Exec(sha256, Empty(), ops[..|ops| - 1]), ops[|ops| - 1]);
    }
  }

  /** A whole-module delete leaves no row of any kind for the name, and every row of every other
      name as it was. */
  lemma WholeDeleteIsExact(sha256: string -> string, ops: seq<Op>, owner: Name)
    ensures
      var t := Exec(sha256, Empty(), ops);
      var next := Apply(sha256, t, DeleteModule(owner));
      && (forall id :: id in next.modules <==> id in t.modules && t.modules[id].owner != owner)
      && (forall id :: id in next.modules ==> next.modules[id] == t.modules[id])
      && (forall o :: o in next.active <==> o in t.active && o != owner)
      && (forall o :: o in next.active ==> next.active[o] == t.active[o] && next.active[o] in next.modules)
      && (forall row :: row in next.env <==> row in t.env && row.0 != owner)
      && (forall row :: row in next.env ==> next.env[row] == t.env[row])
  {
    IntegrityHolds(sha256, ops);
  }

  /** A save either goes through whole, module row and variables, or changes nothing; and it goes
      through exactly when the name is valid and the version is new. */
  lemma SaveIsAllOrNothing(sha256: string -> string, t: Tables, op: Op)
    requires op.Save? && op.id !in t.modules
    ensures
      var next := Apply(sha256, t, op);
      if IsValidName(op.owner.name) && !HasVersion(t.modules, op.owner, op.version) then
        && IsRowOf(next.modules, op.owner, op.version, op.id) && next.modules[op.id].bytes == op.bytes
        && next.modules - {op.id} == t.modules && next.active == t.active
        && (forall key :: key in op.env ==> (op.owner, key) in next.env && next.env[(op.owner, key)] == op.env[key])
        && (forall row :: row !in EnvRows(op.owner, op.env) ==>
              (row in next.env <==> row in t.env) && (row in t.env ==> next.env[row] == t.env[row]))
      else next == t
  {
    var next := Apply(sha256, t, op);
    if IsValidName(op.owner.name) && !HasVersion(t.modules, op.owner, op.version) {
      assert (t.modules[op.id := Row(op.owner, op.version, op.bytes, sha256(op.bytes))]) - {op.id} == t.modules;
      forall key | key in op.env
        ensures (op.owner, key) in next.env && next.env[(op.owner, key)] == op.env[key]
      {
        assert (op.owner, key) in EnvRows(op.owner, op.env);
      }
    }
  }

  // ---------- what is read back ----------

  /** `Err` when the bytes do not hash to the stored hash. */
  ghost function Loaded(
      sha256: string -> string, t: Tables, owner: Name, version: string): Result<Option<(string, string)>, StoreError> {
    if !HasVersion(t.modules, owner, version) then Ok(None)
    else
      var row := t.modules[RowOf(t.modules, owner, version)];
      if row.hash != sha256(row.bytes) then Err(Integrity) else Ok(Some((row.bytes, row.hash)))
  }

  /** The active version: the join of the two tables on the row id. */
  function GetActive(t: Tables, owner: Name): Option<(string, string)> {
    if owner in t.active && t.active[owner] in t.modules
    then Some((t.modules[t.active[owner]].version, t.modules[t.active[owner]].bytes)) else None
  }

  predicate Removes(op: Op, owner: Name, version: string) {
    (op.DeleteModule? && op.owner == owner) || (op.DeleteVersion? && op.owner == owner && op.version == version)
  }

  predicate Reactivates(op: Op, owner: Name) {
    (op.Activate? || op.Deactivate? || op.DeleteModule?) && op.owner == owner
  }

  lemma RowIsUnique(t: Tables, owner: Name, version: string, id: nat)
    requires UniqueVersions(t.modules) && IsRowOf(t.modules, owner, version, id)
    ensures HasVersion(t.modules, owner, version) && RowOf(t.modules, owner, version) == id
  {}

  lemma StepKeepsRow(sha256: string -> string, t: Tables, op: Op, owner: Name, version: string, id: nat)
    requires Valid(sha256, t) && IsRowOf(t.modules, owner, version, id) && !Removes(op, owner, version)
    ensures
      var next := Apply(sha256, t, op);
      IsRowOf(next.modules, owner, version, id) && next.modules[id] == t.modules[id]
  {
    if op.DeleteVersion? && HasVersion(t.modules, op.owner, op.version) {
      assert IsRowOf(t.modules, op.owner, op.version, RowOf(t.modules, op.owner, op.version));
    }
  }

  lemma {:induction false} RunKeepsRow(
      sha256: string -> string, t: Tables, ops: seq<Op>, owner: Name, version: string, id: nat)
    requires Valid(sha256, t) && IsRowOf(t.modules, owner, version, id)
    requires forall i :: 0 <= i < |ops| ==> !Removes(ops[i], owner, version)
    ensures
      var end := Exec(sha256, t, ops);
      Valid(sha256, end) && IsRowOf(end.modules, owner, version, id) && end.modules[id] == t.modules[id]
  {
    if ops != [] {
      var front := ops[..|ops| - 1];
      RunKeepsRow(sha256, t, front, owner, version, id);
      StepKeepsRow(sha256, Exec(sha256, t, front), ops[|ops| - 1], owner, version, id);
      StepKeepsValid(sha256, Exec(sha256, t, front), ops[|ops| - 1]);
    }
  }

  /** What was saved is loaded back unchanged after any operations that do not delete it: other
      saves of the same version cannot replace it, and its integrity check never fails. */
  lemma SavedIsLoaded(sha256: string -> string, before: seq<Op>, op: Op, after: seq<Op>)
    requires op.Save? && op.id !in Exec(sha256, Empty(), before).modules
    requires SaveError(sha256, Exec(sha256, Empty(), before), op).None?
    requires forall i :: 0 <= i < |after| ==> !Removes(after[i], op.owner, op.version)
    ensures
      var saved := Apply(sha256, Exec(sha256, Empty(), before), op);
      Loaded(sha256, Exec(sha256, saved, after), op.owner, op.version) == Ok(Some((op.bytes, sha256(op.bytes))))
  {
    var t := Exec(sha256, Empty(), before);
    var saved := Apply(sha256, t, op);
    IntegrityHolds(sha256, before);
    StepKeepsValid(sha256, t, op);
    assert IsRowOf(saved.modules, op.owner, op.version, op.id);
    RunKeepsRow(sha256, saved, after, op.owner, op.version, op.id);
    RowIsUnique(Exec(sha256, saved, after), op.owner, op.version, op.id);
  }

  lemma StepKeepsActive(sha256: string -> string, t: Tables, op: Op, owner: Name)
    requires Valid(sha256, t) && owner in t.active && !Reactivates(op, owner)
    ensures
      var next := Apply(sha256, t, op);
      owner in next.active && next.active[owner] == t.active[owner] && GetActive(next, owner) == GetActive(t, owner)
  {
    assert t.active[owner] in t.active.Values;
  }

  lemma {:induction false} RunKeepsActive(sha256: string -> string, t: Tables, ops: seq<Op>, owner: Name)
    requires Valid(sha256, t) && owner in t.active
    requires forall i :: 0 <= i < |ops| ==> !Reactivates(ops[i], owner)
    ensures
      var end := Exec(sha256, t, ops);
      Valid(sha256, end) && owner in end.active && GetActive(end, owner) == GetActive(t, owner)
  {
    if ops != [] {
      var front := ops[..|ops| - 1];
      RunKeepsActive(sha256, t, front, owner);
      StepKeepsActive(sha256, Exec(sha256, t, front), ops[|ops| - 1], owner);
      StepKeepsValid(sha256, Exec(sha256, t, front), ops[|ops| - 1]);
    }
  }

  /** An activated version stays the active one, with the bytes it was saved with, until the
      module is activated, deactivated or deleted again: its row cannot be deleted meanwhile. */
  lemma ActivatedStaysActive(sha256: string -> string, before: seq<Op>, owner: Name, version: string, after: seq<Op>)
    requires HasVersion(Exec(sha256, Empty(), before).modules, owner, version)
    requires forall i :: 0 <= i < |after| ==> !Reactivates(after[i], owner)
    ensures
      var t := Exec(sha256, Empty(), before);
      var end := Exec(sha256, Apply(sha256, t, Activate(owner, version)), after);
      && Loaded(sha256, t, owner, version).Ok? && Loaded(sha256, t, owner, version).value.Some?
      && GetActive(end, owner) == Some((version, Loaded(sha256, t, owner, version).value.value.0))
  {
    var t := Exec(sha256, Empty(), before);
    IntegrityHolds(sha256, before);
    StepKeepsValid(sha256, t, Activate(owner, version));
    RunKeepsActive(sha256, Apply(sha256, t, Activate(owner, version)), after, owner);
  }

  // ---------- variables, deactivation, deletion of a version ----------

  /** The operation sets, replaces or removes the variable. */
  predicate Touches(op: Op, owner: Name, key: string) {
    match op
    case SetEnv(o, k, _) => o == owner && k == key
    case DeleteEnv(o, k) => o == owner && k == key
    case DeleteModule(o) => o == owner
    case Save(o, _, env, _, _) => o == owner && key in env
    case _ => false
  }

  /** The value of a variable, if it is set. */
  function VarOf(t: Tables, owner: Name, key: string): Option<string> {
    if (owner, key) in t.env then Some(t.env[(owner, key)]) else None
  }

  lemma StepKeepsVar(sha256: string -> string, t: Tables, op: Op, owner: Name, key: string)
    requires !Touches(op, owner, key)
    ensures VarOf(Apply(sha256, t, op), owner, key) == VarOf(t, owner, key)
  {}

  lemma {:induction false} RunKeepsVar(sha256: string -> string, t: Tables, ops: seq<Op>, owner: Name, key: string)
    requires forall i :: 0 <= i < |ops| ==> !Touches(ops[i], owner, key)
    ensures VarOf(Exec(sha256, t, ops), owner, key) == VarOf(t, owner, key)
  {
    if ops != [] {
      var front := ops[..|ops| - 1];
      RunKeepsVar(sha256, t, front, owner, key);
      StepKeepsVar(sha256, Exec(sha256, t, front), ops[|ops| - 1], owner, key);
    }
  }

  /** A variable that was set has its value, and one that was deleted has none, after any operations
      that do not set, replace or remove it. */
  lemma VariablesAreReadBack(sha256: string -> string, t: Tables, owner: Name, key: string, value: string, after: seq<Op>)
    requires forall i :: 0 <= i < |after| ==> !Touches(after[i], owner, key)
    ensures VarOf(Exec(sha256, Apply(sha256, t, SetEnv(owner, key, value)), after), owner, key) == Some(value)
    ensures VarOf(Exec(sha256, Apply(sha256, t, DeleteEnv(owner, key)), after), owner, key) == None
  {
    RunKeepsVar(sha256, Apply(sha256, t, SetEnv(owner, key, value)), after, owner, key);
    RunKeepsVar(sha256, Apply(sha256, t, DeleteEnv(owner, key)), after, owner, key);
  }

  /** A deactivated module has no active version until it is activated again, and the deactivation
      changes no other module's and no stored version. */
  lemma DeactivatedStaysInactive(sha256: string -> string, t: Tables, owner: Name, other: Name, after: seq<Op>)
    requires forall i :: 0 <= i < |after| ==> !(after[i].Activate? && after[i].owner == owner)
    ensures
      var next := Apply(sha256, t, Deactivate(owner));
      && GetActive(Exec(sha256, next, after), owner) == None
      && (other != owner ==> GetActive(next, other) == GetActive(t, other))
      && next.modules == t.modules && next.env == t.env
  {
    RunStaysInactive(sha256, Apply(sha256, t, Deactivate(owner)), owner, after);
  }

  lemma {:induction false} RunStaysInactive(sha256: string -> string, t: Tables, owner: Name, ops: seq<Op>)
    requires owner !in t.active
    requires forall i :: 0 <= i < |ops| ==> !(ops[i].Activate? && ops[i].owner == owner)
    ensures owner !in Exec(sha256, t, ops).active
  {
    if ops != [] {
      var front := ops[..|ops| - 1];
      RunStaysInactive(sha256, t, owner, front);
      StepStaysInactive(sha256, Exec(sha256, t, front), ops[|ops| - 1], owner);
    }
  }

  lemma StepStaysInactive(sha256: string -> string, t: Tables, op: Op, owner: Name)
    requires owner !in t.active && !(op.Activate? && op.owner == owner)
    ensures owner !in Apply(sha256, t, op).active
  {}

  /** In every reachable state the deletion of a version removes it, and nothing else, if it is stored and
      not the active one; otherwise it changes nothing. */
  lemma VersionDeleteIsExact(sha256: string -> string, ops: seq<Op>, owner: Name, version: string)
    ensures
      var t := Exec(sha256, Empty(), ops);
      var next := Apply(sha256, t, DeleteVersion(owner, version));
      if Loaded(sha256, t, owner, version) != Ok(None)
         && (GetActive(t, owner).Some? ==> GetActive(t, owner).value.0 != version)
      then
        && Loaded(sha256, next, owner, version) == Ok(None)
        && next.active == t.active && next.env == t.env
        && (forall o, v :: (o, v) != (owner, version) ==> Loaded(sha256, next, o, v) == Loaded(sha256, t, o, v))
      else next == t
  {
    var t := Exec(sha256, Empty(), ops);
    IntegrityHolds(sha256, ops);
    if HasVersion(t.modules, owner, version) {
      var id := RowOf(t.modules, owner, version);
      if owner in t.active && t.modules[t.active[owner]].version == version {
        RowIsUnique(t, owner, version, t.active[owner]);
        assert t.active[owner] in t.active.Values;
      }
      if id in t.active.Values {
        var o :| o in t.active && t.active[o] == id;
        assert o == owner;
      } else {
        var next := Apply(sha256, t, DeleteVersion(owner, version));
        forall i ensures !IsRowOf(next.modules, owner, version, i) {
          if IsRowOf(next.modules, owner, version, i) {
            RowIsUnique(t, owner, version, i);
          }
        }
        forall o, v | (o, v) != (owner, version) ensures Loaded(sha256, next, o, v) == Loaded(sha256, t, o, v) {
          OtherRowsLoad(sha256, t, id, o, v);
        }
      }
    }
  }

  lemma OtherRowsLoad(sha256: string -> string, t: Tables, id: nat, owner: Name, version: string)
    requires UniqueVersions(t.modules) && !IsRowOf(t.modules, owner, version, id)
    ensures Loaded(sha256, t.(modules := t.modules - {id}), owner, version) == Loaded(sha256, t, owner, version)
  {
    var rest := t.modules - {id};
    if HasVersion(t.modules, owner, version) {
      var i := RowOf(t.modules, owner, version);
      assert IsRowOf(rest, owner, version, i);
      assert IsRowOf(t.modules, owner, version, RowOf(rest, owner, version));
    } else {
      forall i ensures !IsRowOf(rest, owner, version, i) {
        assert !IsRowOf(t.modules, owner, version, i);
      }
    }
  }

  // ---------- the store as an object ----------

  class SqliteModuleStore {
    const sha256: string -> string
    var modules: Rows
    var active: map<Name, nat>
    var env: map<(Name, string), string>

    function View(): Tables
      reads this
    {
      Tables(modules, active, env)
    }

    constructor (sha256: string -> string)
      ensures this.sha256 == sha256 && View() == Empty()
    {
      this.sha256 := sha256;
      modules, active, env := map[], map[], map[];
    }

    method FindRow(owner: Name, version: string) returns (id: Option<nat>)
      ensures id.Some? ==> IsRowOf(modules, owner, version, id.value)
      ensures id.None? ==> !HasVersion(modules, owner, version)
    {
      var rest := modules.Keys;
      while rest != {}
        invariant rest <= modules.Keys
        invariant forall i :: IsRowOf(modules, owner, version, i) ==> i in rest
        decreases rest
      {
        var i :| i in rest;
        if modules[i].owner == owner && modules[i].version == version {
          return Some(i);
        }
        rest := rest - {i};
      }
      return None;
    }

    /** The variables as they will be when the transaction commits. */
    method StageEnv(owner: Name, vars: map<string, string>) returns (staged: map<(Name, string), string>)
      ensures staged == env + EnvRows(owner, vars)
    {
      staged := env;
      var rest := vars.Keys;
      assert vars - rest == map[] && env + EnvRows(owner, map[]) == env;
      while rest != {}
        invariant rest <= vars.Keys
        invariant staged == env + EnvRows(owner, vars - rest)
        decreases rest
      {
        var key :| key in rest;
        StageOne(env, owner, vars, rest, key);
        staged := staged[(owner, key) := vars[key]];
        rest := rest - {key};
      }
      assert vars - rest == vars;
    }

    /** The row id is the database's choice among the free ones. */
    method SaveModule(
        owner: Name, version: string, vars: map<string, string>, bytes: string, id: nat) returns (r: Result<(), StoreError>)
      requires Valid(sha256, View()) && id !in modules
      modifies this
      ensures Valid(sha256, View())
      ensures View() == Apply(sha256, old(View()), Save(owner, version, vars, bytes, id))
      ensures r == match SaveError(sha256, old(View()), Save(owner, version, vars, bytes, id))
                   case None => Ok(())
                   case Some(e) => Err(e)
      ensures r == Err(InvalidName) <==>
                owner.name == "" || exists c :: c in owner.name && !('a' <= c <= 'z' || '0' <= c <= '9' || c == '-')
      ensures r == Err(ExistsWithSameHash) || r == Err(AlreadyExists) ==>
                exists i :: IsRowOf(old(modules), owner, version, i)
                            && (r == Err(ExistsWithSameHash) <==> old(modules)[i].hash == sha256(bytes))
    {
      SaveKeepsValid(sha256, View(), Save(owner, version, vars, bytes, id));
      if !IsValidName(owner.name) {
        return Err(InvalidName);
      }
      var existing := FindRow(owner, version);
      var staged := StageEnv(owner, vars);
      if existing.Some? {
        RowIsUnique(View(), owner, version, existing.value);
        return Err(if modules[existing.value].hash == sha256(bytes) then ExistsWithSameHash else AlreadyExists);
      }
      modules, env := modules[id := Row(owner, version, bytes, sha256(bytes))], staged;
      return Ok(());
    }

    /** Never hands out bytes that do not hash to the stored hash, even if the table was tampered with;
        on tables that only this store has written there are none such. */
    method LoadModule(owner: Name, version: string) returns (r: Result<Option<(string, string)>, StoreError>)
      requires UniqueVersions(modules)
      ensures r == Loaded(sha256, View(), owner, version)
      ensures r == Ok(None) <==> !exists i :: IsRowOf(modules, owner, version, i)
      ensures forall i :: IsRowOf(modules, owner, version, i) ==>
                r == if modules[i].hash == sha256(modules[i].bytes) then Ok(Some((modules[i].bytes, modules[i].hash)))
                     else Err(Integrity)
      ensures Valid(sha256, View()) ==> r.Ok?
    {
      var id := FindRow(owner, version);
      if id.None? {
        return Ok(None);
      }
      RowIsUnique(View(), owner, version, id.value);
      var row := modules[id.value];
      return if row.hash != sha256(row.bytes) then Err(Integrity) else Ok(Some((row.bytes, row.hash)));
    }

    method ActivateModule(owner: Name, version: string) returns (r: Result<bool, StoreError>)
      requires Valid(sha256, View())
      modifies this`active
      ensures Valid(sha256, View())
      ensures View() == Apply(sha256, old(View()), Activate(owner, version))
      ensures r == if HasVersion(modules, owner, version) then Ok(true) else Err(NotFound)
    {
      var id := FindRow(owner, version);
      if id.None? {
        return Err(NotFound);
      }
      RowIsUnique(View(), owner, version, id.value);
      active := active[owner := id.value];
      return Ok(true);
    }

    method DeactivateModule(owner: Name) returns (changed: bool)
      requires Valid(sha256, View())
      modifies this`active
      ensures Valid(sha256, View())
      ensures View() == Apply(sha256, old(View()), Deactivate(owner))
      ensures changed <==> owner in old(active)
    {
      changed := owner in active;
      active := active - {owner};
    }

    /** The check for an active version looks for the row id alone; since active rows point to
        modules of their own name, that is the same as the version being active. */
    method DeleteModuleVersion(owner: Name, version: string) returns (r: Result<bool, StoreError>)
      requires Valid(sha256, View())
      modifies this`modules
      ensures Valid(sha256, View())
      ensures View() == Apply(sha256, old(View()), DeleteVersion(owner, version))
      ensures r == if !HasVersion(old(modules), owner, version) then Ok(false)
                   else if owner in active && active[owner] == RowOf(old(modules), owner, version) then Err(CannotDeleteActive)
                   else Ok(true)
    {
      DeleteVersionKeepsValid(sha256, View(), DeleteVersion(owner, version));
      var id := FindRow(owner, version);
      if id.None? {
        return Ok(false);
      }
      RowIsUnique(View(), owner, version, id.value);
      if id.value in active.Values {
        return Err(CannotDeleteActive);
      }
      assert owner in active ==> active[owner] in active.Values;
      modules := modules - {id.value};
      return Ok(true);
    }

    method DeleteModule(owner: Name) returns (changed: bool)
      requires Valid(sha256, View())
      modifies this
      ensures Valid(sha256, View())
      ensures View() == Apply(sha256, old(View()), Op.DeleteModule(owner))
      ensures changed <==> exists id :: id in old(modules) && old(modules)[id].owner == owner
    {
      StepKeepsValid(sha256, View(), Op.DeleteModule(owner));
      active := active - {owner};
      env := map row | row in env && row.0 != owner :: env[row];
      changed := exists id | id in modules :: modules[id].owner == owner;
      modules := map id | id in modules && modules[id].owner != owner :: modules[id];
    }

    method SetEnvVar(owner: Name, key: string, value: string)
      requires Valid(sha256, View())
      modifies this`env
      ensures Valid(sha256, View())
      ensures View() == Apply(sha256, old(View()), SetEnv(owner, key, value))
    {
      env := env[(owner, key) := value];
    }

    method DeleteEnvVar(owner: Name, key: string) returns (changed: bool)
      requires Valid(sha256, View())
      modifies this`env
      ensures Valid(sha256, View())
      ensures View() == Apply(sha256, old(View()), DeleteEnv(owner, key))
      ensures changed <==> (owner, key) in old(env)
    {
      changed := (owner, key) in env;
      env := env - {(owner, key)};
    }
  }

  lemma StageOne(env: map<(Name, string), string>, owner: Name, vars: map<string, string>, rest: set<string>, key: string)
    requires rest <= vars.Keys && key in rest
    ensures (env + EnvRows(owner, vars - rest))[(owner, key) := vars[key]] == env + EnvRows(owner, vars - (rest - {key}))
  {
    assert vars - (rest - {key}) == (vars - rest)[key := vars[key]];
    EnvRowsOne(owner, vars - rest, key, vars[key]);
    MergedUpdate(env, EnvRows(owner, vars - rest), (owner, key), vars[key]);
  }

  lemma MergedUpdate(m: map<(Name, string), string>, n: map<(Name, string), string>, row: (Name, string), value: string)
    ensures (m + n)[row := value] == m + n[row := value]
  {}

  lemma EnvRowsOne(owner: Name, vars: map<string, string>, key: string, value: string)
    ensures EnvRows(owner, vars[key := value]) == EnvRows(owner, vars)[(owner, key) := value]
  {
    var more := EnvRows(owner, vars[key := value]);
    assert (owner, key) in more;
    forall row | row in EnvRows(owner, vars) ensures row in more {
      assert row == (owner, row.1) && row.1 in vars[key := value];
    }
  }
}

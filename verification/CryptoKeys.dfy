/** Crypto-shredding: one key per scope at a time, events sealed under the key of their scope,
    and a deleted key as the end of everything sealed under it. */
module CryptoKeys {
  import opened Prelude
  import EventLog

  type KeyId = EventLog.KeyId
  type Uuid = EventLog.Uuid
  type Json = EventLog.Json

  /** A key row; deleting clears the key material and keeps the row. */
  datatype KeyRow = KeyRow(scope: string, key: Option<string>, deleted: bool)

  type KeyTable = map<KeyId, KeyRow>

  /** The cipher, as a pair that round-trips; opening with anything else may fail or not. */
  datatype Cipher = Cipher(seal: (string, Uuid, Json) -> string, open: (string, Uuid, string) -> Option<Json>)

  ghost predicate RoundTrips(c: Cipher) {
    forall key, id, value :: c.open(key, id, c.seal(key, id, value)) == Some(value)
  }

  /** A key as a commit in progress holds it for a scope, and when it was obtained. */
  datatype Held = Held(id: KeyId, key: string, acquired: nat)

  /** A sealed event as stored, with the record of what was sealed and when its key was obtained. */
  datatype Sealed = Sealed(scope: string, keyId: KeyId, eventId: Uuid, ciphertext: string, original: Json, acquired: nat)

  datatype State = State(keys: KeyTable, held: map<(nat, string), Held>, events: seq<Sealed>, clock: nat)

  /** `Acquire` carries the id and key the database would generate if it has to. */
  datatype Op =
    | Acquire(commit: nat, scope: string, newId: KeyId, newKey: string)
    | Seal(commit: nat, scope: string, eventId: Uuid, value: Json)
    | Delete(scope: string)

  // ---------- the key table ----------

  ghost predicate IsActive(keys: KeyTable, scope: string, id: KeyId) {
    id in keys && keys[id].scope == scope && !keys[id].deleted
  }

  ghost predicate HasActive(keys: KeyTable, scope: string) {
    exists id :: IsActive(keys, scope, id)
  }

  ghost function ActiveOf(keys: KeyTable, scope: string): (id: KeyId)
    requires HasActive(keys, scope)
    ensures IsActive(keys, scope, id)
  {
    var id :| IsActive(keys, scope, id);
    id
  }

  /** The scope's key, or a new one if it has none. */
  ghost function Created(keys: KeyTable, scope: string, newId: KeyId, newKey: string): KeyTable {
    if HasActive(keys, scope) || newId in keys then keys else keys[newId := KeyRow(scope, Some(newKey), false)]
  }

  function Deleted(keys: KeyTable, scope: string): KeyTable {
    map id | id in keys :: if keys[id].scope == scope && !keys[id].deleted then KeyRow(scope, None, true) else keys[id]
  }

  /** Lookup by the id stored with an event, never by scope. */
  function ById(keys: KeyTable, id: KeyId): Option<string> {
    if id in keys && !keys[id].deleted then keys[id].key else None
  }

  ghost predicate TableOk(keys: KeyTable) {
    && (forall i, j :: i in keys && j in keys && keys[i].scope == keys[j].scope && !keys[i].deleted && !keys[j].deleted ==> i == j)
    && (forall id :: id in keys ==> (keys[id].key.Some? <==> !keys[id].deleted))
  }

  // ---------- runs ----------

  ghost function Apply(c: Cipher, s: State, op: Op): State {
    var next := s.(clock := s.clock + 1);
    match op
    case Acquire(commit, scope, newId, newKey) =>
      if (commit, scope) in s.held then next
      else
        var keys := Created(s.keys, scope, newId, newKey);
        if !HasActive(keys, scope) || keys[ActiveOf(keys, scope)].key.None? then next
        else
          var id := ActiveOf(keys, scope);
          next.(keys := keys, held := s.held[(commit, scope) := Held(id, keys[id].key.value, s.clock)])
    case Seal(commit, scope, eventId, value) =>
      if (commit, scope) !in s.held then next
      else
        var h := s.held[(commit, scope)];
        next.(events := s.events + [Sealed(scope, h.id, eventId, c.seal(h.key, eventId, value), value, h.acquired)])
    case Delete(scope) => next.(keys := Deleted(s.keys, scope))
  }

  ghost function Exec(c: Cipher, ops: seq<Op>): State {
    if ops == [] then State(map[], map[], [], 0) else Apply(c, Exec(c, ops[..|ops| - 1]), ops[|ops| - 1])
  }

  /** What a reader makes of a sealed event: null without its key, otherwise the opened payload;
      `Err` is a payload that its key does not open. */
  function ReadBack(c: Cipher, keys: KeyTable, e: Sealed): Result<Json, ()> {
    match ById(keys, e.keyId)
    case None => Ok(EventLog.Null)
    case Some(key) =>
      match c.open(key, e.eventId, e.ciphertext)
      case None => Err(())
      case Some(value) => Ok(value)
  }

  /** The scope's key was deleted at some point after `since`. */
  ghost predicate DeletedSince(ops: seq<Op>, scope: string, since: nat) {
    exists d :: since < d < |ops| && ops[d] == Delete(scope)
  }

  // ---------- invariants ----------

  /** A key obtained at `since` for a scope: still the same material unless deleted since. */
  ghost predicate KeyStands(keys: KeyTable, scope: string, id: KeyId, key: string, gone: bool) {
    && id in keys && keys[id].scope == scope
    && (keys[id].deleted <==> gone)
    && (!gone ==> keys[id].key == Some(key))
  }

  ghost predicate HeldOk(keys: KeyTable, ops: seq<Op>, scope: string, h: Held) {
    h.acquired < |ops| && KeyStands(keys, scope, h.id, h.key, DeletedSince(ops, scope, h.acquired))
  }

  ghost predicate SealedOk(c: Cipher, keys: KeyTable, ops: seq<Op>, e: Sealed) {
    && e.acquired < |ops|
    && exists key :: e.ciphertext == c.seal(key, e.eventId, e.original)
                     && KeyStands(keys, e.scope, e.keyId, key, DeletedSince(ops, e.scope, e.acquired))
  }

  ghost predicate StateOk(c: Cipher, ops: seq<Op>, s: State) {
    && s.clock == |ops| && TableOk(s.keys)
    && (forall slot :: slot in s.held ==> HeldOk(s.keys, ops, slot.1, s.held[slot]))
    && (forall i :: 0 <= i < |s.events| ==> SealedOk(c, s.keys, ops, s.events[i]))
  }

  lemma MoreDeletedSince(ops: seq<Op>, op: Op, scope: string, since: nat)
    requires since < |ops|
    ensures DeletedSince(ops + [op], scope, since) <==> DeletedSince(ops, scope, since) || op == Delete(scope)
  {
    var more := ops + [op];
    if DeletedSince(ops, scope, since) {
      var d :| since < d < |ops| && ops[d] == Delete(scope);
      assert more[d] == Delete(scope);
    }
    if op == Delete(scope) {
      assert more[|ops|] == Delete(scope);
    }
    if DeletedSince(more, scope, since) {
      var d :| since < d < |more| && more[d] == Delete(scope);
      assert d < |ops| ==> ops[d] == Delete(scope);
    }
  }

  /** What one operation does to a key obtained earlier. */
  lemma KeyMoves(keys: KeyTable, next: KeyTable, ops: seq<Op>, op: Op, scope: string, id: KeyId, key: string, since: nat)
    requires since < |ops| && KeyStands(keys, scope, id, key, DeletedSince(ops, scope, since))
    requires if op.Delete? then next == Deleted(keys, op.scope) else (forall i :: i in keys ==> i in next && next[i] == keys[i])
    ensures KeyStands(next, scope, id, key, DeletedSince(ops + [op], scope, since))
  {
    MoreDeletedSince(ops, op, scope, since);
  }

  lemma EventsMove(c: Cipher, keys: KeyTable, next: KeyTable, ops: seq<Op>, op: Op, e: Sealed)
    requires SealedOk(c, keys, ops, e)
    requires if op.Delete? then next == Deleted(keys, op.scope) else (forall i :: i in keys ==> i in next && next[i] == keys[i])
    ensures SealedOk(c, next, ops + [op], e)
  {
    var key :| e.ciphertext == c.seal(key, e.eventId, e.original)
               && KeyStands(keys, e.scope, e.keyId, key, DeletedSince(ops, e.scope, e.acquired));
    KeyMoves(keys, next, ops, op, e.scope, e.keyId, key, e.acquired);
  }

  lemma EarlierMove(c: Cipher, s: State, ops: seq<Op>, op: Op)
    requires StateOk(c, ops, s)
    ensures
      var next := Apply(c, s, op);
      && (forall slot :: slot in s.held ==> HeldOk(next.keys, ops + [op], slot.1, s.held[slot]))
      && (forall i :: 0 <= i < |s.events| ==> SealedOk(c, next.keys, ops + [op], s.events[i]))
  {
    var next := Apply(c, s, op);
    forall slot | slot in s.held ensures HeldOk(next.keys, ops + [op], slot.1, s.held[slot]) {
      var h := s.held[slot];
      KeyMoves(s.keys, next.keys, ops, op, slot.1, h.id, h.key, h.acquired);
    }
    forall i | 0 <= i < |s.events| ensures SealedOk(c, next.keys, ops + [op], s.events[i]) {
      EventsMove(c, s.keys, next.keys, ops, op, s.events[i]);
    }
  }

  lemma CreatedIsOk(keys: KeyTable, scope: string, newId: KeyId, newKey: string)
    requires TableOk(keys)
    ensures TableOk(Created(keys, scope, newId, newKey))
  {
    var next := Created(keys, scope, newId, newKey);
    forall i, j | i in next && j in next && next[i].scope == next[j].scope && !next[i].deleted && !next[j].deleted
      ensures i == j
    {
      assert i in keys && keys[i].scope == scope && !keys[i].deleted ==> IsActive(keys, scope, i);
      assert j in keys && keys[j].scope == scope && !keys[j].deleted ==> IsActive(keys, scope, j);
    }
  }

  lemma NoneSinceNow(ops: seq<Op>, op: Op, scope: string)
    ensures !DeletedSince(ops + [op], scope, |ops|)
  {}

  lemma AcquireKeepsOk(c: Cipher, s: State, ops: seq<Op>, op: Op)
    requires StateOk(c, ops, s) && op.Acquire?
    ensures StateOk(c, ops + [op], Apply(c, s, op))
  {
    EarlierMove(c, s, ops, op);
    CreatedIsOk(s.keys, op.scope, op.newId, op.newKey);
    NoneSinceNow(ops, op, op.scope);
  }

  lemma SealKeepsOk(c: Cipher, s: State, ops: seq<Op>, op: Op)
    requires StateOk(c, ops, s) && op.Seal?
    ensures StateOk(c, ops + [op], Apply(c, s, op))
  {
    EarlierMove(c, s, ops, op);
    var next := Apply(c, s, op);
    if (op.commit, op.scope) in s.held {
      var h := s.held[(op.commit, op.scope)];
      var e := next.events[|s.events|];
      assert HeldOk(s.keys, ops + [op], op.scope, h);
      assert e.ciphertext == c.seal(h.key, e.eventId, e.original);
      assert SealedOk(c, next.keys, ops + [op], e);
    }
  }

  lemma {:induction false} RunIsOk(c: Cipher, ops: seq<Op>)
    ensures StateOk(c, ops, Exec(c, ops))
  {
    if ops != [] {
      var front, op := ops[..|ops| - 1], ops[|ops| - 1];
      RunIsOk(c, front);
      assert front + [op] == ops;
      match op
      case Acquire(_, _, _, _) => AcquireKeepsOk(c, Exec(c, front), front, op);
      case Seal(_, _, _, _) => SealKeepsOk(c, Exec(c, front), front, op);
      case Delete(_) => EarlierMove(c, Exec(c, front), front, op);
    }
  }

  // ---------- what is claimed ----------

  /** Over every run each scope has at most one key that is not deleted. */
  lemma OneKeyPerScope(c: Cipher, ops: seq<Op>, scope: string, i: KeyId, j: KeyId)
    requires IsActive(Exec(c, ops).keys, scope, i) && IsActive(Exec(c, ops).keys, scope, j)
    ensures i == j
  {
    RunIsOk(c, ops);
  }

  /** Shredding is permanent and exact: after any run, an event reads as null if its scope's key
      was deleted after the event's commit obtained it, whatever was created since; and every
      other event reads as what was sealed, however often the key of its or any other scope was
      rotated. */
  lemma ShreddingIsExact(c: Cipher, ops: seq<Op>, i: nat)
    requires RoundTrips(c) && i < |Exec(c, ops).events|
    ensures
      var s := Exec(c, ops);
      var e := s.events[i];
      ReadBack(c, s.keys, e) == Ok(if DeletedSince(ops, e.scope, e.acquired) then EventLog.Null else e.original)
  {
    RunIsOk(c, ops);
    assert SealedOk(c, Exec(c, ops).keys, ops, Exec(c, ops).events[i]);
  }

  /** An acquisition that finds an active key, or a new id that is free, leaves the commit holding the
      scope's key: the one it holds already, else the active one, else the new one. */
  lemma AcquireHolds(c: Cipher, ops: seq<Op>, commit: nat, scope: string, newId: KeyId, newKey: string)
    requires HasActive(Exec(c, ops).keys, scope) || newId !in Exec(c, ops).keys
    ensures
      var before, after := Exec(c, ops), Exec(c, ops + [Acquire(commit, scope, newId, newKey)]);
      && (commit, scope) in after.held
      && var h := after.held[(commit, scope)];
         if (commit, scope) in before.held then h == before.held[(commit, scope)]
         else
           && h.acquired == |ops| && IsActive(after.keys, scope, h.id) && after.keys[h.id].key == Some(h.key)
           && (if HasActive(before.keys, scope) then IsActive(before.keys, scope, h.id) else h.id == newId && h.key == newKey)
  {
    var op := Acquire(commit, scope, newId, newKey);
    var before, all := Exec(c, ops), ops + [op];
    assert all[..|ops|] == ops;
    RunIsOk(c, ops);
    if (commit, scope) !in before.held {
      var keys := Created(before.keys, scope, newId, newKey);
      CreatedIsOk(before.keys, scope, newId, newKey);
      if !HasActive(before.keys, scope) {
        assert IsActive(keys, scope, newId);
      }
      var id := ActiveOf(keys, scope);
      assert keys[id].key.Some?;
    }
  }

  lemma SealAdds(c: Cipher, ops: seq<Op>, commit: nat, scope: string, eventId: Uuid, value: Json)
    requires (commit, scope) in Exec(c, ops).held
    ensures
      var before, after := Exec(c, ops), Exec(c, ops + [Seal(commit, scope, eventId, value)]);
      var h, n := before.held[(commit, scope)], |before.events|;
      && |after.events| == n + 1 && after.events[..n] == before.events
      && after.events[n].scope == scope && after.events[n].eventId == eventId && after.events[n].keyId == h.id
      && after.events[n].original == value && after.events[n].acquired == h.acquired
  {
    assert (ops + [Seal(commit, scope, eventId, value)])[..|ops|] == ops;
  }

  /** A commit that holds a key for the scope seals exactly one event, with that scope, id and key; and
      on every continuation it reads as the very value that was to be sealed, unless the scope's key was
      deleted after the commit obtained it, and then as null. */
  lemma SealedIsReadBack(c: Cipher, ops: seq<Op>, commit: nat, scope: string, eventId: Uuid, value: Json, more: seq<Op>)
    requires RoundTrips(c) && (commit, scope) in Exec(c, ops).held
    ensures
      var sealing := ops + [Seal(commit, scope, eventId, value)];
      var before, after, later := Exec(c, ops), Exec(c, sealing), Exec(c, sealing + more);
      var h, n := before.held[(commit, scope)], |before.events|;
      && |after.events| == n + 1 && after.events[..n] == before.events
      && n < |later.events| && later.events[n] == after.events[n]
      && after.events[n].scope == scope && after.events[n].eventId == eventId && after.events[n].keyId == h.id
      && ReadBack(c, later.keys, later.events[n])
         == Ok(if DeletedSince(sealing + more, scope, h.acquired) then EventLog.Null else value)
  {
    var sealing := ops + [Seal(commit, scope, eventId, value)];
    SealAdds(c, ops, commit, scope, eventId, value);
    assert (sealing + more)[..|sealing|] == sealing;
    EventsAreKept(c, sealing + more, |sealing|);
    ShreddingIsExact(c, sealing + more, |Exec(c, ops).events|);
  }

  /** Events are kept as they were sealed: a longer run only adds to them. */
  lemma {:induction false} EventsAreKept(c: Cipher, ops: seq<Op>, k: nat)
    requires k <= |ops|
    ensures Exec(c, ops[..k]).events <= Exec(c, ops).events
    decreases |ops|
  {
    if k == |ops| {
      assert ops[..k] == ops;
    } else {
      var front := ops[..|ops| - 1];
      EventsAreKept(c, front, k);
      assert front[..k] == ops[..k];
    }
  }

  /** Once null, always null. */
  lemma ShreddedForever(c: Cipher, ops: seq<Op>, k: nat, i: nat)
    requires RoundTrips(c) && k <= |ops| && i < |Exec(c, ops[..k]).events|
    requires DeletedSince(ops[..k], Exec(c, ops[..k]).events[i].scope, Exec(c, ops[..k]).events[i].acquired)
    ensures i < |Exec(c, ops).events|
    ensures ReadBack(c, Exec(c, ops).keys, Exec(c, ops).events[i]) == Ok(EventLog.Null)
  {
    EventsAreKept(c, ops, k);
    var e := Exec(c, ops[..k]).events[i];
    assert Exec(c, ops).events[i] == e;
    var d :| e.acquired < d < |ops[..k]| && ops[..k][d] == Delete(e.scope);
    assert ops[d] == Delete(e.scope);
    ShreddingIsExact(c, ops, i);
  }

  /** The event as the log keeps it, with its plaintext. */
  function AsStored(e: Sealed, position: nat, eventType: string, tags: seq<string>): EventLog.StoredEvent<Json> {
    EventLog.StoredEvent(position, eventType, tags, None, Some(e.scope), Some(e.keyId), e.original)
  }

  /** The log model's reading of sealed events, by a set of deleted key ids, is this one. */
  lemma RevealIsReadBack(c: Cipher, ops: seq<Op>, i: nat, position: nat, eventType: string, tags: seq<string>)
    requires RoundTrips(c) && i < |Exec(c, ops).events|
    ensures
      var s := Exec(c, ops);
      var gone := set id | id in s.keys && s.keys[id].deleted;
      ReadBack(c, s.keys, s.events[i]) == Ok(EventLog.Reveal(gone, AsStored(s.events[i], position, eventType, tags)).data)
  {
    RunIsOk(c, ops);
    assert SealedOk(c, Exec(c, ops).keys, ops, Exec(c, ops).events[i]);
  }

  // ---------- the table as an object ----------

  class CryptoKeyTable {
    var keys: KeyTable

    constructor ()
      ensures keys == map[]
    {
      keys := map[];
    }

    method GetCryptoKey(scope: string) returns (r: Option<(KeyId, string)>)
      requires TableOk(keys)
      ensures r.None? <==> !HasActive(keys, scope)
      ensures r.Some? ==> IsActive(keys, scope, r.value.0) && keys[r.value.0].key == Some(r.value.1)
    {
      var rest := keys.Keys;
      while rest != {}
        invariant rest <= keys.Keys
        invariant forall id :: IsActive(keys, scope, id) ==> id in rest
        decreases rest
      {
        var id :| id in rest;
        if keys[id].scope == scope && !keys[id].deleted {
          assert IsActive(keys, scope, id);
          return Some((id, keys[id].key.value));
        }
        rest := rest - {id};
      }
      return None;
    }

    method GetCryptoKeyById(id: KeyId) returns (key: Option<string>)
      requires TableOk(keys)
      ensures key == ById(keys, id)
      ensures key.Some? <==> id in keys && !keys[id].deleted
    {
      if id in keys && !keys[id].deleted {
        return keys[id].key;
      }
      return None;
    }

    /** The scope's key if it has one; otherwise the generated id and key, unless the id is taken. */
    method CreateCryptoKey(scope: string, newId: KeyId, newKey: string) returns (r: Option<(KeyId, string)>)
      requires TableOk(keys)
      modifies this
      ensures TableOk(keys) && keys == Created(old(keys), scope, newId, newKey)
      ensures r.None? <==> !HasActive(old(keys), scope) && newId in old(keys)
      ensures r.Some? ==> IsActive(keys, scope, r.value.0) && keys[r.value.0].key == Some(r.value.1)
    {
      CreatedIsOk(keys, scope, newId, newKey);
      var existing := GetCryptoKey(scope);
      if existing.Some? {
        return existing;
      }
      if newId in keys {
        return None;
      }
      keys := keys[newId := KeyRow(scope, Some(newKey), false)];
      return Some((newId, newKey));
    }

    method DeleteCryptoKey(scope: string)
      requires TableOk(keys)
      modifies this
      ensures TableOk(keys) && keys == Deleted(old(keys), scope) && !HasActive(keys, scope)
      ensures forall id :: id in keys && keys[id].scope == scope ==> keys[id].key == None
    {
      keys := map id | id in keys :: if keys[id].scope == scope && !keys[id].deleted then KeyRow(scope, None, true) else keys[id];
    }
  }
}

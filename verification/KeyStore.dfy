/**
 The API keys a server keeps, by hash, and the file they are saved in:
 `crates/agentstategraph-mcp/src/auth.rs`, lines 87-168, 293-423, 511-533 and 595-696.
 */
module KeyStore {
  import opened Order

  /** What a key lets its holder do; rotation carries it over unchanged. */
  datatype Grant = Grant(
    tenantId: string,
    name: string,
    plan: string,
    commitAgentId: Option<string>,
    namespaceId: Option<string>,
    canMigrate: bool,
    isAdmin: bool,
    expiresAt: Option<int>)

  datatype StoredKey = StoredKey(
    id: string,
    keyHash: string,
    keyPreview: string,
    grant: Grant,
    enabled: bool,
    createdAt: int,
    lastUsedAt: Option<int>)

  /** What the bootstrap admin key may do: everything, without expiry. */
  function AdminGrant(name: string): Grant {
    Grant("admin", name, "admin", None, None, true, true, None)
  }

  type Keys = map<string, StoredKey>

  predicate IsLive(k: StoredKey, now: int) {
    k.enabled && (k.grant.expiresAt.Some? ==> now <= k.grant.expiresAt.value)
  }

  /** Every key sits under its own hash. */
  ghost predicate Keyed(keys: Keys) {
    forall h :: h in keys ==> keys[h].keyHash == h
  }

  ghost predicate UniqueIds(keys: Keys) {
    forall g, h :: g in keys && h in keys && keys[g].id == keys[h].id ==> g == h
  }

  predicate HasId(keys: Keys, h: string, id: string) {
    h in keys && keys[h].id == id
  }

  // ----- the file

  const KEYS_FILE_VERSION: nat := 2

  datatype KeysFile = KeysFile(version: nat, keys: seq<StoredKey>)

  datatype Loaded = Loaded(keys: Keys) | NewerVersion(version: nat)

  /** Collected by hash; a later key replaces an earlier one. */
  function Collect(keys: seq<StoredKey>): Keys {
    if keys == [] then map[]
    else
      var n := |keys| - 1;
      Collect(keys[..n])[keys[n].keyHash := keys[n]]
  }

  /** `load_keys`; a missing file is empty. */
  function Load(file: Option<KeysFile>): Loaded {
    match file
    case None => Loaded(map[])
    case Some(f) => if f.version > KEYS_FILE_VERSION then NewerVersion(f.version) else Loaded(Collect(f.keys))
  }

  predicate IdLeq(a: StoredKey, b: StoredKey) {
    StringLeq(a.id, b.id)
  }

  lemma IdPreorder()
    ensures TotalPreorder(IdLeq)
  {
    StringOrder();
  }

  /** The list holds each key once, in the order of the ids. */
  ghost predicate Lists(list: seq<StoredKey>, keys: Keys) {
    && |list| == |keys|
    && (forall h :: h in keys ==> keys[h] in list)
    && (forall k :: k in list ==> k.keyHash in keys && keys[k.keyHash] == k)
    && Ascending(list, IdLeq)
  }

  ghost predicate SavedIn(keys: Keys, file: Option<KeysFile>) {
    file.Some? && file.value.version == KEYS_FILE_VERSION && Lists(file.value.keys, keys)
  }

  lemma {:induction false} CollectHolds(list: seq<StoredKey>)
    ensures Keyed(Collect(list))
    ensures forall h :: h in Collect(list) ==> Collect(list)[h] in list
    ensures forall k :: k in list ==> k.keyHash in Collect(list)
  {
    if list != [] {
      CollectHolds(list[..|list| - 1]);
      assert list == list[..|list| - 1] + [list[|list| - 1]];
    }
  }

  /** Of two keys with one hash the later one is loaded. */
  lemma {:induction false} LaterKeyWins(list: seq<StoredKey>, i: nat)
    requires i < |list| && forall j :: i < j < |list| ==> list[j].keyHash != list[i].keyHash
    ensures list[i].keyHash in Collect(list) && Collect(list)[list[i].keyHash] == list[i]
  {
    var n := |list| - 1;
    if i < n {
      LaterKeyWins(list[..n], i);
    }
  }

  lemma LoadIsKeyed(file: Option<KeysFile>)
    requires Load(file).Loaded?
    ensures Keyed(Load(file).keys)
  {
    if file.Some? {
      CollectHolds(file.value.keys);
    }
  }

  /** Loading a saved file gives the keys back. */
  lemma LoadSaved(keys: Keys, file: Option<KeysFile>)
    requires Keyed(keys) && SavedIn(keys, file)
    ensures Load(file) == Loaded(keys)
  {
    var list := file.value.keys;
    CollectHolds(list);
    var loaded := Collect(list);
    forall h | h in keys ensures h in loaded {
      assert keys[h] in list;
    }
    assert forall h :: h in loaded ==> h in keys && loaded[h] == keys[h];
    assert loaded == keys;
  }

  lemma {:induction false} InsertPosition(list: seq<StoredKey>, k: StoredKey) returns (at: nat)
    requires Ascending(list, IdLeq)
    ensures at <= |list| && (at > 0 ==> IdLeq(list[at - 1], k))
    ensures forall j :: at <= j < |list| ==> IdLeq(k, list[j])
  {
    IdPreorder();
    if list == [] || IdLeq(list[|list| - 1], k) {
      at := |list|;
    } else {
      at := InsertPosition(list[..|list| - 1], k);
    }
  }

  /** Every set of keys can be listed the way the file lists it. */
  lemma {:induction false} ListExists(keys: Keys) returns (list: seq<StoredKey>)
    requires Keyed(keys)
    ensures Lists(list, keys)
    decreases |keys|
  {
    if keys == map[] {
      list := [];
    } else {
      var h :| h in keys;
      var rest := keys - {h};
      assert keys == rest[h := keys[h]];
      var init := ListExists(rest);
      var at := InsertPosition(init, keys[h]);
      IdPreorder();
      InsertAscending(init, at, keys[h], IdLeq);
      list := InsertAt(init, at, keys[h]);
      ListsInserted(init, rest, at, keys[h]);
    }
  }

  lemma ListsInserted(init: seq<StoredKey>, rest: Keys, at: nat, k: StoredKey)
    requires Lists(init, rest) && at <= |init| && k.keyHash !in rest && Ascending(InsertAt(init, at, k), IdLeq)
    ensures Lists(InsertAt(init, at, k), rest[k.keyHash := k])
  {
    var list, keys := InsertAt(init, at, k), rest[k.keyHash := k];
    InsertMembers(init, at, k);
    assert |keys| == |rest| + 1;
    forall h | h in keys ensures keys[h] in list {
      assert h != k.keyHash ==> keys[h] == rest[h];
    }
    forall x | x in list ensures x.keyHash in keys && keys[x.keyHash] == x {
      if x != k { assert x in init; }
    }
  }

  // ----- changes

  function Disable(keys: Keys, h: string): (r: Keys)
    requires h in keys
    ensures r.Keys == keys.Keys && !r[h].enabled && r[h].(enabled := keys[h].enabled) == keys[h]
    ensures forall g :: g in keys && g != h ==> r[g] == keys[g]
  {
    keys[h := keys[h].(enabled := false)]
  }

  /** The successor of a rotated key. */
  function Renewed(was: StoredKey, id: string, hash: string, preview: string, now: int): StoredKey {
    StoredKey(id, hash, preview, was.grant, true, now, None)
  }

  datatype Change =
    | Insert(key: StoredKey)
    | Bootstrap(key: StoredKey)
    | Rotate(keyId: string, newId: string, newHash: string, preview: string, now: int)
    | Revoke(keyId: string)

  ghost predicate NoneHasId(keys: Keys, id: string) {
    forall h :: h in keys ==> keys[h].id != id
  }

  predicate Retires(change: Change) {
    change.Rotate? || change.Revoke?
  }

  /** The key under `h` is the one found by its id, and retired. */
  ghost predicate AppliesAt(keys: Keys, change: Change, next: Keys, h: string) {
    && Retires(change)
    && HasId(keys, h, change.keyId)
    && match change
       case Rotate(_, newId, newHash, preview, now) =>
         next == Disable(keys, h)[newHash := Renewed(keys[h], newId, newHash, preview, now)]
       case Revoke(_) => next == Disable(keys, h)
  }

  /**
   What the closure given to `update` does. A hash map finds some key with the id; if there is
   none the keys stay as they are, and are saved all the same. The bootstrap checks before it
   calls `update`, not inside it, so its insert is unconditional.
   */
  ghost predicate Applies(keys: Keys, change: Change, next: Keys) {
    match change
    case Insert(key) => next == keys[key.keyHash := key]
    case Bootstrap(key) => next == keys[key.keyHash := key]
    case _ =>
      || (NoneHasId(keys, change.keyId) && next == keys)
      || (exists h :: AppliesAt(keys, change, next, h))
  }

  lemma ChangeKeepsKeyed(keys: Keys, change: Change, next: Keys)
    requires Keyed(keys) && Applies(keys, change, next)
    ensures Keyed(next)
  {
  }

  // ----- rotation moves a grant

  ghost function Holders(keys: Keys, g: Grant): set<string> {
    set h | h in keys && keys[h].enabled && keys[h].grant == g
  }

  /** How many enabled keys carry a grant: its multiplicity among the enabled capabilities. */
  ghost function EnabledWith(keys: Keys, g: Grant): nat {
    |Holders(keys, g)|
  }

  /**
   Rotation to a fresh hash leaves the multiset of enabled grants as it was exactly when the
   rotated key was enabled; rotating a disabled key adds one holder of its grant.
   */
  lemma RotationMovesGrant(keys: Keys, change: Change, next: Keys, h: string)
    requires change.Rotate? && AppliesAt(keys, change, next, h) && change.newHash !in keys
    ensures (forall g :: EnabledWith(next, g) == EnabledWith(keys, g)) <==> keys[h].enabled
    ensures !keys[h].enabled ==> forall g ::
      EnabledWith(next, g) == EnabledWith(keys, g) + if g == keys[h].grant then 1 else 0
    ensures !next[h].enabled && next[change.newHash].enabled && next[change.newHash].grant == keys[h].grant
  {
    forall g ensures EnabledWith(next, g) ==
      EnabledWith(keys, g) + if g == keys[h].grant && !keys[h].enabled then 1 else 0
    {
      RotationMovesHolders(keys, change, next, h, g);
    }
    if !keys[h].enabled {
      assert EnabledWith(next, keys[h].grant) != EnabledWith(keys, keys[h].grant);
    }
  }

  lemma DisableHolders(keys: Keys, h: string, g: Grant)
    requires h in keys
    ensures Holders(Disable(keys, h), g) == Holders(keys, g) - {h}
  {
  }

  lemma InsertHolders(keys: Keys, key: StoredKey, g: Grant)
    requires key.keyHash !in keys && key.enabled
    ensures Holders(keys[key.keyHash := key], g) == Holders(keys, g) + if key.grant == g then {key.keyHash} else {}
  {
  }

  lemma RotationMovesHolders(keys: Keys, change: Change, next: Keys, h: string, g: Grant)
    requires change.Rotate? && AppliesAt(keys, change, next, h) && change.newHash !in keys
    ensures EnabledWith(next, g) ==
      EnabledWith(keys, g) + if g == keys[h].grant && !keys[h].enabled then 1 else 0
  {
    var off := Disable(keys, h);
    DisableHolders(keys, h, g);
    InsertHolders(off, next[change.newHash], g);
    assert h in Holders(keys, g) <==> keys[h].enabled && keys[h].grant == g;
  }
}

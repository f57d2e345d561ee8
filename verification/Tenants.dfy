/**
 `TenantManager` of `crates/agentstategraph-mcp/src/auth.rs`, one call at a time. Each call
 that changes keys is proved to be a step of `KeyRuns`; the concurrent cache is in
 `NamespaceCache`. Random keys and ids, the clock, and whether a save succeeds are arguments.
 */
module Tenants {
  import opened Order
  import opened KeyStore
  import opened Namespaces
  import Runs = KeyRuns

  /** A key as handed to its owner. */
  datatype ApiKey = ApiKey(
    id: string, key: string, grant: Grant, enabled: bool, createdAt: int, lastUsedAt: Option<int>)

  datatype Saved<+T> = Ok(value: T) | NotSaved

  const DEFAULT_TENANT: string := "default"

  /** `--keys-file`: not given, or given and there with some content, or given and missing. */
  datatype KeysPath = NoFile | At(content: Option<KeysFile>)

  datatype KeyRef = Id(id: string) | Raw(key: string)

  datatype AuthError =
    | MissingKey
    | InvalidKey
    | WrongTenant(keyTenant: string, serverTenant: string)
    | BadKeyNamespace

  datatype Access = Granted(repo: Repository) | Refused(error: AuthError)

  class Repository {
    const namespace: string
    const branchesOnly: bool

    constructor (namespace: string, branchesOnly: bool)
      ensures this.namespace == namespace && this.branchesOnly == branchesOnly
    {
      this.namespace, this.branchesOnly := namespace, branchesOnly;
    }
  }

  // ----- writing the file

  /** The values of a hash map, in whatever order it yields them. */
  method Values(keys: Keys) returns (list: seq<StoredKey>)
    requires Keyed(keys)
    ensures |list| == |keys|
    ensures forall h :: h in keys ==> keys[h] in list
    ensures forall k :: k in list ==> k.keyHash in keys && keys[k.keyHash] == k
  {
    list := [];
    var left := keys.Keys;
    while left != {}
      invariant left <= keys.Keys && |list| + |left| == |keys.Keys|
      invariant forall h :: h in keys && h !in left ==> keys[h] in list
      invariant forall k :: k in list ==> k.keyHash in keys && keys[k.keyHash] == k
    {
      var h :| h in left;
      left := left - {h};
      list := list + [keys[h]];
    }
    assert |keys.Keys| == |keys|;
  }

  lemma SameMembers<T>(a: seq<T>, b: seq<T>)
    requires multiset(a) == multiset(b)
    ensures |a| == |b| && forall x :: x in a <==> x in b
  {
    assert |multiset(a)| == |multiset(b)|;
    assert forall x :: x in a <==> x in multiset(a);
    assert forall x :: x in b <==> x in multiset(b);
  }

  method FileFor(keys: Keys) returns (file: KeysFile)
    requires Keyed(keys)
    ensures SavedIn(keys, Some(file)) && file.version == 2
  {
    var list := Values(keys);
    IdPreorder();
    var sorted := Sort(list, IdLeq);
    SameMembers(sorted, list);
    file := KeysFile(KEYS_FILE_VERSION, sorted);
  }

  class TenantManager {
    const hashKey: string -> string
    const preview: string -> string
    const authEnabled: bool
    const keysFile: bool
    const tenantId: string
    const defaultRepo: Repository
    var keys: Keys
    var file: Option<KeysFile>
    var namespaceRepos: map<string, Repository>

    ghost predicate Valid()
      reads this
    {
      && Keyed(keys)
      && forall ns :: ns in namespaceRepos ==>
        ValidName(ns) && namespaceRepos[ns].namespace == ns && namespaceRepos[ns].branchesOnly
    }

    /** The keys as a state of the runs, between calls. */
    ghost function View(): Runs.State
      reads this
    {
      Runs.State(keys, file, multiset{})
    }

    /** `single_tenant`: no auth, no keys, no file. */
    constructor SingleTenant(hashKey: string -> string, preview: string -> string, repo: Repository)
      ensures Valid() && this.hashKey == hashKey && this.preview == preview
      ensures !authEnabled && !keysFile && tenantId == "default" && defaultRepo == repo
      ensures keys == map[] && file == None && namespaceRepos == map[]
    {
      this.hashKey, this.preview := hashKey, preview;
      authEnabled, keysFile, tenantId, defaultRepo := false, false, DEFAULT_TENANT, repo;
      keys, file, namespaceRepos := map[], None, map[];
    }

    /** `multi_tenant_for` once its keys are loaded; without a keys file there are none. */
    constructor MultiTenant(
      hashKey: string -> string, preview: string -> string, repo: Repository, tenantId: string,
      path: KeysPath, loaded: Keys)
      requires if path.NoFile? then loaded == map[] else Load(path.content) == Loaded(loaded)
      ensures Valid() && this.hashKey == hashKey && this.preview == preview
      ensures authEnabled && keysFile == path.At? && this.tenantId == tenantId && defaultRepo == repo
      ensures Runs.StartsFrom(View()) && namespaceRepos == map[]
      ensures file == if path.At? then path.content else None
    {
      this.hashKey, this.preview := hashKey, preview;
      authEnabled, keysFile, this.tenantId, defaultRepo := true, path.At?, tenantId, repo;
      keys, namespaceRepos := loaded, map[];
      file := if path.At? then path.content else None;
      if path.At? { LoadIsKeyed(path.content); }
    }

    /** The change is made and saved, or nothing happened. */
    twostate predicate Performed(change: Change, ok: bool)
      reads this
    {
      && Valid()
      && namespaceRepos == old(namespaceRepos)
      && (keysFile ==>
            Runs.Next(old(View()), if ok then Runs.Updated(change) else Runs.SaveFailed(change), View()))
      && (!keysFile ==> ok && Applies(old(keys), change, keys) && file == old(file))
    }

    /** `update`, given the changed copy of the keys. */
    method Update(next: Keys, diskOk: bool, ghost change: Change) returns (ok: bool)
      requires Valid() && Applies(keys, change, next) && !change.Bootstrap?
      modifies this`keys, this`file
      ensures ok == (!keysFile || diskOk) && Performed(change, ok)
      ensures ok ==> keys == next
    {
      ChangeKeepsKeyed(keys, change, next);
      if keysFile {
        if !diskOk {
          return false;
        }
        var saved := FileFor(next);
        file := Some(saved);
      }
      keys := next;
      ok := true;
    }

    function ToStored(k: ApiKey, id: string): StoredKey {
      StoredKey(id, hashKey(k.key), preview(k.key), k.grant, k.enabled, k.createdAt, k.lastUsedAt)
    }

    method RegisterKey(k: ApiKey, generatedId: string, diskOk: bool) returns (id: Saved<string>)
      requires Valid()
      modifies this`keys, this`file
      ensures id.Ok? ==> id.value == if k.id == "" then generatedId else k.id
      ensures id.Ok? == (!keysFile || diskOk)
      ensures Performed(Insert(ToStored(k, if k.id == "" then generatedId else k.id)), id.Ok?)
      ensures keys == if id.Ok? then old(keys)[hashKey(k.key) := ToStored(k, id.value)] else old(keys)
    {
      var newId := if k.id == "" then generatedId else k.id;
      var stored := ToStored(k, newId);
      var ok := Update(keys[stored.keyHash := stored], diskOk, Insert(stored));
      id := if ok then Ok(newId) else NotSaved;
    }

    method CreateKeyWith(grant: Grant, id: string, raw: string, now: int, diskOk: bool) returns (r: Saved<ApiKey>)
      requires Valid()
      modifies this`keys, this`file
      ensures Performed(Insert(StoredKey(id, hashKey(raw), preview(raw), grant, true, now, None)), r.Ok?)
      ensures r.Ok? ==> r.value == ApiKey(id, raw, grant, true, now, None)
      ensures r.Ok? ==> hashKey(raw) in keys && keys[hashKey(raw)] == ToStored(r.value, id)
    {
      var k := ApiKey(id, raw, grant, true, now, None);
      var saved := RegisterKey(k, id, diskOk);
      match saved
      case Ok(newId) => r := Ok(k.(id := newId));
      case NotSaved => r := NotSaved;
    }

    /** `rotate_key`. A hash map may find any key with the id. */
    method RotateKey(keyId: string, raw: string, newId: string, now: int, diskOk: bool)
      returns (r: Saved<Option<ApiKey>>)
      requires Valid()
      modifies this`keys, this`file
      ensures Performed(Rotate(keyId, newId, hashKey(raw), preview(raw), now), r.Ok?)
      ensures r.Ok? ==> (r.value.None? <==> NoneHasId(old(keys), keyId))
      ensures r.Ok? && r.value.Some? ==>
        && hashKey(raw) in keys && keys[hashKey(raw)] == ToStored(r.value.value, newId)
        && r.value.value == ApiKey(newId, raw, keys[hashKey(raw)].grant, true, now, None)
    {
      ghost var change := Rotate(keyId, newId, hashKey(raw), preview(raw), now);
      if h :| h in keys && keys[h].id == keyId {
        var renewed := Renewed(keys[h], newId, hashKey(raw), preview(raw), now);
        var next := Disable(keys, h)[renewed.keyHash := renewed];
        assert AppliesAt(keys, change, next, h);
        var ok := Update(next, diskOk, change);
        r := if ok then Ok(Some(ApiKey(newId, raw, renewed.grant, true, now, None))) else NotSaved;
      } else {
        var ok := Update(keys, diskOk, change);
        r := if ok then Ok(None) else NotSaved;
      }
    }

    method RevokeKey(keyId: string, diskOk: bool) returns (r: Saved<bool>)
      requires Valid()
      modifies this`keys, this`file
      ensures Performed(Revoke(keyId), r.Ok?)
      ensures r.Ok? ==> (!r.value <==> NoneHasId(old(keys), keyId))
    {
      if h :| h in keys && keys[h].id == keyId {
        assert AppliesAt(keys, Revoke(keyId), Disable(keys, h), h);
        var ok := Update(Disable(keys, h), diskOk, Revoke(keyId));
        r := if ok then Ok(true) else NotSaved;
      } else {
        var ok := Update(keys, diskOk, Revoke(keyId));
        r := if ok then Ok(false) else NotSaved;
      }
    }

    /** `key_id`. */
    method KeyId(keyRef: KeyRef) returns (id: Option<string>)
      ensures keyRef.Raw? ==> (id.Some? <==> hashKey(keyRef.key) in keys)
      ensures keyRef.Raw? && id.Some? ==> id.value == keys[hashKey(keyRef.key)].id
      ensures keyRef.Id? ==> id == if NoneHasId(keys, keyRef.id) then None else Some(keyRef.id)
    {
      match keyRef
      case Raw(key) =>
        id := if hashKey(key) in keys then Some(keys[hashKey(key)].id) else None;
      case Id(wanted) =>
        if h :| h in keys && keys[h].id == wanted {
          id := Some(keys[h].id);
        } else {
          id := None;
        }
    }

    method RegisterAdminKey(raw: string, name: string, newId: string, now: int, diskOk: bool)
      returns (added: Saved<bool>)
      requires Valid()
      modifies this`keys, this`file
      ensures var stored := StoredKey(newId, hashKey(raw), preview(raw), AdminGrant(name), true, now, None);
        if hashKey(raw) in old(keys)
        then added == Ok(false) && Valid() && Runs.Next(old(View()), Runs.AlreadyRegistered(hashKey(raw)), View())
        else (added.Ok? ==> added.value) && Bootstrapped(stored, added.Ok?)
    {
      var registered := KeyId(Raw(raw));
      if registered.Some? {
        return Ok(false);
      }
      var id := RegisterKey(ApiKey("", raw, AdminGrant(name), true, now, None), newId, diskOk);
      added := if id.Ok? then Ok(true) else NotSaved;
    }

    /** The two steps of a bootstrap, the check and the insert, with nothing between them. */
    twostate predicate Bootstrapped(stored: StoredKey, ok: bool)
      reads this
    {
      var looked := old(View()).(pending := multiset{stored.keyHash});
      && Valid()
      && Runs.Next(old(View()), Runs.Looked(stored.keyHash), looked)
      && (keysFile ==>
            Runs.Next(
              looked, if ok then Runs.Updated(Bootstrap(stored)) else Runs.SaveFailed(Bootstrap(stored)), View()))
      && (!keysFile ==> ok && Applies(old(keys), Bootstrap(stored), keys) && file == old(file))
    }

    function Live(raw: string, now: int): (r: Option<StoredKey>)
      reads this
      ensures r.Some? <==> Runs.Accepts(View(), hashKey(raw), now)
      ensures r.Some? <==>
        && hashKey(raw) in keys && keys[hashKey(raw)].enabled
        && Runs.InTime(keys[hashKey(raw)].grant, now)
      ensures r.Some? ==> r.value == keys[hashKey(raw)]
    {
      var h := hashKey(raw);
      if h in keys && IsLive(keys[h], now) then Some(keys[h]) else None
    }

    /** `resolve_tenant`: the check, then the touch. */
    method ResolveTenant(raw: string, checkedAt: int, touchedAt: int) returns (tenant: Option<string>)
      requires Valid()
      modifies this`keys
      ensures Valid()
      ensures tenant.Some? <==> old(Runs.Accepts(View(), hashKey(raw), checkedAt))
      ensures tenant.Some? <==>
        && hashKey(raw) in old(keys) && old(keys)[hashKey(raw)].enabled
        && Runs.InTime(old(keys)[hashKey(raw)].grant, checkedAt)
      ensures tenant.Some? ==> tenant.value == old(keys)[hashKey(raw)].grant.tenantId
      ensures tenant.Some? ==> hashKey(raw) in keys && keys[hashKey(raw)].lastUsedAt == Some(touchedAt)
      ensures if tenant.Some? then Runs.Next(old(View()), Runs.Touched(hashKey(raw), touchedAt), View())
        else keys == old(keys)
    {
      var k := Live(raw, checkedAt);
      if k.None? {
        return None;
      }
      keys := Runs.Touch(keys, hashKey(raw), touchedAt);
      tenant := Some(k.value.grant.tenantId);
    }

    /** The first step of `namespace_repo`, under the read lock. */
    function CachedRepo(ns: string): (r: Option<Repository>)
      reads this
      ensures r.Some? ==> ns in namespaceRepos && r.value == namespaceRepos[ns]
      ensures r.None? <==> ns !in namespaceRepos
    {
      if ns in namespaceRepos then Some(namespaceRepos[ns]) else None
    }

    /** The last step, under the write lock: whatever came first stays. */
    method InsertIfAbsent(ns: string, repo: Repository) returns (kept: Repository)
      requires Valid() && ValidName(ns) && repo.namespace == ns && repo.branchesOnly
      modifies this`namespaceRepos
      ensures Valid()
      ensures kept == if ns in old(namespaceRepos) then old(namespaceRepos)[ns] else repo
      ensures namespaceRepos == old(namespaceRepos)[ns := kept]
    {
      if ns !in namespaceRepos {
        namespaceRepos := namespaceRepos[ns := repo];
      }
      kept := namespaceRepos[ns];
    }

    /** `namespace_repo`, its steps undisturbed. */
    method NamespaceRepo(ns: string) returns (access: Access)
      requires Valid()
      modifies this`namespaceRepos
      ensures Valid()
      ensures access ==
        if ValidName(ns) && ns in namespaceRepos then Granted(namespaceRepos[ns]) else Refused(BadKeyNamespace)
      ensures ValidName(ns) ==> ns in namespaceRepos
      ensures forall n :: n in old(namespaceRepos) ==>
        n in namespaceRepos && namespaceRepos[n] == old(namespaceRepos[n])
    {
      var cached := CachedRepo(ns);
      if cached.Some? {
        return Granted(cached.value);
      }
      if !ValidName(ns) {
        return Refused(BadKeyNamespace);
      }
      var repo := new Repository(ns, true);
      var kept := InsertIfAbsent(ns, repo);
      access := Granted(kept);
    }

    /** What a live key may open, or why it may not. */
    ghost predicate RightFor(k: StoredKey, access: Access) {
      if !k.grant.isAdmin && k.grant.tenantId != tenantId
      then access == Refused(WrongTenant(k.grant.tenantId, tenantId))
      else
        match k.grant.namespaceId
        case None => access == Granted(defaultRepo)
        case Some(ns) =>
          if ValidName(ns) then access.Granted? && access.repo.namespace == ns && access.repo.branchesOnly
          else access == Refused(BadKeyNamespace)
    }

    /** `get_repo`: the key is checked twice, with the touch in between. */
    method GetRepo(apiKey: Option<string>, checkedAt: int, touchedAt: int, againAt: int) returns (access: Access)
      requires Valid()
      modifies this`keys, this`namespaceRepos
      ensures Valid() && Runs.Untouched(keys) == old(Runs.Untouched(keys))
      ensures !authEnabled ==> access == Granted(defaultRepo)
      ensures authEnabled && apiKey.None? ==> access == Refused(MissingKey)
      ensures authEnabled && apiKey.Some? ==>
        if old(Runs.Accepts(View(), hashKey(apiKey.value), checkedAt))
          && old(Runs.Accepts(View(), hashKey(apiKey.value), againAt))
        then RightFor(old(keys)[hashKey(apiKey.value)], access)
        else access == Refused(InvalidKey)
      ensures authEnabled && apiKey.Some? ==> (access != Refused(InvalidKey) <==>
        && hashKey(apiKey.value) in old(keys) && old(keys)[hashKey(apiKey.value)].enabled
        && Runs.InTime(old(keys)[hashKey(apiKey.value)].grant, checkedAt)
        && Runs.InTime(old(keys)[hashKey(apiKey.value)].grant, againAt))
      ensures authEnabled && access.Granted? ==> apiKey.Some? && hashKey(apiKey.value) in old(keys)
      ensures authEnabled && access.Granted? ==>
        var g := old(keys)[hashKey(apiKey.value)].grant;
        && (g.isAdmin || g.tenantId == tenantId)
        && (g.namespaceId.Some? ==> access.repo.namespace == g.namespaceId.value && access.repo.branchesOnly)
        && (g.namespaceId.None? ==> access.repo == defaultRepo)
    {
      if !authEnabled {
        return Granted(defaultRepo);
      }
      if apiKey.None? {
        return Refused(MissingKey);
      }
      ghost var was := keys;
      var tenant := ResolveTenant(apiKey.value, checkedAt, touchedAt);
      assert Runs.Untouched(keys) == Runs.Untouched(was);
      if tenant.None? {
        return Refused(InvalidKey);
      }
      var stored := Live(apiKey.value, againAt);
      if stored.None? {
        return Refused(InvalidKey);
      }
      if !stored.value.grant.isAdmin && tenant.value != tenantId {
        return Refused(WrongTenant(tenant.value, tenantId));
      }
      match stored.value.grant.namespaceId
      case None => access := Granted(defaultRepo);
      case Some(ns) => access := NamespaceRepo(ns);
    }
  }

  /** The bootstrap admin's key may do everything, in the default repository, and does not expire. */
  lemma AdminOpensDefault(mgr: TenantManager, k: StoredKey, name: string, access: Access, now: int)
    requires k.grant == AdminGrant(name) && mgr.RightFor(k, access)
    ensures access == Granted(mgr.defaultRepo) && k.grant.canMigrate && k.grant.isAdmin
    ensures k.grant.tenantId == "admin" && k.grant.plan == "admin" && k.grant.name == name
    ensures k.grant.commitAgentId == None
    ensures Runs.InTime(k.grant, now)
  {
  }

  datatype Opened = Manager(mgr: TenantManager) | CannotOpen(version: nat)

  /** `multi_tenant_for`: a file from a newer server is refused, not replaced. */
  method MultiTenantFor(
    hashKey: string -> string, preview: string -> string, repo: Repository, tenantId: string, path: KeysPath)
    returns (result: Opened)
    ensures result.CannotOpen? <==>
      path.At? && path.content.Some? && path.content.value.version > 2
    ensures result.Manager? ==>
      && fresh(result.mgr) && result.mgr.Valid() && Runs.StartsFrom(result.mgr.View())
      && result.mgr.authEnabled && result.mgr.tenantId == tenantId && result.mgr.defaultRepo == repo
      && result.mgr.keysFile == path.At? && (path.At? ==> result.mgr.file == path.content)
      && (path.NoFile? || path.content.None? ==> result.mgr.keys == map[])
  {
    var loaded := if path.At? then Load(path.content) else Loaded(map[]);
    if loaded.NewerVersion? {
      return CannotOpen(loaded.version);
    }
    var mgr := new TenantManager.MultiTenant(hashKey, preview, repo, tenantId, path, loaded.keys);
    result := Manager(mgr);
  }
}

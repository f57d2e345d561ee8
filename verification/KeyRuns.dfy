/**
 Every run of a key server with a keys file: calls that succeed, calls whose save fails,
 crashes, restarts, touches at any moment, and bootstraps whose check and insert are two steps.
 */
module KeyRuns {
  import opened Order
  import opened KeyStore

  /**
   `pending` holds the hashes bootstraps looked up, did not find, and have not inserted yet.
   The id comes with the insert.
   */
  datatype State = State(mem: Keys, file: Option<KeysFile>, pending: multiset<string>)

  datatype Event =
    | Updated(change: Change)
    | SaveFailed(change: Change)
    | Looked(hash: string)
    | AlreadyRegistered(hash: string)
    | Touched(hash: string, now: int)
    | Crashed(change: Change)
    | Restarted

  /** The touch of `resolve_tenant`, which comes after its check and under its own lock. */
  function Touch(keys: Keys, h: string, now: int): Keys {
    if h in keys then keys[h := keys[h].(lastUsedAt := Some(now))] else keys
  }

  ghost predicate StartsFrom(s: State) {
    Load(s.file) == Loaded(s.mem) && s.pending == multiset{}
  }

  /** A bootstrap key: enabled, and without expiry. */
  predicate BootstrapKey(key: StoredKey) {
    key.enabled && key.grant.expiresAt.None?
  }

  /** A call is under way: any call, or a bootstrap that found its key missing. */
  predicate UnderWay(s: State, change: Change) {
    change.Bootstrap? ==> BootstrapKey(change.key) && change.key.keyHash in s.pending
  }

  function PendingAfter(s: State, change: Change): multiset<string> {
    if change.Bootstrap? then s.pending - multiset{change.key.keyHash} else s.pending
  }

  /** A save is all or nothing; a crash after it loses only the memory. */
  ghost predicate Next(s: State, e: Event, t: State) {
    match e
    case Updated(change) =>
      && UnderWay(s, change) && Applies(s.mem, change, t.mem)
      && SavedIn(t.mem, t.file) && t.pending == PendingAfter(s, change)
    case SaveFailed(change) => UnderWay(s, change) && t == s.(pending := PendingAfter(s, change))
    case Looked(h) => h !in s.mem && t == s.(pending := s.pending + multiset{h})
    case AlreadyRegistered(h) => h in s.mem && t == s
    case Touched(h, now) => t == s.(mem := Touch(s.mem, h, now))
    case Crashed(change) =>
      && UnderWay(s, change)
      && (exists next :: Applies(s.mem, change, next) && SavedIn(next, t.file))
      && StartsFrom(t)
    case Restarted => t.file == s.file && StartsFrom(t)
  }

  ghost predicate StepAt(states: seq<State>, events: seq<Event>, i: nat)
    requires i < |events| < |states|
  {
    Next(states[i], events[i], states[i + 1])
  }

  ghost predicate Steps(states: seq<State>, events: seq<Event>) {
    |states| == |events| + 1 && forall i :: 0 <= i < |events| ==> StepAt(states, events, i)
  }

  ghost predicate Run(states: seq<State>, events: seq<Event>) {
    Steps(states, events) && StartsFrom(states[0])
  }

  // ----- the file agrees with the memory

  /** The keys without their "last used" times. */
  function Untouched(keys: Keys): Keys {
    map h | h in keys :: keys[h].(lastUsedAt := None)
  }

  ghost predicate Agree(s: State) {
    && Keyed(s.mem)
    && Load(s.file).Loaded?
    && Untouched(Load(s.file).keys) == Untouched(s.mem)
  }

  lemma NextAgrees(s: State, e: Event, t: State)
    requires Agree(s) && Next(s, e, t)
    ensures Agree(t)
  {
    match e
    case Updated(change) =>
      ChangeKeepsKeyed(s.mem, change, t.mem);
      LoadSaved(t.mem, t.file);
    case Touched(h, now) =>
      assert Untouched(t.mem) == Untouched(s.mem);
    case Crashed(_) =>
      LoadIsKeyed(t.file);
    case Restarted =>
      LoadIsKeyed(t.file);
    case _ =>
  }

  lemma {:induction false} StepsAgree(states: seq<State>, events: seq<Event>, i: nat)
    requires Steps(states, events) && Agree(states[0]) && i < |states|
    ensures Agree(states[i])
    decreases i
  {
    if i > 0 {
      StepsAgree(states, events, i - 1);
      assert StepAt(states, events, i - 1);
      NextAgrees(states[i - 1], events[i - 1], states[i]);
    }
  }

  /** In every run each key is under its own hash, and the file holds what the memory holds. */
  lemma RunAgrees(states: seq<State>, events: seq<Event>, i: nat)
    requires Run(states, events) && i < |states|
    ensures Agree(states[i])
  {
    LoadIsKeyed(states[0].file);
    StepsAgree(states, events, i);
  }

  /** A restart loses nothing but "last used" times. */
  lemma RestartLosesNothing(states: seq<State>, events: seq<Event>, i: nat)
    requires Run(states, events) && i < |events| && events[i] == Restarted
    ensures Untouched(states[i + 1].mem) == Untouched(states[i].mem)
  {
    RunAgrees(states, events, i);
    assert StepAt(states, events, i);
  }

  // ----- fresh keys and ids

  /** Generated keys and ids are new. A bootstrap key is the operator's: only its id is generated. */
  ghost predicate Fresh(keys: Keys, change: Change) {
    match change
    case Insert(key) => key.keyHash !in keys && NoneHasId(keys, key.id)
    case Bootstrap(key) => NoneHasId(keys, key.id)
    case Rotate(_, newId, newHash, _, _) => newHash !in keys && NoneHasId(keys, newId)
    case Revoke(_) => true
  }

  ghost predicate FreshEvent(s: State, e: Event) {
    (e.Updated? || e.Crashed?) ==> Fresh(s.mem, e.change)
  }

  ghost predicate FreshAt(states: seq<State>, events: seq<Event>, i: nat)
    requires i < |events| < |states|
  {
    FreshEvent(states[i], events[i])
  }

  ghost predicate FreshSteps(states: seq<State>, events: seq<Event>) {
    Steps(states, events) && forall i :: 0 <= i < |events| ==> FreshAt(states, events, i)
  }

  ghost predicate FreshRun(states: seq<State>, events: seq<Event>) {
    FreshSteps(states, events) && StartsFrom(states[0]) && UniqueIds(states[0].mem)
  }

  lemma StepOf(states: seq<State>, events: seq<Event>, i: nat)
    requires FreshSteps(states, events) && Agree(states[0]) && i < |events|
    ensures Agree(states[i]) && Next(states[i], events[i], states[i + 1]) && FreshEvent(states[i], events[i])
  {
    StepsAgree(states, events, i);
    assert StepAt(states, events, i) && FreshAt(states, events, i);
  }

  /** What a change or a crash leaves in memory is what the change made. */
  lemma MadeBy(s: State, e: Event, t: State) returns (next: Keys)
    requires Agree(s) && Next(s, e, t) && (e.Updated? || e.Crashed?)
    ensures Applies(s.mem, e.change, next) && t.mem == next && Load(t.file) == Loaded(next)
  {
    if e.Updated? {
      next := t.mem;
    } else {
      next :| Applies(s.mem, e.change, next) && SavedIn(next, t.file);
    }
    ChangeKeepsKeyed(s.mem, e.change, next);
    LoadSaved(next, t.file);
  }

  // ----- unique ids

  lemma ChangeKeepsIds(keys: Keys, change: Change, next: Keys)
    requires UniqueIds(keys) && Applies(keys, change, next) && Fresh(keys, change)
    ensures UniqueIds(next)
  {
  }

  /** Equal but for touches: the same hashes, ids, grants and enabled flags. */
  lemma SameButTouches(a: Keys, b: Keys)
    requires Untouched(a) == Untouched(b)
    ensures UniqueIds(a) <==> UniqueIds(b)
    ensures forall h :: h in a <==> h in b
    ensures forall h :: h in a ==> a[h].id == b[h].id && a[h].grant == b[h].grant && a[h].enabled == b[h].enabled
  {
    assert forall h :: h in a <==> h in Untouched(a);
    assert forall h :: h in b <==> h in Untouched(b);
    forall h | h in a
      ensures a[h].id == b[h].id && a[h].grant == b[h].grant && a[h].enabled == b[h].enabled
    {
      assert Untouched(a)[h] == Untouched(b)[h];
    }
  }

  lemma NextKeepsIds(s: State, e: Event, t: State)
    requires Agree(s) && Next(s, e, t) && FreshEvent(s, e) && UniqueIds(s.mem)
    ensures UniqueIds(t.mem)
  {
    if e.Updated? || e.Crashed? {
      var next := MadeBy(s, e, t);
      ChangeKeepsIds(s.mem, e.change, next);
    } else if e.Restarted? {
      SameButTouches(t.mem, s.mem);
    }
  }

  lemma {:induction false} RunKeepsIds(states: seq<State>, events: seq<Event>, i: nat)
    requires FreshRun(states, events) && i < |states|
    ensures UniqueIds(states[i].mem)
    decreases i
  {
    if i > 0 {
      RunKeepsIds(states, events, i - 1);
      RunAgrees(states, events, 0);
      StepOf(states, events, i - 1);
      NextKeepsIds(states[i - 1], events[i - 1], states[i]);
    }
  }

  // ----- disabled stays disabled

  ghost predicate Off(keys: Keys, h: string) {
    h in keys && !keys[h].enabled
  }

  /** Disabled in memory and in the file. */
  ghost predicate Dead(s: State, h: string) {
    Off(s.mem, h) && Load(s.file).Loaded? && Off(Load(s.file).keys, h)
  }

  /** No bootstrap of the key is between its check and its insert. */
  predicate Clear(s: State, h: string) {
    h !in s.pending
  }

  lemma ChangeKeepsOff(s: State, change: Change, next: Keys, h: string)
    requires Off(s.mem, h) && Clear(s, h) && UnderWay(s, change) && Applies(s.mem, change, next) && Fresh(s.mem, change)
    ensures Off(next, h)
  {
  }

  lemma NextKeepsDead(s: State, e: Event, t: State, h: string)
    requires Agree(s) && Next(s, e, t) && FreshEvent(s, e) && Dead(s, h) && Clear(s, h)
    ensures Dead(t, h) && Clear(t, h)
  {
    if e.Updated? || e.Crashed? {
      var next := MadeBy(s, e, t);
      ChangeKeepsOff(s, e.change, next, h);
    }
  }

  lemma {:induction false} DeadForever(states: seq<State>, events: seq<Event>, h: string, i: nat, j: nat)
    requires FreshSteps(states, events) && Agree(states[0]) && i <= j < |states|
    requires Dead(states[i], h) && Clear(states[i], h)
    ensures Dead(states[j], h) && Clear(states[j], h)
    decreases j - i
  {
    if i < j {
      DeadForever(states, events, h, i, j - 1);
      StepOf(states, events, j - 1);
      NextKeepsDead(states[j - 1], events[j - 1], states[j], h);
    }
  }

  /** A raw key is accepted: the check every request starts with. */
  predicate Accepts(s: State, h: string, now: int) {
    h in s.mem && IsLive(s.mem[h], now)
  }

  lemma RetiredIsDead(s: State, change: Change, t: State, h: string)
    requires Agree(s) && UniqueIds(s.mem) && Fresh(s.mem, change) && Next(s, Updated(change), t)
    requires Retires(change) && HasId(s.mem, h, change.keyId)
    ensures Dead(t, h) && t.pending == s.pending
  {
    var next := MadeBy(s, Updated(change), t);
    var at :| AppliesAt(s.mem, change, t.mem, at);
    assert at == h;
  }

  lemma RetiredNextIsDead(states: seq<State>, events: seq<Event>, i: nat, change: Change, h: string)
    requires FreshRun(states, events) && i < |events|
    requires events[i] == Updated(change) && Retires(change) && HasId(states[i].mem, h, change.keyId)
    ensures Dead(states[i + 1], h) && states[i + 1].pending == states[i].pending
  {
    RunKeepsIds(states, events, i);
    RunAgrees(states, events, 0);
    StepOf(states, events, i);
    RetiredIsDead(states[i], change, states[i + 1], h);
  }

  /**
   Once a revoke or rotate returned Ok, the key with that id is accepted at no later moment of
   the run, whatever restarts, bootstraps and touches follow, if no bootstrap of that very key
   was under way.
   */
  lemma RetiredIsNeverAccepted(
    states: seq<State>, events: seq<Event>, i: nat, change: Change, h: string, j: nat, now: int)
    requires FreshRun(states, events) && i < j < |states|
    requires events[i] == Updated(change) && Retires(change) && HasId(states[i].mem, h, change.keyId)
    requires Clear(states[i], h)
    ensures !Accepts(states[j], h, now)
  {
    RetiredNextIsDead(states, events, i, change, h);
    RunAgrees(states, events, 0);
    DeadForever(states, events, h, i + 1, j);
  }

  // ----- exactly when a retired key can come back

  /** From `s` on, in every continuation, the key is refused at every moment. */
  ghost predicate RefusedForever(s: State, h: string) {
    forall states, events, j: nat, now ::
      FreshSteps(states, events) && states[0] == s && j < |states| ==> !Accepts(states[j], h, now)
  }

  /** The next state when a pending bootstrap inserts its key. */
  lemma BootstrapStep(s: State, key: StoredKey) returns (t: State)
    requires Agree(s) && UnderWay(s, Bootstrap(key)) && NoneHasId(s.mem, key.id)
    ensures Next(s, Updated(Bootstrap(key)), t) && FreshEvent(s, Updated(Bootstrap(key)))
    ensures t.mem == s.mem[key.keyHash := key] && t.pending == s.pending - multiset{key.keyHash}
  {
    var next := s.mem[key.keyHash := key];
    ChangeKeepsKeyed(s.mem, Bootstrap(key), next);
    var list := ListExists(next);
    t := State(next, Some(KeysFile(KEYS_FILE_VERSION, list)), s.pending - multiset{key.keyHash});
  }

  /** There is always another id. */
  lemma {:induction false} NewId(keys: Keys) returns (id: string)
    requires Keyed(keys)
    ensures forall h :: h in keys ==> |keys[h].id| < |id|
    decreases |keys|
  {
    if keys == map[] {
      id := "";
    } else {
      var h :| h in keys;
      var rest := NewId(keys - {h});
      id := rest + keys[h].id + "+";
      forall g | g in keys ensures |keys[g].id| < |id| {
        if g != h { assert g in keys - {h} && (keys - {h})[g] == keys[g]; }
      }
    }
  }

  /** A bootstrap whose check came before the key was registered and retired puts it back. */
  lemma LateBootstrapRevives(s: State, h: string, now: int) returns (key: StoredKey, t: State)
    requires Agree(s) && h in s.pending
    ensures key.keyHash == h && Next(s, Updated(Bootstrap(key)), t) && FreshEvent(s, Updated(Bootstrap(key)))
    ensures Accepts(t, h, now)
  {
    var id := NewId(s.mem);
    key := StoredKey(id, h, "***", AdminGrant("bootstrap-admin"), true, now, None);
    t := BootstrapStep(s, key);
  }

  lemma OneStep(s: State, e: Event, t: State)
    requires Next(s, e, t) && FreshEvent(s, e)
    ensures FreshSteps([s, t], [e])
  {
    var states, events := [s, t], [e];
    assert StepAt(states, events, 0) && FreshAt(states, events, 0);
  }

  /** A retired key is refused forever exactly when no bootstrap of it is under way. */
  lemma RetirementIsFinal(s: State, h: string)
    requires Agree(s) && Dead(s, h)
    ensures RefusedForever(s, h) <==> Clear(s, h)
  {
    if Clear(s, h) {
      ClearIsRefused(s, h);
    } else {
      var key, t := LateBootstrapRevives(s, h, 0);
      var states, events := [s, t], [Updated(Bootstrap(key))];
      OneStep(s, events[0], t);
      assert states[0] == s && Accepts(states[1], h, 0);
    }
  }

  lemma ClearIsRefused(s: State, h: string)
    requires Agree(s) && Dead(s, h) && Clear(s, h)
    ensures RefusedForever(s, h)
  {
    forall states, events, j: nat, now
      | FreshSteps(states, events) && states[0] == s && j < |states|
      ensures !Accepts(states[j], h, now)
    {
      DeadForever(states, events, h, 0, j);
    }
  }

  // ----- a run in which a retired key comes back

  lemma RevokeStep(s: State, h: string) returns (t: State)
    requires Agree(s) && h in s.mem
    ensures Next(s, Updated(Revoke(s.mem[h].id)), t) && t.mem == Disable(s.mem, h) && t.pending == s.pending
  {
    var next := Disable(s.mem, h);
    assert AppliesAt(s.mem, Revoke(s.mem[h].id), next, h);
    ChangeKeepsKeyed(s.mem, Revoke(s.mem[h].id), next);
    var list := ListExists(next);
    t := State(next, Some(KeysFile(KEYS_FILE_VERSION, list)), s.pending);
  }

  const Empty := State(map[], None, multiset{})

  /** The two bootstraps of a race: the same raw key, an id each. */
  ghost predicate Racing(first: StoredKey, second: StoredKey) {
    BootstrapKey(first) && BootstrapKey(second) && first.keyHash == second.keyHash && first.id != second.id
  }

  function RacedEvents(first: StoredKey, second: StoredKey): seq<Event> {
    [Looked(first.keyHash), Looked(first.keyHash), Updated(Bootstrap(first)), Updated(Revoke(first.id)),
     Updated(Bootstrap(second))]
  }

  /**
   From an empty store: two bootstraps of one key both find it missing, the first registers it,
   it is revoked and refused, and the second registers it again.
   */
  lemma RacedBootstrapRevives(first: StoredKey, second: StoredKey, now: int) returns (states: seq<State>)
    requires Racing(first, second)
    ensures FreshRun(states, RacedEvents(first, second)) && states[0] == Empty
    ensures Accepts(states[3], first.keyHash, now)
    ensures Dead(states[4], first.keyHash) && !Accepts(states[4], first.keyHash, now)
    ensures Accepts(states[5], first.keyHash, now)
  {
    var looked := [Looked(first.keyHash), Looked(first.keyHash)];
    var before := BothLook(first.keyHash);
    var s3, s4, s5 := RacedTail(before, looked, first, second, now);
    states := before + [s3, s4, s5];
    assert looked + RegisteredTwice(first, second) == RacedEvents(first, second);
    EmptyStarts();
    assert states[3] == s3 && states[4] == s4 && states[5] == s5;
  }

  function RegisteredTwice(first: StoredKey, second: StoredKey): seq<Event> {
    [Updated(Bootstrap(first)), Updated(Revoke(first.id)), Updated(Bootstrap(second))]
  }

  lemma RacedTail(states: seq<State>, events: seq<Event>, first: StoredKey, second: StoredKey, now: int)
    returns (t: State, u: State, v: State)
    requires FreshSteps(states, events) && Racing(first, second)
    requires states[|events|] == AfterLook(AfterLook(Empty, first.keyHash), first.keyHash)
    ensures FreshSteps(states + [t, u, v], events + RegisteredTwice(first, second))
    ensures Accepts(t, first.keyHash, now) && Accepts(v, first.keyHash, now)
    ensures Dead(u, first.keyHash) && !Accepts(u, first.keyHash, now)
  {
    t, u, v := ComesBack(states[|events|], first, second, now);
    var tail := RegisteredTwice(first, second);
    AddThree(states, events, tail[0], t, tail[1], u, tail[2], v);
  }

  lemma EmptyStarts()
    ensures StartsFrom(Empty) && UniqueIds(Empty.mem)
  {
  }

  /** Registered, revoked and refused, registered again. */
  lemma ComesBack(s: State, first: StoredKey, second: StoredKey, now: int) returns (t: State, u: State, v: State)
    requires Racing(first, second) && s == AfterLook(AfterLook(Empty, first.keyHash), first.keyHash)
    ensures FreshNext(s, Updated(Bootstrap(first)), t) && Accepts(t, first.keyHash, now)
    ensures FreshNext(t, Updated(Revoke(first.id)), u) && Dead(u, first.keyHash) && !Accepts(u, first.keyHash, now)
    ensures FreshNext(u, Updated(Bootstrap(second)), v) && Accepts(v, first.keyHash, now)
  {
    t, u := RegisteredThenRevoked(s, first);
    v := BootstrapStep(u, second);
    assert IsLive(first, now) && IsLive(second, now);
  }

  lemma BothLook(h: string) returns (states: seq<State>)
    ensures FreshSteps(states, [Looked(h), Looked(h)]) && states[0] == Empty
    ensures states[2] == AfterLook(AfterLook(Empty, h), h)
  {
    var once := AfterLook(Empty, h);
    states := [Empty] + [once, AfterLook(once, h)];
    NoSteps(Empty);
    AddTwo([Empty], [], Looked(h), once, Looked(h), AfterLook(once, h));
    assert [] + [Looked(h), Looked(h)] == [Looked(h), Looked(h)];
  }

  function AfterLook(s: State, h: string): State {
    s.(pending := s.pending + multiset{h})
  }

  lemma RegisteredThenRevoked(s: State, key: StoredKey) returns (t: State, u: State)
    requires s.mem == map[] && s.file == None && UnderWay(s, Bootstrap(key))
    ensures Next(s, Updated(Bootstrap(key)), t) && FreshEvent(s, Updated(Bootstrap(key)))
    ensures Next(t, Updated(Revoke(key.id)), u)
    ensures t.mem == map[key.keyHash := key] && u.mem == map[key.keyHash := key.(enabled := false)]
    ensures Agree(u) && Dead(u, key.keyHash) && u.pending == s.pending - multiset{key.keyHash}
  {
    t := RegisteredFirst(s, key);
    OneKeyIsUnique(key);
    u := RevokedIsDead(t, key.keyHash);
  }

  lemma OneKeyIsUnique(key: StoredKey)
    ensures var keys := map[key.keyHash := key];
      UniqueIds(keys) && Disable(keys, key.keyHash) == map[key.keyHash := key.(enabled := false)]
  {
  }

  lemma RegisteredFirst(s: State, key: StoredKey) returns (t: State)
    requires s.mem == map[] && s.file == None && UnderWay(s, Bootstrap(key))
    ensures Next(s, Updated(Bootstrap(key)), t) && FreshEvent(s, Updated(Bootstrap(key))) && Agree(t)
    ensures t.mem == map[key.keyHash := key] && t.pending == s.pending - multiset{key.keyHash}
  {
    t := BootstrapStep(s, key);
    assert t.mem == map[key.keyHash := key];
    NextAgrees(s, Updated(Bootstrap(key)), t);
  }

  lemma RevokedIsDead(s: State, h: string) returns (t: State)
    requires Agree(s) && UniqueIds(s.mem) && h in s.mem
    ensures Next(s, Updated(Revoke(s.mem[h].id)), t) && Agree(t) && Dead(t, h)
    ensures t.mem == Disable(s.mem, h) && t.pending == s.pending
  {
    t := RevokeStep(s, h);
    NextAgrees(s, Updated(Revoke(s.mem[h].id)), t);
    RetiredIsDead(s, Revoke(s.mem[h].id), t, h);
  }

  ghost predicate FreshNext(s: State, e: Event, t: State) {
    Next(s, e, t) && FreshEvent(s, e)
  }

  lemma AddTwo(states: seq<State>, events: seq<Event>, e: Event, t: State, f: Event, u: State)
    requires FreshSteps(states, events) && FreshNext(states[|events|], e, t) && FreshNext(t, f, u)
    ensures FreshSteps(states + [t, u], events + [e, f])
  {
    AddStep(states, events, e, t);
    AddStep(states + [t], events + [e], f, u);
    assert states + [t] + [u] == states + [t, u] && events + [e] + [f] == events + [e, f];
  }

  lemma AddThree(
    states: seq<State>, events: seq<Event>, e: Event, t: State, f: Event, u: State, g: Event, v: State)
    requires FreshSteps(states, events)
    requires FreshNext(states[|events|], e, t) && FreshNext(t, f, u) && FreshNext(u, g, v)
    ensures FreshSteps(states + [t, u, v], events + [e, f, g])
  {
    AddTwo(states, events, e, t, f, u);
    AddStep(states + [t, u], events + [e, f], g, v);
    assert states + [t, u] + [v] == states + [t, u, v] && events + [e, f] + [g] == events + [e, f, g];
  }

  lemma NoSteps(s: State)
    ensures FreshSteps([s], [])
  {
  }

  lemma AddStep(states: seq<State>, events: seq<Event>, e: Event, t: State)
    requires FreshSteps(states, events) && FreshNext(states[|events|], e, t)
    ensures FreshSteps(states + [t], events + [e])
  {
    var longer, more := states + [t], events + [e];
    forall i | 0 <= i < |more| ensures StepAt(longer, more, i) && FreshAt(longer, more, i) {
      if i < |events| {
        assert StepAt(states, events, i) && FreshAt(states, events, i);
        assert longer[i] == states[i] && longer[i + 1] == states[i + 1] && more[i] == events[i];
      }
    }
  }

  // ----- a request reads one grant

  lemma ChangeKeepsGrant(s: State, change: Change, next: Keys, h: string)
    requires h in s.mem && Clear(s, h) && UnderWay(s, change) && Applies(s.mem, change, next) && Fresh(s.mem, change)
    ensures h in next && next[h].grant == s.mem[h].grant
  {
  }

  lemma NextKeepsGrant(s: State, e: Event, t: State, h: string)
    requires Agree(s) && Next(s, e, t) && FreshEvent(s, e) && h in s.mem && Clear(s, h)
    ensures h in t.mem && t.mem[h].grant == s.mem[h].grant && Clear(t, h)
  {
    if e.Updated? || e.Crashed? {
      var next := MadeBy(s, e, t);
      ChangeKeepsGrant(s, e.change, next, h);
    } else if e.Restarted? {
      SameButTouches(t.mem, s.mem);
    }
  }

  /**
   The two checks of a request, however many calls come between them, read the same tenant,
   admin flag, namespace and expiry for its key.
   */
  lemma {:induction false} RequestReadsOneGrant(states: seq<State>, events: seq<Event>, h: string, i: nat, j: nat)
    requires FreshRun(states, events) && i <= j < |states| && h in states[i].mem && Clear(states[i], h)
    ensures h in states[j].mem && states[j].mem[h].grant == states[i].mem[h].grant && Clear(states[j], h)
    decreases j - i
  {
    if i < j {
      RequestReadsOneGrant(states, events, h, i, j - 1);
      RunAgrees(states, events, 0);
      StepOf(states, events, j - 1);
      NextKeepsGrant(states[j - 1], events[j - 1], states[j], h);
    }
  }

  // ----- a key is accepted from its issue to its retirement or expiry

  /** The time is within a grant's expiry, if it has one. */
  predicate InTime(g: Grant, now: int) {
    match g.expiresAt
    case None => true
    case Some(t) => now <= t
  }

  /** The key a call issues. */
  ghost predicate Issues(s: State, change: Change, key: StoredKey) {
    match change
    case Insert(k) => key == k
    case Bootstrap(k) => key == k
    case Rotate(keyId, newId, newHash, preview, now) =>
      exists h :: HasId(s.mem, h, keyId) && key == StoredKey(newId, newHash, preview, s.mem[h].grant, true, now, None)
    case Revoke(_) => false
  }

  /** When create, bootstrap or rotate returned Ok, the issued key is accepted, within its time. */
  lemma IssuedIsAccepted(s: State, change: Change, t: State, key: StoredKey, now: int)
    requires Agree(s) && UniqueIds(s.mem) && Next(s, Updated(change), t) && Fresh(s.mem, change)
    requires Issues(s, change, key) && key.enabled && forall t :: key.grant.expiresAt == Some(t) ==> now <= t
    ensures key.keyHash in t.mem && t.mem[key.keyHash] == key && Accepts(t, key.keyHash, now)
  {
    if change.Rotate? {
      var h :| HasId(s.mem, h, change.keyId) &&
        key == StoredKey(change.newId, change.newHash, change.preview, s.mem[h].grant, true, change.now, None);
      var at :| AppliesAt(s.mem, change, t.mem, at);
      assert at == h;
    }
  }

  /** The call retires the key with this id; a crash may come after its save. */
  predicate RetiresId(e: Event, id: string) {
    (e.Updated? || e.Crashed?) && Retires(e.change) && e.change.keyId == id
  }

  ghost predicate On(s: State, h: string, id: string, g: Grant) {
    h in s.mem && s.mem[h].enabled && s.mem[h].id == id && s.mem[h].grant == g && Clear(s, h)
  }

  lemma ChangeKeepsOn(s: State, change: Change, next: Keys, h: string)
    requires h in s.mem && s.mem[h].enabled && Clear(s, h) && UnderWay(s, change)
    requires Applies(s.mem, change, next) && Fresh(s.mem, change)
    requires Retires(change) ==> change.keyId != s.mem[h].id
    ensures h in next && next[h] == s.mem[h]
  {
  }

  lemma NextKeepsOn(s: State, e: Event, t: State, h: string, id: string, g: Grant)
    requires Agree(s) && Next(s, e, t) && FreshEvent(s, e) && On(s, h, id, g) && !RetiresId(e, id)
    ensures On(t, h, id, g)
  {
    if e.Updated? || e.Crashed? {
      var next := MadeBy(s, e, t);
      ChangeKeepsOn(s, e.change, next, h);
    } else if e.Restarted? {
      SameButTouches(t.mem, s.mem);
    }
  }

  lemma {:induction false} StaysOn(
    states: seq<State>, events: seq<Event>, h: string, id: string, g: Grant, i: nat, j: nat)
    requires FreshRun(states, events) && i <= j < |states| && On(states[i], h, id, g)
    requires forall k :: i <= k < j ==> !RetiresId(events[k], id)
    ensures On(states[j], h, id, g)
    decreases j - i
  {
    if i < j {
      StaysOn(states, events, h, id, g, i, j - 1);
      RunAgrees(states, events, 0);
      StepOf(states, events, j - 1);
      NextKeepsOn(states[j - 1], events[j - 1], states[j], h, id, g);
    }
  }

  /**
   An enabled key is accepted at every later moment within its time, through failures, crashes,
   restarts, touches and calls about other keys, as long as no call retires it.
   */
  lemma AcceptedUntilRetired(states: seq<State>, events: seq<Event>, h: string, i: nat, j: nat, now: int)
    requires FreshRun(states, events) && i <= j < |states| && h in states[i].mem && Clear(states[i], h)
    requires states[i].mem[h].enabled && forall t :: states[i].mem[h].grant.expiresAt == Some(t) ==> now <= t
    requires forall k :: i <= k < j ==> !RetiresId(events[k], states[i].mem[h].id)
    ensures Accepts(states[j], h, now)
  {
    StaysOn(states, events, h, states[i].mem[h].id, states[i].mem[h].grant, i, j);
  }

  /** After its expiry a key is accepted at no moment of the run, whatever happens. */
  lemma ExpiredIsNeverAccepted(states: seq<State>, events: seq<Event>, h: string, i: nat, j: nat, t: int, now: int)
    requires FreshRun(states, events) && i <= j < |states| && h in states[i].mem && Clear(states[i], h)
    requires states[i].mem[h].grant.expiresAt == Some(t) && now > t
    ensures !Accepts(states[j], h, now)
  {
    RequestReadsOneGrant(states, events, h, i, j);
  }

  // ----- a touch is saved with the next change

  lemma ChangeKeepsTouch(s: State, change: Change, next: Keys, h: string)
    requires h in s.mem && Clear(s, h) && UnderWay(s, change) && Applies(s.mem, change, next) && Fresh(s.mem, change)
    ensures h in next && next[h].lastUsedAt == s.mem[h].lastUsedAt
  {
  }

  /** A touch is in memory at once, and after the next successful change it survives a restart. */
  lemma TouchIsSaved(s: State, h: string, now: int, t: State, change: Change, u: State, v: State)
    requires Agree(s) && h in s.mem && Clear(s, h)
    requires Next(s, Touched(h, now), t) && Next(t, Updated(change), u) && Fresh(t.mem, change) && Next(u, Restarted, v)
    ensures t.mem[h].lastUsedAt == Some(now)
    ensures h in v.mem && v.mem[h].lastUsedAt == Some(now)
  {
    NextAgrees(s, Touched(h, now), t);
    var next := MadeBy(t, Updated(change), u);
    ChangeKeepsTouch(t, change, next, h);
  }
}

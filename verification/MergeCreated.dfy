/**
 What `created` holds: every node the merge made, children before parents, enough to
 read the whole merged tree back and nothing beside it.
 */
module MergeCreated {
  import opened Order
  import opened Objects
  import opened Dags
  import opened Merge

  /** The result of a call and the ids below it are in the store or among `created`. */
  ghost predicate Backed(d: Dag, r: Outcome, o: Object, t: Object) {
    && ChildFirst(d, r.created)
    && (r.obj == o || r.obj == t || r.obj in r.created)
    && Canonical(r.obj)
    && forall c :: c in Children(r.obj) ==> Held(d, r.created, c)
  }

  ghost predicate KeyBacked(d: Dag, entry: Option<ObjectId>, created: seq<Object>) {
    ChildFirst(d, created) && (entry.Some? ==> Held(d, created, entry.value))
  }

  lemma BackedId(d: Dag, r: Outcome, o: Object, t: Object)
    requires Backed(d, r, o, t) && Stored(d, o) && Stored(d, t)
    ensures Held(d, r.created, d.idOf(r.obj))
  {
    if r.obj in r.created {
      var j :| 0 <= j < |r.created| && r.created[j] == r.obj;
    }
  }

  lemma {:induction false} MergeBacked(d: Dag, path: string, b: Object, o: Object, t: Object)
    requires Sound(d) && Supported(d, b) && Supported(d, o) && Supported(d, t)
    ensures Backed(d, MergeObjects(d, path, b, o, t), o, t)
    decreases Height(d.store, o), 2, 0
  {
    if o == t || b == o || b == t {
    } else if b.MapNode? && o.MapNode? && t.MapNode? {
      var ks := SortedKeys(AllKeys(b, o, t));
      KeysBacked(d, path, b, o, t, ks);
      MapsOutcome(d, path, b, o, t);
      NodeBacked(d, MergeKeys(d, path, b, o, t, ks).created, MergeObjects(d, path, b, o, t).obj);
    } else if b.SetNode? && o.SetNode? && t.SetNode? {
      SetsBacked(d, o, t);
    } else if b.ListNode? && o.ListNode? && t.ListNode? {
      NodeBacked(d, [], o);
    }
  }

  lemma SetsBacked(d: Dag, o: Object, t: Object)
    requires Supported(d, o) && Supported(d, t) && o.SetNode? && t.SetNode?
    ensures var u := MergedSet(o.members, t.members);
      Canonical(u) && ChildFirst(d, [u]) && forall c :: c in Children(u) ==> Held(d, [u], c)
  {
    var u := MergedSet(o.members, t.members);
    SortedIdsAscend(Elements(o.members) + Elements(t.members));
    AscendingIdsAreSorted(u.members);
    assert Children(u) == Children(o) + Children(t);
    NodeBacked(d, [], u);
    assert [] + [u] == [u];
  }

  lemma NodeBacked(d: Dag, created: seq<Object>, obj: Object)
    requires ChildFirst(d, created) && Canonical(obj)
    requires forall c :: c in Children(obj) ==> Held(d, created, c)
    ensures ChildFirst(d, created + [obj])
    ensures forall c :: c in Children(obj) ==> Held(d, created + [obj], c)
  {
    var all := created + [obj];
    forall i, c | 0 <= i < |all| && c in Children(all[i]) ensures Held(d, all[..i], c) {
      assert all[..i] == created[..i];
      assert created[..|created|] == created;
    }
    forall c | c in Children(obj) ensures Held(d, all, c) {
      HeldMore(d, created, [obj], c);
    }
  }

  lemma {:induction false} KeysBacked(d: Dag, path: string, b: Object, o: Object, t: Object, ks: seq<string>)
    requires Sound(d) && Supported(d, b) && Supported(d, o) && Supported(d, t)
    requires b.MapNode? && o.MapNode? && t.MapNode?
    ensures var r := MergeKeys(d, path, b, o, t, ks);
      && ChildFirst(d, r.created)
      && forall k :: k in r.entries ==> Held(d, r.created, r.entries[k])
    decreases Height(d.store, o), 1, |ks|
  {
    if ks != [] {
      var n := |ks| - 1;
      KeysBacked(d, path, b, o, t, ks[..n]);
      OneKeyBacked(d, path, b, o, t, ks[n]);
      var q, x := MergeKeys(d, path, b, o, t, ks[..n]), MergeKey(d, path, b, o, t, ks[n]);
      var r := MergeKeys(d, path, b, o, t, ks);
      ChildFirstConcat(d, q.created, x.created);
      forall k | k in r.entries ensures Held(d, r.created, r.entries[k]) {
        HeldMore(d, q.created, x.created, r.entries[k]);
      }
    }
  }

  lemma {:induction false} OneKeyBacked(d: Dag, path: string, b: Object, o: Object, t: Object, k: string)
    requires Sound(d) && Supported(d, b) && Supported(d, o) && Supported(d, t)
    requires b.MapNode? && o.MapNode? && t.MapNode?
    ensures var x := MergeKey(d, path, b, o, t, k); KeyBacked(d, x.entry, x.created)
    decreases Height(d.store, o), 1, 0
  {
    var at := ChildPath(path, k);
    assert k in o.entries ==> o.entries[k] in Children(o);
    assert k in t.entries ==> t.entries[k] in Children(t);
    if k in o.entries && k in t.entries && o.entries[k] != t.entries[k] {
      if k in b.entries {
        ChildBacked(d, at, b, o, t, k);
      } else {
        AddedBacked(d, at, o, t, k);
      }
    }
  }

  lemma {:induction false} ChildBacked(d: Dag, at: string, b: Object, o: Object, t: Object, k: string)
    requires Sound(d) && Supported(d, b) && Supported(d, o) && Supported(d, t)
    requires b.MapNode? && o.MapNode? && t.MapNode?
    requires k in b.entries && k in o.entries && k in t.entries
    ensures var x := MergeChild(d, at, b, o, t, k); KeyBacked(d, x.entry, x.created)
    decreases Height(d.store, o), 0
  {
    StoredEntry(d, b, k);
    StoredEntry(d, o, k);
    StoredEntry(d, t, k);
    ChildOutcome(d, at, b, o, t, k);
    ResultBacked(d, at, d.store[b.entries[k]], d.store[o.entries[k]], d.store[t.entries[k]]);
  }

  lemma StoredEntry(d: Dag, o: Object, k: string)
    requires Sound(d) && Supported(d, o) && o.MapNode? && k in o.entries
    ensures o.entries[k] in d.store && Supported(d, d.store[o.entries[k]]) && Stored(d, d.store[o.entries[k]])
    ensures Height(d.store, d.store[o.entries[k]]) < Height(d.store, o)
  {
    assert o.entries[k] in Children(o);
    StoredChild(d, o, o.entries[k]);
  }

  lemma {:induction false} ResultBacked(d: Dag, at: string, x: Object, y: Object, z: Object)
    requires Sound(d) && Supported(d, x) && Supported(d, y) && Supported(d, z) && Stored(d, y) && Stored(d, z)
    ensures var r := MergeObjects(d, at, x, y, z); KeyBacked(d, Some(d.idOf(r.obj)), r.created)
    decreases Height(d.store, y), 3
  {
    MergeBacked(d, at, x, y, z);
    BackedId(d, MergeObjects(d, at, x, y, z), y, z);
  }

  lemma {:induction false} AddedBacked(d: Dag, at: string, o: Object, t: Object, k: string)
    requires Sound(d) && Supported(d, o) && Supported(d, t)
    requires o.MapNode? && t.MapNode? && k in o.entries && k in t.entries
    ensures var x := MergeAdded(d, at, o, t, k); KeyBacked(d, x.entry, x.created)
    decreases Height(d.store, o), 0
  {
    assert o.entries[k] in Children(o) && t.entries[k] in Children(t);
    var y, z := d.store[o.entries[k]], d.store[t.entries[k]];
    if y.MapNode? && z.MapNode? {
      StoredChild(d, o, o.entries[k]);
      StoredChild(d, t, t.entries[k]);
      ResultBacked(d, at, EmptyMap(), y, z);
    }
  }

  // ----- nothing is created in vain

  /** `e` is a store in which the merge's new objects have been written. */
  ghost predicate Persisted(d: Dag, e: Dag, created: seq<Object>) {
    Acyclic(e.store) && Extends(d, e) && forall x :: x in created ==> Stored(e, x)
  }

  ghost predicate AllUnder(e: Dag, root: Object, created: seq<Object>)
    requires Acyclic(e.store)
  {
    forall x :: x in created ==> x == root || Below(e, root, e.idOf(x))
  }

  lemma {:induction false} CreatedUnder(d: Dag, e: Dag, path: string, b: Object, o: Object, t: Object)
    requires Acyclic(d.store) && Persisted(d, e, MergeObjects(d, path, b, o, t).created)
    ensures var r := MergeObjects(d, path, b, o, t); AllUnder(e, r.obj, r.created)
    decreases Height(d.store, o), 3
  {
    if o == t || b == o || b == t {
    } else if b.MapNode? && o.MapNode? && t.MapNode? {
      MapsUnder(d, e, path, b, o, t);
    }
  }

  lemma {:induction false} MapsUnder(d: Dag, e: Dag, path: string, b: Object, o: Object, t: Object)
    requires Acyclic(d.store) && b.MapNode? && o.MapNode? && t.MapNode? && o != t && b != o && b != t
    requires Persisted(d, e, MergeObjects(d, path, b, o, t).created)
    ensures var r := MergeObjects(d, path, b, o, t); AllUnder(e, r.obj, r.created)
    decreases Height(d.store, o), 2
  {
    var ks := SortedKeys(AllKeys(b, o, t));
    MapsOutcome(d, path, b, o, t);
    SortedKeysAscend(AllKeys(b, o, t));
    KeysEntries(d, path, b, o, t, ks);
    KeysUnder(d, e, path, b, o, t, ks, MapNode(MergeKeys(d, path, b, o, t, ks).entries));
  }

  lemma {:induction false} KeysUnder(
    d: Dag, e: Dag, path: string, b: Object, o: Object, t: Object, ks: seq<string>, root: Object)
    requires Acyclic(d.store) && b.MapNode? && o.MapNode? && t.MapNode? && root.MapNode?
    requires Persisted(d, e, MergeKeys(d, path, b, o, t, ks).created)
    requires forall k :: k in ks ==> Lookup(root.entries, k) == MergeKey(d, path, b, o, t, k).entry
    ensures AllUnder(e, root, MergeKeys(d, path, b, o, t, ks).created)
    decreases Height(d.store, o), 1, |ks|
  {
    if ks != [] {
      var n := |ks| - 1;
      var k := ks[n];
      var all := MergeKeys(d, path, b, o, t, ks).created;
      var q, x := MergeKeys(d, path, b, o, t, ks[..n]), MergeKey(d, path, b, o, t, k);
      assert all == q.created + x.created;
      assert forall y :: y in all <==> y in q.created || y in x.created;
      KeysUnder(d, e, path, b, o, t, ks[..n], root);
      OneKeyUnder(d, e, path, b, o, t, k);
      forall y | y in x.created ensures Below(e, root, e.idOf(y)) {
        assert root.entries[k] in Children(root);
        BelowVia(e, root, root.entries[k], e.idOf(y));
      }
    }
  }

  ghost predicate KeyUnder(e: Dag, x: KeyOutcome)
    requires Acyclic(e.store)
  {
    forall y :: y in x.created ==> x.entry.Some? && Reachable(e, x.entry.value, e.idOf(y))
  }

  lemma {:induction false} OneKeyUnder(d: Dag, e: Dag, path: string, b: Object, o: Object, t: Object, k: string)
    requires Acyclic(d.store) && b.MapNode? && o.MapNode? && t.MapNode?
    requires Persisted(d, e, MergeKey(d, path, b, o, t, k).created)
    ensures KeyUnder(e, MergeKey(d, path, b, o, t, k))
    decreases Height(d.store, o), 1, 0
  {
    var at := ChildPath(path, k);
    if k in o.entries && k in t.entries && o.entries[k] != t.entries[k] {
      if k !in b.entries {
        AddedUnder(d, e, at, o, t, k);
      } else if b.entries[k] != o.entries[k] && b.entries[k] != t.entries[k] {
        ChildUnder(d, e, at, b, o, t, k);
      }
    }
  }

  lemma {:induction false} ChildUnder(d: Dag, e: Dag, at: string, b: Object, o: Object, t: Object, k: string)
    requires Acyclic(d.store) && b.MapNode? && o.MapNode? && t.MapNode?
    requires k in b.entries && k in o.entries && k in t.entries
    requires Persisted(d, e, MergeChild(d, at, b, o, t, k).created)
    ensures KeyUnder(e, MergeChild(d, at, b, o, t, k))
    decreases Height(d.store, o), 0
  {
    ChildrenLower(d.store, o);
    assert o.entries[k] in Children(o);
    if b.entries[k] in d.store && o.entries[k] in d.store && t.entries[k] in d.store {
      ResultUnder(d, e, at, d.store[b.entries[k]], d.store[o.entries[k]], d.store[t.entries[k]]);
    }
  }

  lemma {:induction false} AddedUnder(d: Dag, e: Dag, at: string, o: Object, t: Object, k: string)
    requires Acyclic(d.store) && o.MapNode? && t.MapNode? && k in o.entries && k in t.entries
    requires Persisted(d, e, MergeAdded(d, at, o, t, k).created)
    ensures KeyUnder(e, MergeAdded(d, at, o, t, k))
    decreases Height(d.store, o), 0
  {
    ChildrenLower(d.store, o);
    assert o.entries[k] in Children(o);
    if IsMap(Resolve(d, o.entries[k])) && IsMap(Resolve(d, t.entries[k])) {
      ResultUnder(d, e, at, EmptyMap(), d.store[o.entries[k]], d.store[t.entries[k]]);
    }
  }

  lemma {:induction false} ResultUnder(d: Dag, e: Dag, at: string, x: Object, y: Object, z: Object)
    requires Acyclic(d.store) && Persisted(d, e, MergeObjects(d, at, x, y, z).created)
    ensures var r := MergeObjects(d, at, x, y, z);
      forall w :: w in r.created ==> Reachable(e, e.idOf(r.obj), e.idOf(w))
    decreases Height(d.store, y), 4
  {
    CreatedUnder(d, e, at, x, y, z);
    if MergeObjects(d, at, x, y, z).created != [] { LastIsRoot(d, at, x, y, z); }
  }

  lemma LastIsRoot(d: Dag, path: string, b: Object, o: Object, t: Object)
    requires Acyclic(d.store) && MergeObjects(d, path, b, o, t).created != []
    ensures MergeObjects(d, path, b, o, t).obj in MergeObjects(d, path, b, o, t).created
  {
  }

  predicate SameContainers(b: Object, o: Object, t: Object) {
    || (b.MapNode? && o.MapNode? && t.MapNode?)
    || (b.ListNode? && o.ListNode? && t.ListNode?)
    || (b.SetNode? && o.SetNode? && t.SetNode?)
  }

  /** The merged node itself is the last object created, whenever three different containers of one kind merge. */
  lemma CreatedEndsWithRoot(d: Dag, path: string, b: Object, o: Object, t: Object)
    requires Acyclic(d.store)
    ensures var r := MergeObjects(d, path, b, o, t);
      if o != t && b != o && b != t && SameContainers(b, o, t)
      then r.created != [] && r.created[|r.created| - 1] == r.obj
      else r.created == []
  {
    if o != t && b != o && b != t && b.MapNode? && o.MapNode? && t.MapNode? {
      MapsOutcome(d, path, b, o, t);
    }
  }

  lemma PrefixSound(d: Dag, os: seq<Object>, n: nat)
    requires Sound(d) && ChildFirst(d, os) && CollisionFree(d, os) && n <= |os|
    ensures Sound(PutAll(d, os[..n]))
  {
    assert forall i :: 0 <= i < n ==> os[..n][..i] == os[..i];
    PutAllSound(d, os[..n]);
  }

  lemma AllBelowStored(e: Dag, root: ObjectId)
    requires Sound(e) && root in e.store
    ensures forall id :: Reachable(e, root, id) ==> id in e.store
  {
    forall id | Reachable(e, root, id) ensures id in e.store {
      if id != root { BelowIsStored(e, e.store[root], id); }
    }
  }

  lemma MergeReadBack(d: Dag, path: string, b: Object, o: Object, t: Object)
    requires Sound(d) && Supported(d, b) && Supported(d, o) && Supported(d, t) && Stored(d, o) && Stored(d, t)
    requires CollisionFree(d, MergeObjects(d, path, b, o, t).created)
    ensures var r := MergeObjects(d, path, b, o, t);
      var e := PutAll(d, r.created);
      && ChildFirst(d, r.created)
      && Sound(e) && Persisted(d, e, r.created)
      && Stored(e, r.obj)
  {
    MergeBacked(d, path, b, o, t);
    var r := MergeObjects(d, path, b, o, t);
    PutAllSound(d, r.created);
    var e := PutAll(d, r.created);
    assert Stored(e, o) && Stored(e, t);
  }

  /**
   No dangling nodes: after any number of the writes the store is sound; after all of
   them the merged root and everything below it can be read; and every object written is
   that root or below it.
   */
  lemma NoDanglingNodes(d: Dag, base: ObjectId, ours: ObjectId, theirs: ObjectId, n: nat)
    requires Sound(d) && base in d.store && ours in d.store && theirs in d.store
    requires CollisionFree(d, ThreeWay(d, base, ours, theirs).created)
    requires n <= |ThreeWay(d, base, ours, theirs).created|
    ensures var r := ThreeWay(d, base, ours, theirs);
      var e := PutAll(d, r.created);
      && Sound(PutAll(d, r.created[..n]))
      && Sound(e) && Extends(d, e)
      && RootId(d, r.result) in e.store
      && (forall id :: Reachable(e, RootId(d, r.result), id) ==> id in e.store)
      && (forall x :: x in r.created ==> Reachable(e, RootId(d, r.result), d.idOf(x)))
  {
    var r := ThreeWay(d, base, ours, theirs);
    var e := PutAll(d, r.created);
    if !r.result.FastForward? {
      var b, o, t := d.store[base], d.store[ours], d.store[theirs];
      MergeReadBack(d, "/", b, o, t);
      PrefixSound(d, r.created, n);
      CreatedUnder(d, e, "/", b, o, t);
    }
    AllBelowStored(e, RootId(d, r.result));
  }

  ghost function RootId(d: Dag, r: MergeResult): ObjectId {
    match r
    case Success(o) => d.idOf(o)
    case Conflicts(o, _) => d.idOf(o)
    case FastForward(id) => id
  }
}

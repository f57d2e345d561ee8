/** The diff as diff.rs runs it: loops over keys, positions and members that push ops. */
module DiffEngine {
  import opened Order
  import opened Objects
  import opened Dags
  import opened Paths
  import opened Diff

  lemma SummariseConcat(a: seq<FullOp>, b: seq<FullOp>)
    ensures SummariseAll(a + b) == SummariseAll(a) + SummariseAll(b)
  {
    MapConcat(Summarise, a, b);
  }

  lemma SummariseOne(op: FullOp)
    ensures SummariseAll([op]) == [Summarise(op)]
  {
  }

  method RunObjects(d: Dag, p: StatePath, x: Object, y: Object) returns (ops: seq<DiffOp>)
    requires Acyclic(d.store)
    ensures ops == SummariseAll(DiffObjects(d, p, x, y))
    decreases Height(d.store, x), 2
  {
    if x == y { return []; }
    var path := Display(p);
    if x.AtomObject? && y.AtomObject? {
      return [SetValueOp(path, FromAtom(x.atom), FromAtom(y.atom))];
    } else if x.MapNode? && y.MapNode? {
      ops := RunMaps(d, p, x, y);
    } else if x.ListNode? && y.ListNode? {
      ops := RunLists(d, p, x, y);
    } else if x.SetNode? && y.SetNode? {
      ops := RunSets(d, p, x, y);
    } else {
      return [ChangeTypeOp(path, TypeName(x), TypeName(y))];
    }
  }

  lemma KeysNext(d: Dag, p: StatePath, x: Object, y: Object, ks: seq<string>, n: nat)
    requires Acyclic(d.store) && x.MapNode? && y.MapNode? && n < |ks|
    ensures SummariseAll(KeysOps(d, p, x, y, ks[..n + 1])) ==
      SummariseAll(KeysOps(d, p, x, y, ks[..n])) + SummariseAll(KeyOps(d, p, x, y, ks[n]))
  {
    assert ks[..n + 1][..n] == ks[..n];
    SummariseConcat(KeysOps(d, p, x, y, ks[..n]), KeyOps(d, p, x, y, ks[n]));
  }

  method RunMaps(d: Dag, p: StatePath, x: Object, y: Object) returns (ops: seq<DiffOp>)
    requires Acyclic(d.store) && x.MapNode? && y.MapNode?
    ensures ops == SummariseAll(DiffMaps(d, p, x, y))
    decreases Height(d.store, x), 1, 1
  {
    var gone := SortedKeys(x.entries.Keys - y.entries.Keys);
    var came := SortedKeys(y.entries.Keys - x.entries.Keys);
    var both := SortedKeys(x.entries.Keys * y.entries.Keys);
    var removed := RunRemovedKeys(d, p, x, y, gone);
    var added := RunAddedKeys(d, p, x, y, came);
    var modified := RunModifiedKeys(d, p, x, y, both);
    SummariseConcat(KeysOps(d, p, x, y, gone), KeysOps(d, p, x, y, came));
    SummariseConcat(KeysOps(d, p, x, y, gone) + KeysOps(d, p, x, y, came), KeysOps(d, p, x, y, both));
    ops := removed + added + modified;
  }

  method RunRemovedKeys(d: Dag, p: StatePath, x: Object, y: Object, ks: seq<string>) returns (ops: seq<DiffOp>)
    requires Acyclic(d.store) && x.MapNode? && y.MapNode?
    requires forall k :: k in ks ==> k in x.entries && k !in y.entries
    ensures ops == SummariseAll(KeysOps(d, p, x, y, ks))
  {
    var path := Display(p);
    ops := [];
    for n := 0 to |ks|
      invariant ops == SummariseAll(KeysOps(d, p, x, y, ks[..n]))
    {
      KeysNext(d, p, x, y, ks, n);
      assert ks[n] in ks;
      SummariseOne(RemoveKey(p, ks[n], Resolve(d, x.entries[ks[n]])));
      ops := ops + [RemoveKeyOp(path, ks[n], ValueOf(Resolve(d, x.entries[ks[n]])))];
    }
    assert ks[..|ks|] == ks;
  }

  method RunAddedKeys(d: Dag, p: StatePath, x: Object, y: Object, ks: seq<string>) returns (ops: seq<DiffOp>)
    requires Acyclic(d.store) && x.MapNode? && y.MapNode?
    requires forall k :: k in ks ==> k !in x.entries && k in y.entries
    ensures ops == SummariseAll(KeysOps(d, p, x, y, ks))
  {
    var path := Display(p);
    ops := [];
    for n := 0 to |ks|
      invariant ops == SummariseAll(KeysOps(d, p, x, y, ks[..n]))
    {
      KeysNext(d, p, x, y, ks, n);
      assert ks[n] in ks;
      SummariseOne(AddKey(p, ks[n], Resolve(d, y.entries[ks[n]])));
      ops := ops + [AddKeyOp(path, ks[n], ValueOf(Resolve(d, y.entries[ks[n]])))];
    }
    assert ks[..|ks|] == ks;
  }

  method RunModifiedKeys(d: Dag, p: StatePath, x: Object, y: Object, ks: seq<string>) returns (ops: seq<DiffOp>)
    requires Acyclic(d.store) && x.MapNode? && y.MapNode?
    requires forall k :: k in ks ==> k in x.entries && k in y.entries
    ensures ops == SummariseAll(KeysOps(d, p, x, y, ks))
    decreases Height(d.store, x), 1, 0
  {
    ops := [];
    for n := 0 to |ks|
      invariant ops == SummariseAll(KeysOps(d, p, x, y, ks[..n]))
    {
      KeysNext(d, p, x, y, ks, n);
      assert ks[n] in ks;
      var i, j := x.entries[ks[n]], y.entries[ks[n]];
      if i != j {
        assert i in Children(x);
        var child := RunChild(d, p + [Key(ks[n])], x, i, j);
        ops := ops + child;
      }
    }
    assert ks[..|ks|] == ks;
  }

  method RunChild(d: Dag, p: StatePath, x: Object, i: ObjectId, j: ObjectId) returns (ops: seq<DiffOp>)
    requires Acyclic(d.store) && i in Children(x)
    ensures ops == SummariseAll(DiffChild(d, p, x, i, j))
    decreases Height(d.store, x), 0
  {
    if i in d.store && j in d.store {
      ChildrenLower(d.store, x);
      ops := RunObjects(d, p, d.store[i], d.store[j]);
    } else {
      var path := Display(p);
      SummariseOne(SetValue(p, None, None));
      ops := [SetValueOp(path, DNull, DNull)];
    }
  }

  method RunLists(d: Dag, p: StatePath, x: Object, y: Object) returns (ops: seq<DiffOp>)
    requires Acyclic(d.store) && x.ListNode? && y.ListNode?
    ensures ops == SummariseAll(DiffLists(d, p, x, y, Max(|x.items|, |y.items|)))
    decreases Height(d.store, x), 1
  {
    ops := [];
    var path := Display(p);
    for n := 0 to Max(|x.items|, |y.items|)
      invariant ops == SummariseAll(DiffLists(d, p, x, y, n))
    {
      SummariseConcat(DiffLists(d, p, x, y, n), IndexOps(d, p, x, y, n));
      if n < |x.items| && n < |y.items| {
        if x.items[n] != y.items[n] {
          assert x.items[n] in Children(x);
          var child := RunChild(d, p + [Index(n)], x, x.items[n], y.items[n]);
          ops := ops + child;
        }
      } else if n < |y.items| {
        SummariseOne(AddElement(p, n, Resolve(d, y.items[n])));
        ops := ops + [AddElementOp(path, n, ValueOf(Resolve(d, y.items[n])))];
      } else {
        SummariseOne(RemoveElement(p, n, Resolve(d, x.items[n])));
        ops := ops + [RemoveElementOp(path, n, ValueOf(Resolve(d, x.items[n])))];
      }
    }
  }

  method RunSets(d: Dag, p: StatePath, x: Object, y: Object) returns (ops: seq<DiffOp>)
    requires x.SetNode? && y.SetNode?
    ensures ops == SummariseAll(DiffSets(d, p, x, y))
  {
    var gone := SortedIds(Elements(x.members) - Elements(y.members));
    var came := SortedIds(Elements(y.members) - Elements(x.members));
    var removed := RunRemovedMembers(d, p, gone);
    var added := RunAddedMembers(d, p, came);
    SummariseConcat(RemovedMembers(d, p, gone), AddedMembers(d, p, came));
    ops := removed + added;
  }

  method RunRemovedMembers(d: Dag, p: StatePath, ids: seq<ObjectId>) returns (ops: seq<DiffOp>)
    ensures ops == SummariseAll(RemovedMembers(d, p, ids))
  {
    var path := Display(p);
    ops := [];
    for n := 0 to |ids|
      invariant |ops| == n
      invariant forall i :: 0 <= i < n ==> ops[i] == Summarise(RemoveFromSet(p, Resolve(d, ids[i])))
    {
      ops := ops + [RemoveFromSetOp(path, ValueOf(Resolve(d, ids[n])))];
    }
  }

  method RunAddedMembers(d: Dag, p: StatePath, ids: seq<ObjectId>) returns (ops: seq<DiffOp>)
    ensures ops == SummariseAll(AddedMembers(d, p, ids))
  {
    var path := Display(p);
    ops := [];
    for n := 0 to |ids|
      invariant |ops| == n
      invariant forall i :: 0 <= i < n ==> ops[i] == Summarise(AddToSet(p, Resolve(d, ids[i])))
    {
      ops := ops + [AddToSetOp(path, ValueOf(Resolve(d, ids[n])))];
    }
  }

  /** `diff`. */
  method RunDiff(d: Dag, before: ObjectId, after: ObjectId) returns (ops: seq<DiffOp>)
    requires Acyclic(d.store)
    ensures ops == SummariseAll(DiffRoots(d, before, after))
  {
    if before == after { return []; }
    if before in d.store && after in d.store {
      ops := RunObjects(d, [], d.store[before], d.store[after]);
    } else {
      ops := [];
    }
  }
}

/**
 The merge as merge.rs runs it: a resolver that remembers its first failed lookup, two
 growing vectors, and a loop over the sorted keys of the three maps. Every method is
 proved to do what the functions of `Merge` say.
 */
module MergeEngine {
  import opened Order
  import opened Objects
  import opened Dags
  import opened Merge
  import opened MergeStrict

  /** `TrackingResolver`. Used without reading `missing` it is the plain resolver it wraps. */
  class TrackingResolver {
    const inner: Dag
    var missing: Option<ObjectId>
    ghost var queries: seq<ObjectId>

    ghost predicate Valid()
      reads this
    {
      Acyclic(inner.store) && missing == FirstMissing(inner, queries)
    }

    constructor (inner: Dag)
      requires Acyclic(inner.store)
      ensures Valid() && this.inner == inner && queries == []
    {
      this.inner := inner;
      missing := None;
      queries := [];
    }

    method Find(id: ObjectId) returns (found: Option<Object>)
      requires Valid()
      modifies this
      ensures Valid() && queries == old(queries) + [id]
      ensures found == Resolve(inner, id)
    {
      found := Resolve(inner, id);
      MissingAfter(inner, queries, id);
      queries := queries + [id];
      if found.None? && missing.None? {
        missing := Some(id);
      }
    }
  }

  lemma {:induction false} MissingAfter(d: Dag, queries: seq<ObjectId>, id: ObjectId)
    ensures FirstMissing(d, queries + [id]) ==
      if FirstMissing(d, queries).Some? then FirstMissing(d, queries)
      else if id in d.store then None else Some(id)
  {
    if queries != [] {
      assert (queries + [id])[1..] == queries[1..] + [id];
      MissingAfter(d, queries[1..], id);
    }
  }

  /** The vectors `conflicts` and `created` the recursion pushes onto. */
  class Collector {
    var conflicts: seq<Conflict>
    var created: seq<Object>

    constructor ()
      ensures conflicts == [] && created == []
    {
      conflicts, created := [], [];
    }
  }

  /** One call appended exactly these. */
  twostate predicate Appended(
    r: TrackingResolver, acc: Collector, conflicts: seq<Conflict>, created: seq<Object>, queries: seq<ObjectId>)
    reads r, acc
  {
    && r.Valid()
    && acc.conflicts == old(acc.conflicts) + conflicts
    && acc.created == old(acc.created) + created
    && r.queries == old(r.queries) + queries
  }

  method RunMerge(r: TrackingResolver, path: string, b: Object, o: Object, t: Object, acc: Collector)
    returns (obj: Object)
    requires r.Valid()
    modifies r, acc
    ensures var out := MergeObjects(r.inner, path, b, o, t);
      obj == out.obj && Appended(r, acc, out.conflicts, out.created, out.queries)
    decreases Height(r.inner.store, o), 2
  {
    if o == t { return o; }
    if b == o { return t; }
    if b == t { return o; }
    if b.MapNode? && o.MapNode? && t.MapNode? {
      obj := RunMaps(r, path, b, o, t, acc);
    } else if b.ListNode? && o.ListNode? && t.ListNode? {
      obj := RunLists(path, b.items, o.items, t.items, acc);
    } else if b.SetNode? && o.SetNode? && t.SetNode? {
      obj := RunSets(o.members, t.members, acc);
    } else {
      acc.conflicts := acc.conflicts + [Conflict(path, Some(FromObject(o)), Some(FromObject(t)), Some(FromObject(b)))];
      obj := o;
    }
  }

  method RunLists(path: string, b: seq<ObjectId>, o: seq<ObjectId>, t: seq<ObjectId>, acc: Collector)
    returns (obj: Object)
    modifies acc
    ensures obj == ListNode(o)
    ensures acc.conflicts == old(acc.conflicts) + if o == t then [] else [ListConflict(path, b, o, t)]
    ensures acc.created == old(acc.created) + [obj]
  {
    obj := ListNode(o);
    if o == t {
      acc.created := acc.created + [obj];
      return;
    }
    acc.conflicts := acc.conflicts + [ListConflict(path, b, o, t)];
    acc.created := acc.created + [obj];
  }

  method RunSets(o: seq<ObjectId>, t: seq<ObjectId>, acc: Collector) returns (obj: Object)
    modifies acc
    ensures obj == MergedSet(o, t)
    ensures acc.conflicts == old(acc.conflicts) && acc.created == old(acc.created) + [obj]
  {
    obj := MakeSet(SortedIds(Elements(o) + Elements(t)));
    assert Elements(SortedIds(Elements(o) + Elements(t))) == Elements(o) + Elements(t) by {
      var ids := SortedIds(Elements(o) + Elements(t));
      assert forall i :: i in Elements(ids) <==> i in ids;
    }
    acc.created := acc.created + [obj];
  }

  lemma KeysNext(d: Dag, path: string, b: Object, o: Object, t: Object, ks: seq<string>, n: nat)
    requires Acyclic(d.store) && b.MapNode? && o.MapNode? && t.MapNode? && n < |ks|
    ensures MergeKeys(d, path, b, o, t, ks[..n + 1]) ==
      Merge.AddKey(MergeKeys(d, path, b, o, t, ks[..n]), ks[n], MergeKey(d, path, b, o, t, ks[n]))
  {
    assert ks[..n + 1][..n] == ks[..n];
  }

  method RunMaps(r: TrackingResolver, path: string, b: Object, o: Object, t: Object, acc: Collector)
    returns (obj: Object)
    requires r.Valid() && b.MapNode? && o.MapNode? && t.MapNode? && o != t && b != o && b != t
    modifies r, acc
    ensures var out := MergeObjects(r.inner, path, b, o, t);
      obj == out.obj && Appended(r, acc, out.conflicts, out.created, out.queries)
    decreases Height(r.inner.store, o), 1
  {
    var keys := SortedKeys(AllKeys(b, o, t));
    var merged := RunKeys(r, path, b, o, t, keys, acc);
    obj := MapNode(merged);
    MapsOutcome(r.inner, path, b, o, t);
    Assoc(old(acc.created), MergeKeys(r.inner, path, b, o, t, keys).created, [obj]);
    acc.created := acc.created + [obj];
  }

  /** Its loop. */
  method RunKeys(
    r: TrackingResolver, path: string, b: Object, o: Object, t: Object, keys: seq<string>, acc: Collector)
    returns (merged: map<string, ObjectId>)
    requires r.Valid() && b.MapNode? && o.MapNode? && t.MapNode?
    modifies r, acc
    ensures var q := MergeKeys(r.inner, path, b, o, t, keys);
      merged == q.entries && Appended(r, acc, q.conflicts, q.created, q.queries)
    decreases Height(r.inner.store, o), 0, 2
  {
    merged := map[];
    for n := 0 to |keys|
      invariant var q := MergeKeys(r.inner, path, b, o, t, keys[..n]);
        merged == q.entries && Appended(r, acc, q.conflicts, q.created, q.queries)
    {
      ghost var q, x := MergeKeys(r.inner, path, b, o, t, keys[..n]), MergeKey(r.inner, path, b, o, t, keys[n]);
      var entry := RunKey(r, path, b, o, t, keys[n], acc);
      if entry.Some? {
        merged := merged[keys[n] := entry.value];
      }
      KeysNext(r.inner, path, b, o, t, keys, n);
      Assoc(old(acc.conflicts), q.conflicts, x.conflicts);
      Assoc(old(acc.created), q.created, x.created);
      Assoc(old(r.queries), q.queries, x.queries);
    }
    assert keys[..|keys|] == keys;
  }

  /** One key of the loop: the entry to insert, if any. */
  method RunKey(r: TrackingResolver, path: string, b: Object, o: Object, t: Object, k: string, acc: Collector)
    returns (entry: Option<ObjectId>)
    requires r.Valid() && b.MapNode? && o.MapNode? && t.MapNode?
    modifies r, acc
    ensures var x := MergeKey(r.inner, path, b, o, t, k);
      entry == x.entry && Appended(r, acc, x.conflicts, x.created, x.queries)
    decreases Height(r.inner.store, o), 0, 1
  {
    var at := ChildPath(path, k);
    match (Lookup(b.entries, k), Lookup(o.entries, k), Lookup(t.entries, k))
    case (Some(x), Some(y), Some(z)) =>
      if y == z { entry := Some(y); }
      else if x == y { entry := Some(z); }
      else if x == z { entry := Some(y); }
      else { entry := RunChild(r, at, b, o, t, k, acc); }
    case (None, Some(y), None) => entry := Some(y);
    case (None, None, Some(z)) => entry := Some(z);
    case (None, Some(y), Some(z)) =>
      if y == z { entry := Some(y); }
      else { entry := RunAdded(r, at, o, t, k, acc); }
    case (Some(x), None, Some(z)) =>
      entry := None;
      if x != z {
        var theirs := r.Find(z);
        var base := r.Find(x);
        acc.conflicts := acc.conflicts + [Conflict(at, None, Summary(theirs), Summary(base))];
      }
    case (Some(x), Some(y), None) =>
      if x == y { entry := None; }
      else {
        var ours := r.Find(y);
        var base := r.Find(x);
        acc.conflicts := acc.conflicts + [Conflict(at, Summary(ours), None, Summary(base))];
        entry := Some(y);
      }
    case (Some(_), None, None) => entry := None;
    case (None, None, None) => entry := None;
  }

  function Summary(o: Option<Object>): Option<ConflictValue> {
    if o.Some? then Some(FromObject(o.value)) else None
  }

  method RunChild(r: TrackingResolver, at: string, b: Object, o: Object, t: Object, k: string, acc: Collector)
    returns (entry: Option<ObjectId>)
    requires r.Valid() && b.MapNode? && o.MapNode? && t.MapNode?
    requires k in b.entries && k in o.entries && k in t.entries
    modifies r, acc
    ensures var x := MergeChild(r.inner, at, b, o, t, k);
      entry == x.entry && Appended(r, acc, x.conflicts, x.created, x.queries)
    decreases Height(r.inner.store, o), 0, 0
  {
    var x, y, z := b.entries[k], o.entries[k], t.entries[k];
    var base := r.Find(x);
    var ours := r.Find(y);
    var theirs := r.Find(z);
    assert r.queries == old(r.queries) + [x, y, z];
    if base.Some? && ours.Some? && theirs.Some? {
      ChildrenLower(r.inner.store, o);
      assert y in Children(o);
      var child := RunMerge(r, at, base.value, ours.value, theirs.value, acc);
      Assoc(old(r.queries), [x, y, z], MergeObjects(r.inner, at, base.value, ours.value, theirs.value).queries);
      entry := Some(r.inner.idOf(child));
    } else {
      entry := Some(y);
      acc.conflicts := acc.conflicts + [Conflict(at, None, None, None)];
    }
  }

  method RunAdded(r: TrackingResolver, at: string, o: Object, t: Object, k: string, acc: Collector)
    returns (entry: Option<ObjectId>)
    requires r.Valid() && o.MapNode? && t.MapNode? && k in o.entries && k in t.entries
    modifies r, acc
    ensures var x := MergeAdded(r.inner, at, o, t, k);
      entry == x.entry && Appended(r, acc, x.conflicts, x.created, x.queries)
    decreases Height(r.inner.store, o), 0, 0
  {
    var y, z := o.entries[k], t.entries[k];
    var ours := r.Find(y);
    var theirs := r.Find(z);
    assert r.queries == old(r.queries) + [y, z];
    if IsMap(ours) && IsMap(theirs) {
      ChildrenLower(r.inner.store, o);
      assert y in Children(o);
      var child := RunMerge(r, at, EmptyMap(), ours.value, theirs.value, acc);
      Assoc(old(r.queries), [y, z], MergeObjects(r.inner, at, EmptyMap(), ours.value, theirs.value).queries);
      entry := Some(r.inner.idOf(child));
    } else {
      ours := r.Find(y);
      theirs := r.Find(z);
      assert r.queries == old(r.queries) + [y, z, y, z];
      acc.conflicts := acc.conflicts + [Conflict(at, Summary(ours), Summary(theirs), None)];
      entry := Some(y);
    }
  }

  /** `three_way_merge_collect`. */
  method ThreeWayMergeCollect(r: TrackingResolver, base: ObjectId, ours: ObjectId, theirs: ObjectId)
    returns (result: MergeResult, created: seq<Object>)
    requires r.Valid()
    modifies r
    ensures var out := ThreeWay(r.inner, base, ours, theirs);
      && result == out.result && created == out.created
      && r.Valid() && r.queries == old(r.queries) + out.queries
  {
    created := [];
    if base == ours { return FastForward(theirs), []; }
    if base == theirs { return FastForward(ours), []; }
    if ours == theirs { return FastForward(ours), []; }
    var b := r.Find(base);
    if b.None? { return FastForward(theirs), []; }
    var o := r.Find(ours);
    if o.None? { return FastForward(theirs), []; }
    var t := r.Find(theirs);
    assert r.queries == old(r.queries) + [base, ours, theirs];
    if t.None? { return FastForward(ours), []; }
    var acc := new Collector();
    var merged := RunMerge(r, "/", b.value, o.value, t.value, acc);
    ghost var m := MergeObjects(r.inner, "/", b.value, o.value, t.value);
    Assoc(old(r.queries), [base, ours, theirs], m.queries);
    assert acc.conflicts == m.conflicts && acc.created == m.created;
    created := acc.created;
    result := if acc.conflicts == [] then Success(merged) else Conflicts(merged, acc.conflicts);
  }

  /** `try_three_way_merge_collect`. */
  method TryThreeWayMergeCollect(d: Dag, base: ObjectId, ours: ObjectId, theirs: ObjectId) returns (out: Strict)
    requires Acyclic(d.store)
    ensures out == TryThreeWay(d, base, ours, theirs)
  {
    var tracking := new TrackingResolver(d);
    var result, created := ThreeWayMergeCollect(tracking, base, ours, theirs);
    assert tracking.queries == ThreeWay(d, base, ours, theirs).queries;
    out := match tracking.missing
      case Some(id) => Err(id)
      case None => Ok(result, created);
  }
}

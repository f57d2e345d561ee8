/**
 `try_three_way_merge_collect`: a merge that failed to resolve something it asked for is
 an error naming the first such id, and otherwise the merge is final: it depends on the
 objects it read and on nothing else.
 */
module MergeStrict {
  import opened Order
  import opened Objects
  import opened Dags
  import opened Merge

  datatype Strict = Ok(result: MergeResult, created: seq<Object>) | Err(missing: ObjectId)

  /** The first id in `queries` that does not resolve. */
  function FirstMissing(d: Dag, queries: seq<ObjectId>): Option<ObjectId> {
    if queries == [] then None
    else if queries[0] !in d.store then Some(queries[0])
    else FirstMissing(d, queries[1..])
  }

  ghost predicate IsFirstMissing(d: Dag, queries: seq<ObjectId>, n: nat) {
    n < |queries| && queries[n] !in d.store && forall i :: 0 <= i < n ==> queries[i] in d.store
  }

  lemma {:induction false} FirstMissingFound(d: Dag, queries: seq<ObjectId>) returns (n: nat)
    ensures FirstMissing(d, queries).None? ==> n == |queries| && forall q :: q in queries ==> q in d.store
    ensures FirstMissing(d, queries).Some? ==>
      IsFirstMissing(d, queries, n) && queries[n] == FirstMissing(d, queries).value
  {
    if queries == [] || queries[0] !in d.store {
      n := 0;
    } else {
      var m := FirstMissingFound(d, queries[1..]);
      n := m + 1;
      assert queries == [queries[0]] + queries[1..];
      assert forall i :: 0 < i < |queries| ==> queries[i] == queries[1..][i - 1];
    }
  }

  function TryThreeWay(d: Dag, base: ObjectId, ours: ObjectId, theirs: ObjectId): Strict
    requires Acyclic(d.store)
  {
    var r := ThreeWay(d, base, ours, theirs);
    var missing := FirstMissing(d, r.queries);
    if missing.Some? then Err(missing.value) else Ok(r.result, r.created)
  }

  // ----- the merge depends only on what it read

  /** Two resolvers answer the given lookups alike. */
  ghost predicate AnswerAlike(d: Dag, e: Dag, ids: seq<ObjectId>) {
    forall i :: i in ids ==> Resolve(d, i) == Resolve(e, i)
  }

  ghost predicate Comparable(d: Dag, e: Dag) {
    Acyclic(d.store) && Acyclic(e.store) && d.idOf == e.idOf
  }

  lemma {:induction false} MergeReadsOnly(d: Dag, e: Dag, path: string, b: Object, o: Object, t: Object)
    requires Comparable(d, e) && AnswerAlike(d, e, MergeObjects(d, path, b, o, t).queries)
    ensures MergeObjects(e, path, b, o, t) == MergeObjects(d, path, b, o, t)
    decreases Height(d.store, o), 2, 0
  {
    if o != t && b != o && b != t && b.MapNode? && o.MapNode? && t.MapNode? {
      KeysReadOnly(d, e, path, b, o, t, SortedKeys(AllKeys(b, o, t)));
    }
  }

  lemma {:induction false} KeysReadOnly(d: Dag, e: Dag, path: string, b: Object, o: Object, t: Object, ks: seq<string>)
    requires Comparable(d, e) && b.MapNode? && o.MapNode? && t.MapNode?
    requires AnswerAlike(d, e, MergeKeys(d, path, b, o, t, ks).queries)
    ensures MergeKeys(e, path, b, o, t, ks) == MergeKeys(d, path, b, o, t, ks)
    decreases Height(d.store, o), 1, |ks|
  {
    if ks != [] {
      var n := |ks| - 1;
      var q, x := MergeKeys(d, path, b, o, t, ks[..n]).queries, MergeKey(d, path, b, o, t, ks[n]).queries;
      assert forall i :: i in q || i in x ==> i in q + x;
      KeysReadOnly(d, e, path, b, o, t, ks[..n]);
      KeyReadsOnly(d, e, path, b, o, t, ks[n]);
    }
  }

  lemma {:induction false} KeyReadsOnly(d: Dag, e: Dag, path: string, b: Object, o: Object, t: Object, k: string)
    requires Comparable(d, e) && b.MapNode? && o.MapNode? && t.MapNode?
    requires AnswerAlike(d, e, MergeKey(d, path, b, o, t, k).queries)
    ensures MergeKey(e, path, b, o, t, k) == MergeKey(d, path, b, o, t, k)
    decreases Height(d.store, o), 1, 0
  {
    var at := ChildPath(path, k);
    var x, y, z := Lookup(b.entries, k), Lookup(o.entries, k), Lookup(t.entries, k);
    if x == y || y == z || x == z {
    } else if x.Some? && y.Some? && z.Some? {
      ChildReadsOnly(d, e, at, b, o, t, k);
    } else if y.Some? && z.Some? {
      AddedReadsOnly(d, e, at, o, t, k);
    } else {
      var queries := MergeKey(d, path, b, o, t, k).queries;
      assert queries[1] == x.value && Resolve(d, x.value) == Resolve(e, x.value);
      assert Resolve(d, queries[0]) == Resolve(e, queries[0]);
    }
  }

  lemma {:induction false} ChildReadsOnly(d: Dag, e: Dag, at: string, b: Object, o: Object, t: Object, k: string)
    requires Comparable(d, e) && b.MapNode? && o.MapNode? && t.MapNode?
    requires k in b.entries && k in o.entries && k in t.entries
    requires AnswerAlike(d, e, MergeChild(d, at, b, o, t, k).queries)
    ensures MergeChild(e, at, b, o, t, k) == MergeChild(d, at, b, o, t, k)
    decreases Height(d.store, o), 0
  {
    var x, y, z := b.entries[k], o.entries[k], t.entries[k];
    ChildrenLower(d.store, o);
    assert y in Children(o);
    assert x in [x, y, z] && y in [x, y, z] && z in [x, y, z];
    assert Resolve(d, x) == Resolve(e, x) && Resolve(d, y) == Resolve(e, y) && Resolve(d, z) == Resolve(e, z);
    if x in d.store && y in d.store && z in d.store {
      var q := MergeObjects(d, at, d.store[x], d.store[y], d.store[z]).queries;
      assert forall i :: i in q ==> i in [x, y, z] + q;
      MergeReadsOnly(d, e, at, d.store[x], d.store[y], d.store[z]);
    }
  }

  lemma {:induction false} AddedReadsOnly(d: Dag, e: Dag, at: string, o: Object, t: Object, k: string)
    requires Comparable(d, e) && o.MapNode? && t.MapNode? && k in o.entries && k in t.entries
    requires AnswerAlike(d, e, MergeAdded(d, at, o, t, k).queries)
    ensures MergeAdded(e, at, o, t, k) == MergeAdded(d, at, o, t, k)
    decreases Height(d.store, o), 0
  {
    var y, z := o.entries[k], t.entries[k];
    ChildrenLower(d.store, o);
    assert y in Children(o);
    var queries := MergeAdded(d, at, o, t, k).queries;
    assert queries[0] == y && queries[1] == z;
    assert Resolve(d, y) == Resolve(e, y) && Resolve(d, z) == Resolve(e, z);
    if IsMap(Resolve(d, y)) && IsMap(Resolve(d, z)) {
      var q := MergeObjects(d, at, EmptyMap(), d.store[y], d.store[z]).queries;
      assert forall i :: i in q ==> i in [y, z] + q;
      MergeReadsOnly(d, e, at, EmptyMap(), d.store[y], d.store[z]);
    }
  }

  /** Any resolver that answers the lookups alike gives the same answer, missing objects included. */
  lemma ThreeWayReadsOnly(d: Dag, e: Dag, base: ObjectId, ours: ObjectId, theirs: ObjectId)
    requires Comparable(d, e) && AnswerAlike(d, e, ThreeWay(d, base, ours, theirs).queries)
    ensures ThreeWay(e, base, ours, theirs) == ThreeWay(d, base, ours, theirs)
    ensures TryThreeWay(e, base, ours, theirs) == TryThreeWay(d, base, ours, theirs)
  {
    var r := ThreeWay(d, base, ours, theirs);
    if base != ours && base != theirs && ours != theirs {
      assert r.queries[0] == base && Resolve(d, base) == Resolve(e, base);
      if base in d.store {
        assert r.queries[1] == ours && Resolve(d, ours) == Resolve(e, ours);
        if ours in d.store {
          assert r.queries[2] == theirs && Resolve(d, theirs) == Resolve(e, theirs);
          if theirs in d.store {
            var q := MergeObjects(d, "/", d.store[base], d.store[ours], d.store[theirs]).queries;
            assert forall i :: i in q ==> i in [base, ours, theirs] + q;
            MergeReadsOnly(d, e, "/", d.store[base], d.store[ours], d.store[theirs]);
          }
        }
      }
    }
    SameFirstMissing(d, e, r.queries);
  }

  lemma {:induction false} SameFirstMissing(d: Dag, e: Dag, queries: seq<ObjectId>)
    requires AnswerAlike(d, e, queries)
    ensures FirstMissing(e, queries) == FirstMissing(d, queries)
  {
    if queries != [] {
      assert Resolve(d, queries[0]) == Resolve(e, queries[0]);
      assert forall i :: i in queries[1..] ==> i in queries;
      SameFirstMissing(d, e, queries[1..]);
    }
  }

  /** An `Ok` is final: no larger store changes the result or the created list. */
  lemma OkIsFinal(d: Dag, e: Dag, base: ObjectId, ours: ObjectId, theirs: ObjectId)
    requires Acyclic(d.store) && Acyclic(e.store) && Extends(d, e)
    requires TryThreeWay(d, base, ours, theirs).Ok?
    ensures TryThreeWay(e, base, ours, theirs) == TryThreeWay(d, base, ours, theirs)
  {
    var n := FirstMissingFound(d, ThreeWay(d, base, ours, theirs).queries);
    ThreeWayReadsOnly(d, e, base, ours, theirs);
  }

  // ----- what it asks for is below the three roots

  ghost predicate BelowAny(d: Dag, b: Object, o: Object, t: Object, id: ObjectId)
    requires Acyclic(d.store)
  {
    Below(d, b, id) || Below(d, o, id) || Below(d, t, id)
  }

  ghost predicate AllBelow(d: Dag, b: Object, o: Object, t: Object, ids: seq<ObjectId>)
    requires Acyclic(d.store)
  {
    forall i :: i in ids ==> BelowAny(d, b, o, t, i)
  }

  lemma {:induction false} QueriesBelow(d: Dag, path: string, b: Object, o: Object, t: Object)
    requires Acyclic(d.store)
    ensures AllBelow(d, b, o, t, MergeObjects(d, path, b, o, t).queries)
    decreases Height(d.store, o), 2, 0
  {
    if o != t && b != o && b != t && b.MapNode? && o.MapNode? && t.MapNode? {
      KeysBelow(d, path, b, o, t, SortedKeys(AllKeys(b, o, t)));
    }
  }

  lemma {:induction false} KeysBelow(d: Dag, path: string, b: Object, o: Object, t: Object, ks: seq<string>)
    requires Acyclic(d.store) && b.MapNode? && o.MapNode? && t.MapNode?
    ensures AllBelow(d, b, o, t, MergeKeys(d, path, b, o, t, ks).queries)
    decreases Height(d.store, o), 1, |ks|
  {
    if ks != [] {
      var n := |ks| - 1;
      KeysBelow(d, path, b, o, t, ks[..n]);
      OneKeyBelow(d, path, b, o, t, ks[n]);
    }
  }

  lemma {:induction false} OneKeyBelow(d: Dag, path: string, b: Object, o: Object, t: Object, k: string)
    requires Acyclic(d.store) && b.MapNode? && o.MapNode? && t.MapNode?
    ensures AllBelow(d, b, o, t, MergeKey(d, path, b, o, t, k).queries)
    decreases Height(d.store, o), 1, 0
  {
    var at := ChildPath(path, k);
    var x, y, z := Lookup(b.entries, k), Lookup(o.entries, k), Lookup(t.entries, k);
    assert x.Some? ==> x.value in Children(b);
    assert y.Some? ==> y.value in Children(o);
    assert z.Some? ==> z.value in Children(t);
    if x == y || y == z || x == z {
    } else if x.Some? && y.Some? && z.Some? {
      ChildBelow(d, at, b, o, t, k);
    } else if y.Some? && z.Some? {
      AddedBelow(d, at, b, o, t, k);
    }
  }

  lemma {:induction false} ChildBelow(d: Dag, at: string, b: Object, o: Object, t: Object, k: string)
    requires Acyclic(d.store) && b.MapNode? && o.MapNode? && t.MapNode?
    requires k in b.entries && k in o.entries && k in t.entries
    ensures AllBelow(d, b, o, t, MergeChild(d, at, b, o, t, k).queries)
    decreases Height(d.store, o), 0
  {
    var x, y, z := b.entries[k], o.entries[k], t.entries[k];
    assert x in Children(b) && y in Children(o) && z in Children(t);
    ChildrenLower(d.store, o);
    if x in d.store && y in d.store && z in d.store {
      QueriesBelow(d, at, d.store[x], d.store[y], d.store[z]);
      forall i | BelowAny(d, d.store[x], d.store[y], d.store[z], i) ensures BelowAny(d, b, o, t, i) {
        if Below(d, d.store[x], i) { BelowVia(d, b, x, i); }
        if Below(d, d.store[y], i) { BelowVia(d, o, y, i); }
        if Below(d, d.store[z], i) { BelowVia(d, t, z, i); }
      }
    }
  }

  lemma {:induction false} AddedBelow(d: Dag, at: string, b: Object, o: Object, t: Object, k: string)
    requires Acyclic(d.store) && o.MapNode? && t.MapNode? && k in o.entries && k in t.entries
    ensures AllBelow(d, b, o, t, MergeAdded(d, at, o, t, k).queries)
    decreases Height(d.store, o), 0
  {
    var y, z := o.entries[k], t.entries[k];
    assert y in Children(o) && z in Children(t);
    ChildrenLower(d.store, o);
    if IsMap(Resolve(d, y)) && IsMap(Resolve(d, z)) {
      QueriesBelow(d, at, EmptyMap(), d.store[y], d.store[z]);
      forall i | BelowAny(d, EmptyMap(), d.store[y], d.store[z], i) ensures BelowAny(d, b, o, t, i) {
        if Below(d, d.store[y], i) { BelowVia(d, o, y, i); }
        if Below(d, d.store[z], i) { BelowVia(d, t, z, i); }
      }
    }
  }

  ghost predicate ReachableFromAny(d: Dag, base: ObjectId, ours: ObjectId, theirs: ObjectId, id: ObjectId)
    requires Acyclic(d.store)
  {
    Reachable(d, base, id) || Reachable(d, ours, id) || Reachable(d, theirs, id)
  }

  lemma ThreeWayQueries(d: Dag, base: ObjectId, ours: ObjectId, theirs: ObjectId)
    requires Acyclic(d.store)
    ensures forall i :: i in ThreeWay(d, base, ours, theirs).queries ==> ReachableFromAny(d, base, ours, theirs, i)
  {
    if base in d.store && ours in d.store && theirs in d.store {
      QueriesBelow(d, "/", d.store[base], d.store[ours], d.store[theirs]);
    }
  }

  /** `Err(id)` names the first lookup that failed, and it is under one of the roots. */
  lemma ErrNamesFirstMissing(d: Dag, base: ObjectId, ours: ObjectId, theirs: ObjectId)
    requires Acyclic(d.store) && TryThreeWay(d, base, ours, theirs).Err?
    ensures var id, queries := TryThreeWay(d, base, ours, theirs).missing, ThreeWay(d, base, ours, theirs).queries;
      && id !in d.store
      && ReachableFromAny(d, base, ours, theirs, id)
      && exists n: nat :: IsFirstMissing(d, queries, n) && queries[n] == id
  {
    ThreeWayQueries(d, base, ours, theirs);
    var n := FirstMissingFound(d, ThreeWay(d, base, ours, theirs).queries);
  }

  /** With nothing missing under the roots the strict merge is the lenient one. */
  lemma ClosedMergeIsOk(d: Dag, base: ObjectId, ours: ObjectId, theirs: ObjectId)
    requires Acyclic(d.store)
    requires forall id :: ReachableFromAny(d, base, ours, theirs, id) ==> id in d.store
    ensures var r := ThreeWay(d, base, ours, theirs);
      TryThreeWay(d, base, ours, theirs) == Ok(r.result, r.created)
  {
    ThreeWayQueries(d, base, ours, theirs);
    var n := FirstMissingFound(d, ThreeWay(d, base, ours, theirs).queries);
  }
}

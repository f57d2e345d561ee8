/**
 A store may hold anything beside what the given roots reach. Cutting it down to that part
 changes neither merge nor diff, and if nothing the roots reach is missing the part is sound,
 so what is proved of sound stores holds of the merge and diff of such roots in any store.
 */
module ReachableParts {
  import opened Objects
  import opened Dags
  import opened Merge
  import opened MergeStrict
  import opened Diff
  import opened DiffMerge

  ghost predicate ReachableFrom(d: Dag, roots: set<ObjectId>, id: ObjectId)
    requires Acyclic(d.store)
  {
    exists r :: r in roots && Reachable(d, r, id)
  }

  /** The objects the roots reach. */
  ghost function Part(d: Dag, roots: set<ObjectId>): Dag
    requires Acyclic(d.store)
  {
    d.(store := map i | i in d.store && ReachableFrom(d, roots, i) :: d.store[i])
  }

  /** Nothing the roots reach is missing, misplaced, or a set node not made by `Object::set`. */
  ghost predicate ClosedFrom(d: Dag, roots: set<ObjectId>) {
    && Acyclic(d.store)
    && forall i :: ReachableFrom(d, roots, i) ==>
      i in d.store && d.idOf(d.store[i]) == i && Canonical(d.store[i])
  }

  lemma {:induction false} BelowGoesOn(d: Dag, o: Object, i: ObjectId, c: ObjectId)
    requires Acyclic(d.store) && Below(d, o, i) && i in d.store && c in Children(d.store[i])
    ensures Below(d, o, c)
    decreases Height(d.store, o)
  {
    ChildrenLower(d.store, o);
    if i in Children(o) {
      BelowVia(d, d.store[i], c, c);
      BelowVia(d, o, i, c);
    } else {
      var x :| x in Children(o) && x in d.store && Below(d, d.store[x], i);
      BelowGoesOn(d, d.store[x], i, c);
      BelowVia(d, o, x, c);
    }
  }

  lemma ReachesChildren(d: Dag, roots: set<ObjectId>, i: ObjectId, c: ObjectId)
    requires Acyclic(d.store) && ReachableFrom(d, roots, i) && i in d.store && c in Children(d.store[i])
    ensures ReachableFrom(d, roots, c)
  {
    var r :| r in roots && Reachable(d, r, i);
    if i == r {
      BelowVia(d, d.store[i], c, c);
    } else {
      BelowGoesOn(d, d.store[r], i, c);
    }
    assert Reachable(d, r, c);
  }

  lemma PartIsSound(d: Dag, roots: set<ObjectId>)
    requires ClosedFrom(d, roots)
    ensures Sound(Part(d, roots)) && roots <= Part(d, roots).store.Keys && Extends(Part(d, roots), d)
  {
    var part := Part(d, roots);
    PartIsAcyclic(d.store, part.store);
    forall i, c | i in part.store && c in Children(part.store[i]) ensures c in part.store {
      ReachesChildren(d, roots, i, c);
    }
    forall r | r in roots ensures r in part.store {
      assert Reachable(d, r, r);
      assert ReachableFrom(d, roots, r);
    }
  }

  /** Merging in the whole store is merging in the sound part. */
  lemma MergeNeedsOnlyPart(d: Dag, base: ObjectId, ours: ObjectId, theirs: ObjectId)
    requires ClosedFrom(d, {base, ours, theirs})
    ensures var part := Part(d, {base, ours, theirs});
      && Sound(part) && base in part.store && ours in part.store && theirs in part.store
      && ThreeWay(part, base, ours, theirs) == ThreeWay(d, base, ours, theirs)
      && TryThreeWay(part, base, ours, theirs) == TryThreeWay(d, base, ours, theirs)
  {
    var roots := {base, ours, theirs};
    var part := Part(d, roots);
    PartIsSound(d, roots);
    ThreeWayQueries(d, base, ours, theirs);
    forall i | i in ThreeWay(d, base, ours, theirs).queries ensures Resolve(d, i) == Resolve(part, i) {
      assert ReachableFromAny(d, base, ours, theirs, i);
      assert base in roots && ours in roots && theirs in roots;
      assert ReachableFrom(d, roots, i);
    }
    ThreeWayReadsOnly(d, part, base, ours, theirs);
  }

  /** Diffing in the whole store is diffing in the sound part. */
  lemma DiffNeedsOnlyPart(d: Dag, before: ObjectId, after: ObjectId)
    requires ClosedFrom(d, {before, after})
    ensures var part := Part(d, {before, after});
      && Sound(part) && before in part.store && after in part.store
      && DiffRoots(part, before, after) == DiffRoots(d, before, after)
  {
    var roots := {before, after};
    PartIsSound(d, roots);
    var part := Part(d, roots);
    assert before in roots && after in roots;
    DiffExtends(part, d, [], part.store[before], part.store[after]);
  }
}

/** Diffing the other way round gives the mirrored ops, whatever the resolver fails to find. */
module DiffMirror {
  import opened Order
  import opened Objects
  import opened Dags
  import opened Paths
  import opened Diff

  function Mirror<V>(op: Op<V>): Op<V> {
    match op
    case SetValue(p, v, w) => SetValue(p, w, v)
    case AddKey(p, k, v) => RemoveKey(p, k, v)
    case RemoveKey(p, k, v) => AddKey(p, k, v)
    case AddElement(p, i, v) => RemoveElement(p, i, v)
    case RemoveElement(p, i, v) => AddElement(p, i, v)
    case AddToSet(p, v) => RemoveFromSet(p, v)
    case RemoveFromSet(p, v) => AddToSet(p, v)
    case ChangeType(p, v, w) => ChangeType(p, w, v)
  }

  function MirrorAll(ops: seq<FullOp>): (r: seq<FullOp>)
    ensures |r| == |ops| && forall i :: 0 <= i < |ops| ==> r[i] == Mirror(ops[i])
  {
    seq(|ops|, i requires 0 <= i < |ops| => Mirror(ops[i]))
  }

  lemma MirrorConcat(a: seq<FullOp>, b: seq<FullOp>)
    ensures MirrorAll(a + b) == MirrorAll(a) + MirrorAll(b)
  {
  }

  /** `back` is `forth` mirrored, in some order. */
  ghost predicate MirrorOf(forth: seq<FullOp>, back: seq<FullOp>) {
    multiset(back) == multiset(MirrorAll(forth))
  }

  lemma MirrorOfConcat(a: seq<FullOp>, b: seq<FullOp>, a': seq<FullOp>, b': seq<FullOp>)
    requires MirrorOf(a, a') && MirrorOf(b, b')
    ensures MirrorOf(a + b, a' + b') && MirrorOf(a + b, b' + a')
  {
    MirrorConcat(a, b);
  }

  lemma {:induction false} DiffMirrors(d: Dag, p: StatePath, x: Object, y: Object)
    requires Acyclic(d.store)
    ensures MirrorOf(DiffObjects(d, p, x, y), DiffObjects(d, p, y, x))
    decreases Height(d.store, x), 2
  {
    if x == y {
    } else if x.MapNode? && y.MapNode? {
      MapsMirror(d, p, x, y);
    } else if x.ListNode? && y.ListNode? {
      ListsMirror(d, p, x, y, Max(|x.items|, |y.items|));
    } else if x.SetNode? && y.SetNode? {
      SetsMirror(d, p, x, y);
    }
  }

  lemma {:induction false} MapsMirror(d: Dag, p: StatePath, x: Object, y: Object)
    requires Acyclic(d.store) && x.MapNode? && y.MapNode?
    ensures MirrorOf(DiffMaps(d, p, x, y), DiffMaps(d, p, y, x))
    decreases Height(d.store, x), 1, 1
  {
    var xk, yk := x.entries.Keys, y.entries.Keys;
    var gone, added, both := SortedKeys(xk - yk), SortedKeys(yk - xk), SortedKeys(xk * yk);
    assert xk * yk == yk * xk;
    KeysMirror(d, p, x, y, gone);
    KeysMirror(d, p, x, y, added);
    KeysMirror(d, p, x, y, both);
    MirrorOfConcat(KeysOps(d, p, x, y, gone), KeysOps(d, p, x, y, added),
                   KeysOps(d, p, y, x, gone), KeysOps(d, p, y, x, added));
    MirrorOfConcat(KeysOps(d, p, x, y, gone) + KeysOps(d, p, x, y, added), KeysOps(d, p, x, y, both),
                   KeysOps(d, p, y, x, added) + KeysOps(d, p, y, x, gone), KeysOps(d, p, y, x, both));
  }

  lemma {:induction false} KeysMirror(d: Dag, p: StatePath, x: Object, y: Object, ks: seq<string>)
    requires Acyclic(d.store) && x.MapNode? && y.MapNode?
    ensures MirrorOf(KeysOps(d, p, x, y, ks), KeysOps(d, p, y, x, ks))
    decreases Height(d.store, x), 1, 0, |ks|
  {
    if ks != [] {
      var n := |ks| - 1;
      KeysMirror(d, p, x, y, ks[..n]);
      KeyMirrors(d, p, x, y, ks[n]);
      MirrorOfConcat(KeysOps(d, p, x, y, ks[..n]), KeyOps(d, p, x, y, ks[n]),
                     KeysOps(d, p, y, x, ks[..n]), KeyOps(d, p, y, x, ks[n]));
    }
  }

  lemma {:induction false} KeyMirrors(d: Dag, p: StatePath, x: Object, y: Object, k: string)
    requires Acyclic(d.store) && x.MapNode? && y.MapNode?
    ensures MirrorOf(KeyOps(d, p, x, y, k), KeyOps(d, p, y, x, k))
    decreases Height(d.store, x), 0, 1
  {
    if k in x.entries && k in y.entries {
      assert x.entries[k] in Children(x) && y.entries[k] in Children(y);
      if x.entries[k] != y.entries[k] {
        ChildMirrors(d, p + [Key(k)], x, y, x.entries[k], y.entries[k]);
      }
    }
  }

  lemma {:induction false} ChildMirrors(d: Dag, p: StatePath, x: Object, y: Object, i: ObjectId, j: ObjectId)
    requires Acyclic(d.store) && i in Children(x) && j in Children(y)
    ensures MirrorOf(DiffChild(d, p, x, i, j), DiffChild(d, p, y, j, i))
    decreases Height(d.store, x), 0, 0
  {
    if i in d.store && j in d.store {
      ChildrenLower(d.store, x);
      DiffMirrors(d, p, d.store[i], d.store[j]);
    }
  }

  lemma {:induction false} ListsMirror(d: Dag, p: StatePath, x: Object, y: Object, n: nat)
    requires Acyclic(d.store) && x.ListNode? && y.ListNode?
    ensures MirrorOf(DiffLists(d, p, x, y, n), DiffLists(d, p, y, x, n))
    decreases Height(d.store, x), 1, n
  {
    if n > 0 {
      ListsMirror(d, p, x, y, n - 1);
      IndexMirrors(d, p, x, y, n - 1);
      MirrorOfConcat(DiffLists(d, p, x, y, n - 1), IndexOps(d, p, x, y, n - 1),
                     DiffLists(d, p, y, x, n - 1), IndexOps(d, p, y, x, n - 1));
    }
  }

  lemma {:induction false} IndexMirrors(d: Dag, p: StatePath, x: Object, y: Object, n: nat)
    requires Acyclic(d.store) && x.ListNode? && y.ListNode?
    ensures MirrorOf(IndexOps(d, p, x, y, n), IndexOps(d, p, y, x, n))
    decreases Height(d.store, x), 0, 1
  {
    if n < |x.items| && n < |y.items| {
      assert x.items[n] in Children(x) && y.items[n] in Children(y);
      if x.items[n] != y.items[n] {
        ChildMirrors(d, p + [Index(n)], x, y, x.items[n], y.items[n]);
      }
    }
  }

  lemma SetsMirror(d: Dag, p: StatePath, x: Object, y: Object)
    requires x.SetNode? && y.SetNode?
    ensures MirrorOf(DiffSets(d, p, x, y), DiffSets(d, p, y, x))
  {
    var gone := SortedIds(Elements(x.members) - Elements(y.members));
    var added := SortedIds(Elements(y.members) - Elements(x.members));
    assert MirrorAll(RemovedMembers(d, p, gone)) == AddedMembers(d, p, gone);
    assert MirrorAll(AddedMembers(d, p, added)) == RemovedMembers(d, p, added);
    MirrorOfConcat(RemovedMembers(d, p, gone), AddedMembers(d, p, added),
                   AddedMembers(d, p, gone), RemovedMembers(d, p, added));
  }

  // ----- the emitted ops

  function MirrorEmitted(op: DiffOp): DiffOp {
    match op
    case SetValueOp(p, v, w) => SetValueOp(p, w, v)
    case AddKeyOp(p, k, v) => RemoveKeyOp(p, k, v)
    case RemoveKeyOp(p, k, v) => AddKeyOp(p, k, v)
    case AddElementOp(p, i, v) => RemoveElementOp(p, i, v)
    case RemoveElementOp(p, i, v) => AddElementOp(p, i, v)
    case AddToSetOp(p, v) => RemoveFromSetOp(p, v)
    case RemoveFromSetOp(p, v) => AddToSetOp(p, v)
    case ChangeTypeOp(p, a, b) => ChangeTypeOp(p, b, a)
  }

  function MirrorEmittedAll(ops: seq<DiffOp>): (r: seq<DiffOp>)
    ensures |r| == |ops| && forall i :: 0 <= i < |ops| ==> r[i] == MirrorEmitted(ops[i])
  {
    seq(|ops|, i requires 0 <= i < |ops| => MirrorEmitted(ops[i]))
  }

  /** `diff(b, a)` is `diff(a, b)` with adds and removes exchanged and old and new swapped, in some order. */
  lemma DiffIsMirrorSymmetric(d: Dag, before: ObjectId, after: ObjectId)
    requires Acyclic(d.store)
    ensures multiset(SummariseAll(DiffRoots(d, after, before))) ==
            multiset(MirrorEmittedAll(SummariseAll(DiffRoots(d, before, after))))
  {
    var forth, back := DiffRoots(d, before, after), DiffRoots(d, after, before);
    if before != after && before in d.store && after in d.store {
      DiffMirrors(d, [], d.store[before], d.store[after]);
      MapPermuted(Summarise, back, MirrorAll(forth));
    }
    SummaryOfMirror(forth);
  }

  lemma SummaryOfMirror(ops: seq<FullOp>)
    ensures SummariseAll(MirrorAll(ops)) == MirrorEmittedAll(SummariseAll(ops))
  {
    var a, b := SummariseAll(MirrorAll(ops)), MirrorEmittedAll(SummariseAll(ops));
    forall i | 0 <= i < |ops| ensures a[i] == b[i] {
      SummaryMirrors(ops[i]);
    }
  }

  lemma SummaryMirrors(op: FullOp)
    ensures Summarise(Mirror(op)) == MirrorEmitted(Summarise(op))
  {
  }
}

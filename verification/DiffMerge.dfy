/**
 Merging composes diffs: when the two sides' changes lie apart, the merge conflicts only over
 lists both sides changed, and otherwise changes the base by exactly both sets of changes.
 */
module DiffMerge {
  import opened Order
  import opened Objects
  import opened Dags
  import opened Trees
  import opened Paths
  import opened Merge
  import opened MergeCreated
  import opened MergeStrict
  import opened MergeRefinement
  import opened Diff
  import opened DiffPatch

  // ----- the ops of two maps, key by key in any order

  lemma {:induction false} KeysConcat(d: Dag, p: StatePath, x: Object, y: Object, a: seq<string>, b: seq<string>)
    requires Acyclic(d.store) && x.MapNode? && y.MapNode?
    ensures KeysOps(d, p, x, y, a + b) == KeysOps(d, p, x, y, a) + KeysOps(d, p, x, y, b)
  {
    if b == [] {
      assert a + b == a;
    } else {
      var n := |b| - 1;
      assert (a + b)[..|a| + n] == a + b[..n];
      KeysConcat(d, p, x, y, a, b[..n]);
    }
  }

  lemma KeysDrop(d: Dag, p: StatePath, x: Object, y: Object, ks: seq<string>, j: nat)
    requires Acyclic(d.store) && x.MapNode? && y.MapNode? && j < |ks|
    ensures multiset(KeysOps(d, p, x, y, ks)) ==
      multiset(KeysOps(d, p, x, y, DropAt(ks, j))) + multiset(KeyOps(d, p, x, y, ks[j]))
  {
    assert ks == ks[..j] + [ks[j]] + ks[j + 1..];
    KeysConcat(d, p, x, y, ks[..j] + [ks[j]], ks[j + 1..]);
    KeysConcat(d, p, x, y, ks[..j], [ks[j]]);
    KeysConcat(d, p, x, y, ks[..j], ks[j + 1..]);
    OneKey(d, p, x, y, ks[j]);
  }

  lemma OneKey(d: Dag, p: StatePath, x: Object, y: Object, k: string)
    requires Acyclic(d.store) && x.MapNode? && y.MapNode?
    ensures KeysOps(d, p, x, y, [k]) == KeyOps(d, p, x, y, k)
  {
    assert [k][..0] == [];
    assert KeysOps(d, p, x, y, [k][..0]) == [];
  }

  lemma {:induction false} KeysPermuted(d: Dag, p: StatePath, x: Object, y: Object, a: seq<string>, b: seq<string>)
    requires Acyclic(d.store) && x.MapNode? && y.MapNode? && Distinct(a) && Distinct(b)
    requires forall k :: k in a ==> k in b
    requires forall k :: k in b && k !in a ==> KeyOps(d, p, x, y, k) == []
    ensures multiset(KeysOps(d, p, x, y, a)) == multiset(KeysOps(d, p, x, y, b))
    decreases |b|
  {
    if b == [] {
      NoMembers(a);
    } else {
      var n := |b| - 1;
      var init, k := b[..n], b[n];
      assert b == init + [k];
      assert k !in init;
      if k in a {
        var j :| 0 <= j < |a| && a[j] == k;
        KeysDrop(d, p, x, y, a, j);
        Dropped(a, j);
        KeysPermuted(d, p, x, y, DropAt(a, j), init);
      } else {
        KeysPermuted(d, p, x, y, a, init);
      }
    }
  }

  lemma NoMembers<T>(s: seq<T>)
    requires forall x :: x in s ==> false
    ensures s == []
  {
    assert forall x :: x in multiset(s) ==> x in s;
    assert multiset(s) == multiset{} && |multiset(s)| == |s|;
  }

  lemma Dropped(s: seq<string>, j: nat)
    requires Distinct(s) && j < |s|
    ensures Distinct(DropAt(s, j))
    ensures forall k :: k in DropAt(s, j) <==> k in s && k != s[j]
  {
    var r := DropAt(s, j);
    assert forall i :: 0 <= i < |r| ==> r[i] == if i < j then s[i] else s[i + 1];
    forall k | k in s && k != s[j] ensures k in r {
      var i :| 0 <= i < |s| && s[i] == k;
      assert r[if i < j then i else i - 1] == k;
    }
  }

  /** The map diff lists each key once: over any listing of the keys it is the same multiset. */
  lemma MapsByKey(d: Dag, p: StatePath, x: Object, y: Object, ks: seq<string>)
    requires Acyclic(d.store) && x.MapNode? && y.MapNode? && Distinct(ks)
    requires forall k :: k in x.entries || k in y.entries ==> k in ks
    ensures multiset(DiffMaps(d, p, x, y)) == multiset(KeysOps(d, p, x, y, ks))
  {
    var xk, yk := x.entries.Keys, y.entries.Keys;
    var a, b, c := SortedKeys(xk - yk), SortedKeys(yk - xk), SortedKeys(xk * yk);
    SortedKeysAscend(xk - yk);
    SortedKeysAscend(yk - xk);
    SortedKeysAscend(xk * yk);
    DistinctConcat(a, b);
    DistinctConcat(a + b, c);
    KeysConcat(d, p, x, y, a, b);
    KeysConcat(d, p, x, y, a + b, c);
    assert forall k :: k in a + b + c <==> k in xk + yk;
    KeysPermuted(d, p, x, y, a + b + c, ks);
  }

  // ----- places

  /** What an op touches: the key or position it adds or removes, or its node. */
  function Location(op: FullOp): StatePath {
    match op
    case AddKey(p, k, _) => p + [Key(k)]
    case RemoveKey(p, k, _) => p + [Key(k)]
    case AddElement(p, i, _) => p + [Index(i)]
    case RemoveElement(p, i, _) => p + [Index(i)]
    case _ => op.path
  }

  /** No location of the one is at, above or below a location of the other. */
  ghost predicate Apart(a: seq<FullOp>, b: seq<FullOp>) {
    forall x, y :: x in a && y in b ==> !(Location(x) <= Location(y)) && !(Location(y) <= Location(x))
  }

  lemma ApartSelf(a: seq<FullOp>)
    requires Apart(a, a)
    ensures a == []
  {
    forall x ensures x !in a {
      assert Location(x) <= Location(x);
    }
    NoMembers(a);
  }

  lemma NotApart(a: seq<FullOp>, b: seq<FullOp>, p: StatePath)
    requires a != [] && b != [] && Location(a[0]) == p && p <= Location(b[0])
    ensures !Apart(a, b) && !Apart(b, a)
  {
    assert a[0] in a && b[0] in b;
  }

  lemma ApartPart(a: seq<FullOp>, b: seq<FullOp>, a': seq<FullOp>, b': seq<FullOp>)
    requires Apart(a, b)
    requires forall x :: x in a' ==> x in a
    requires forall x :: x in b' ==> x in b
    ensures Apart(a', b') && Apart(b', a')
  {
  }

  lemma LocationsUnder(d: Dag, p: StatePath, x: Object, y: Object)
    requires Acyclic(d.store)
    ensures forall op :: op in DiffObjects(d, p, x, y) ==> p <= Location(op)
  {
    DiffUnder(d, p, x, y);
  }

  lemma KeyLocations(d: Dag, p: StatePath, x: Object, y: Object, k: string)
    requires Acyclic(d.store) && x.MapNode? && y.MapNode?
    ensures forall op :: op in KeyOps(d, p, x, y, k) ==> p + [Key(k)] <= Location(op)
  {
    DiffPatch.KeyUnder(d, p, x, y, k);
  }

  lemma KeyInMaps(d: Dag, p: StatePath, x: Object, y: Object, k: string)
    requires Acyclic(d.store) && x.MapNode? && y.MapNode?
    ensures forall op :: op in KeyOps(d, p, x, y, k) ==> op in DiffMaps(d, p, x, y)
  {
    forall op | op in KeyOps(d, p, x, y, k) ensures op in DiffMaps(d, p, x, y) {
      assert OpOfKey(d, p, x, y, k, op);
      MapMembers(d, p, x, y, op);
    }
  }

  // ----- lists changed by both sides

  /** Somewhere, by map keys common to the three trees, there are three different lists. */
  ghost predicate ListsDisagree(b: Tree, o: Tree, t: Tree) {
    && o != t && b != o && b != t
    && ((b.TList? && o.TList? && t.TList?) ||
        (b.TMap? && o.TMap? && t.TMap? &&
         exists k :: k in b.entries && k in o.entries && k in t.entries &&
           ListsDisagree(b.entries[k], o.entries[k], t.entries[k])))
  }

  lemma MapsDisagree(b: Tree, o: Tree, t: Tree)
    requires b.TMap? && o.TMap? && t.TMap? && o != t && b != o && b != t
    ensures ListsDisagree(b, o, t) <==> exists k :: KeyDisagrees(b, o, t, k)
  {
    if ListsDisagree(b, o, t) {
      var k :| k in b.entries && k in o.entries && k in t.entries &&
        ListsDisagree(b.entries[k], o.entries[k], t.entries[k]);
      assert KeyDisagrees(b, o, t, k);
    }
  }

  ghost predicate KeyDisagrees(b: Tree, o: Tree, t: Tree, k: string)
    requires b.TMap? && o.TMap? && t.TMap?
  {
    k in b.entries && k in o.entries && k in t.entries && ListsDisagree(b.entries[k], o.entries[k], t.entries[k])
  }

  ghost predicate ListFree(t: Tree) {
    !t.TList? && (t.TMap? ==> forall k :: k in t.entries ==> ListFree(t.entries[k]))
  }

  /** Without lists there is nothing to disagree about. */
  lemma {:induction false} ListFreeAgrees(b: Tree, o: Tree, t: Tree)
    requires ListFree(b)
    ensures !ListsDisagree(b, o, t)
  {
    if b.TMap? && o.TMap? && t.TMap? {
      forall k | k in b.entries && k in o.entries && k in t.entries
        ensures !ListsDisagree(b.entries[k], o.entries[k], t.entries[k])
      {
        ListFreeAgrees(b.entries[k], o.entries[k], t.entries[k]);
      }
    }
  }

  lemma DiffNonEmpty(d: Dag, p: StatePath, x: Object, y: Object)
    requires Sound(d) && Supported(d, x) && Supported(d, y)
    ensures DiffObjects(d, p, x, y) == [] <==> x == y
  {
    if DiffObjects(d, p, x, y) == [] {
      PatchGivesNew(d, p, x, y, {});
      PatchNothing(d, p, Expand(d, x), {});
      ObjectsStandForTrees(d, x, y);
    }
  }

  // ----- the law

  /** No conflict unless lists disagree; and without conflicts the two diffs of the base add up. */
  ghost predicate AddsUp(e: Dag, p: StatePath, b: Object, o: Object, t: Object, r: Outcome)
    requires Ready(e, b, o, t)
  {
    && (r.conflicts == [] <==> !ListsDisagree(Expand(e, b), Expand(e, o), Expand(e, t)))
    && (r.conflicts == [] ==>
          multiset(DiffObjects(e, p, b, r.obj)) ==
          multiset(DiffObjects(e, p, b, o)) + multiset(DiffObjects(e, p, b, t)))
  }

  ghost predicate Ready(e: Dag, b: Object, o: Object, t: Object) {
    Sound(e) && Supported(e, b) && Supported(e, o) && Supported(e, t)
  }

  ghost predicate AllStored(e: Dag, created: seq<Object>) {
    forall x :: x in created ==> Stored(e, x)
  }

  lemma {:induction false} DiffsAddUp(e: Dag, p: StatePath, path: string, b: Object, o: Object, t: Object)
    requires Ready(e, b, o, t) && AllStored(e, MergeObjects(e, path, b, o, t).created)
    requires Apart(DiffObjects(e, p, b, o), DiffObjects(e, p, b, t))
    ensures AddsUp(e, p, b, o, t, MergeObjects(e, path, b, o, t))
    decreases Height(e.store, o), 2
  {
    if o == t || b == o || b == t {
      AgreedAddsUp(e, p, path, b, o, t);
    } else if b.MapNode? && o.MapNode? && t.MapNode? {
      MapsAddUp(e, p, path, b, o, t);
    } else if b.ListNode? && o.ListNode? && t.ListNode? {
      TreesDiffer(e, b, o, t);
      ClashOutcome(e, path, b, o, t);
    } else {
      NeverApart(e, p, b, o, t);
    }
  }

  lemma AgreedAddsUp(e: Dag, p: StatePath, path: string, b: Object, o: Object, t: Object)
    requires Ready(e, b, o, t) && (o == t || b == o || b == t)
    requires Apart(DiffObjects(e, p, b, o), DiffObjects(e, p, b, t))
    ensures AddsUp(e, p, b, o, t, MergeObjects(e, path, b, o, t))
  {
    AgreedOutcome(e, path, b, o, t);
    if o == t {
      ApartSelf(DiffObjects(e, p, b, o));
      DiffNonEmpty(e, p, b, o);
    }
  }

  /** A node replaced on one side and changed on the other is not apart, nor a set changed by both. */
  lemma NeverApart(e: Dag, p: StatePath, b: Object, o: Object, t: Object)
    requires Ready(e, b, o, t) && b != o && b != t
    requires !(b.MapNode? && o.MapNode? && t.MapNode?) && !(b.ListNode? && o.ListNode? && t.ListNode?)
    ensures !Apart(DiffObjects(e, p, b, o), DiffObjects(e, p, b, t))
  {
    var x, y := DiffObjects(e, p, b, o), DiffObjects(e, p, b, t);
    SomeUnder(e, p, b, o);
    SomeUnder(e, p, b, t);
    if (b.MapNode? && o.MapNode?) || (b.ListNode? && o.ListNode?) {
      ChangedHere(e, p, b, t);
      NotApart(y, x, p);
    } else {
      ChangedHere(e, p, b, o);
      NotApart(x, y, p);
    }
  }

  lemma SomeUnder(e: Dag, p: StatePath, x: Object, y: Object)
    requires Sound(e) && Supported(e, x) && Supported(e, y) && x != y
    ensures |DiffObjects(e, p, x, y)| > 0 && p <= Location(DiffObjects(e, p, x, y)[0])
  {
    DiffNonEmpty(e, p, x, y);
    LocationsUnder(e, p, x, y);
    assert DiffObjects(e, p, x, y)[0] in DiffObjects(e, p, x, y);
  }

  /** Except between two maps or two lists, a change is at the node itself. */
  lemma ChangedHere(e: Dag, p: StatePath, x: Object, y: Object)
    requires Sound(e) && Supported(e, x) && Supported(e, y) && x != y
    requires !(x.MapNode? && y.MapNode?) && !(x.ListNode? && y.ListNode?)
    ensures |DiffObjects(e, p, x, y)| > 0 && Location(DiffObjects(e, p, x, y)[0]) == p
  {
    DiffNonEmpty(e, p, x, y);
    if x.SetNode? && y.SetNode? {
      assert DiffObjects(e, p, x, y)[0] in DiffSets(e, p, x, y);
      SetLocations(e, p, x, y);
    }
  }

  lemma SetLocations(d: Dag, p: StatePath, x: Object, y: Object)
    requires x.SetNode? && y.SetNode?
    ensures forall op :: op in DiffSets(d, p, x, y) ==> Location(op) == p
  {
  }

  lemma SameLookup(e: Dag, p: StatePath, b: Object, y: Object, z: Object, k: string)
    requires Acyclic(e.store) && b.MapNode? && y.MapNode? && z.MapNode? && Lookup(y.entries, k) == Lookup(z.entries, k)
    ensures KeyOps(e, p, b, y, k) == KeyOps(e, p, b, z, k)
  {
  }

  lemma KeyUnchanged(e: Dag, p: StatePath, b: Object, y: Object, k: string)
    requires Sound(e) && Supported(e, b) && Supported(e, y) && b.MapNode? && y.MapNode?
    ensures KeyOps(e, p, b, y, k) == [] <==> Lookup(b.entries, k) == Lookup(y.entries, k)
  {
    if k in b.entries && k in y.entries && b.entries[k] != y.entries[k] {
      KeyChild(e, p, b, y, k);
      DiffNonEmpty(e, p + [Key(k)], e.store[b.entries[k]], e.store[y.entries[k]]);
      assert e.idOf(e.store[b.entries[k]]) == b.entries[k] && e.idOf(e.store[y.entries[k]]) == y.entries[k];
    }
  }

  /** A key of both maps contributes the diff of its values. */
  lemma KeyChild(e: Dag, p: StatePath, b: Object, y: Object, k: string)
    requires Sound(e) && Supported(e, b) && Supported(e, y) && b.MapNode? && y.MapNode?
    requires k in b.entries && k in y.entries
    ensures b.entries[k] in e.store && y.entries[k] in e.store
    ensures Supported(e, e.store[b.entries[k]]) && Supported(e, e.store[y.entries[k]])
    ensures KeyOps(e, p, b, y, k) == DiffObjects(e, p + [Key(k)], e.store[b.entries[k]], e.store[y.entries[k]])
  {
    assert b.entries[k] in Children(b) && y.entries[k] in Children(y);
    StoredChild(e, b, b.entries[k]);
    StoredChild(e, y, y.entries[k]);
  }

  /** A key conflicts exactly where lists disagree, and otherwise its ops add up. */
  ghost predicate KeyAddsUp(e: Dag, p: StatePath, path: string, b: Object, o: Object, t: Object, m: Object, k: string)
    requires Ready(e, b, o, t) && b.MapNode? && o.MapNode? && t.MapNode? && m.MapNode?
  {
    && ConflictMeansDisagree(e, path, b, o, t, k)
    && (MergeKey(e, path, b, o, t, k).conflicts == [] ==>
          multiset(KeyOps(e, p, b, m, k)) == multiset(KeyOps(e, p, b, o, k)) + multiset(KeyOps(e, p, b, t, k)))
  }

  lemma {:induction false} MapsAddUp(e: Dag, p: StatePath, path: string, b: Object, o: Object, t: Object)
    requires Ready(e, b, o, t) && b.MapNode? && o.MapNode? && t.MapNode? && o != t && b != o && b != t
    requires AllStored(e, MergeObjects(e, path, b, o, t).created)
    requires Apart(DiffObjects(e, p, b, o), DiffObjects(e, p, b, t))
    ensures AddsUp(e, p, b, o, t, MergeObjects(e, path, b, o, t))
    decreases Height(e.store, o), 1
  {
    var ks := SortedKeys(AllKeys(b, o, t));
    var m := MergeObjects(e, path, b, o, t).obj;
    SortedKeysAscend(AllKeys(b, o, t));
    MapsOutcome(e, path, b, o, t);
    KeysEntries(e, path, b, o, t, ks);
    KeysCreated(e, path, b, o, t, ks);
    forall k | k in ks ensures KeyAddsUp(e, p, path, b, o, t, m, k) {
      KeyInMaps(e, p, b, o, k);
      KeyInMaps(e, p, b, t, k);
      ApartPart(DiffMaps(e, p, b, o), DiffMaps(e, p, b, t), KeyOps(e, p, b, o, k), KeyOps(e, p, b, t, k));
      OneKeyAddsUp(e, p, path, b, o, t, m, k);
    }
    KeysAddUp(e, p, path, b, o, t, m, ks);
    MapsConflict(e, path, b, o, t, ks);
    MapOpsAddUp(e, p, b, o, t, m, ks);
  }

  lemma MapOpsAddUp(e: Dag, p: StatePath, b: Object, o: Object, t: Object, m: Object, ks: seq<string>)
    requires Acyclic(e.store) && b.MapNode? && o.MapNode? && t.MapNode? && m.MapNode? && Distinct(ks)
    requires forall k :: k in b.entries || k in o.entries || k in t.entries || k in m.entries ==> k in ks
    ensures
      multiset(KeysOps(e, p, b, m, ks)) == multiset(KeysOps(e, p, b, o, ks)) + multiset(KeysOps(e, p, b, t, ks)) ==>
      multiset(DiffObjects(e, p, b, m)) ==
      multiset(DiffObjects(e, p, b, o)) + multiset(DiffObjects(e, p, b, t))
  {
    ObjectsByKey(e, p, b, o, ks);
    ObjectsByKey(e, p, b, t, ks);
    ObjectsByKey(e, p, b, m, ks);
  }

  lemma ObjectsByKey(e: Dag, p: StatePath, x: Object, y: Object, ks: seq<string>)
    requires Acyclic(e.store) && x.MapNode? && y.MapNode? && Distinct(ks)
    requires forall k :: k in x.entries || k in y.entries ==> k in ks
    ensures multiset(DiffObjects(e, p, x, y)) == multiset(KeysOps(e, p, x, y, ks))
  {
    MapsByKey(e, p, x, y, ks);
    if x == y { SameMaps(e, p, x, ks); }
  }

  lemma {:induction false} SameMaps(e: Dag, p: StatePath, b: Object, ks: seq<string>)
    requires Acyclic(e.store) && b.MapNode?
    ensures KeysOps(e, p, b, b, ks) == []
  {
    if ks != [] { SameMaps(e, p, b, ks[..|ks| - 1]); }
  }

  lemma {:induction false} KeysAddUp(
    e: Dag, p: StatePath, path: string, b: Object, o: Object, t: Object, m: Object, ks: seq<string>)
    requires Ready(e, b, o, t) && b.MapNode? && o.MapNode? && t.MapNode? && m.MapNode?
    requires forall k :: k in ks ==> KeyAddsUp(e, p, path, b, o, t, m, k)
    ensures MergeKeys(e, path, b, o, t, ks).conflicts == [] ==>
      multiset(KeysOps(e, p, b, m, ks)) == multiset(KeysOps(e, p, b, o, ks)) + multiset(KeysOps(e, p, b, t, ks))
  {
    if ks != [] {
      var n := |ks| - 1;
      KeysAddUp(e, p, path, b, o, t, m, ks[..n]);
      assert KeyAddsUp(e, p, path, b, o, t, m, ks[n]);
    }
  }

  ghost predicate ConflictAt(e: Dag, path: string, b: Object, o: Object, t: Object, k: string)
    requires Acyclic(e.store) && b.MapNode? && o.MapNode? && t.MapNode?
  {
    MergeKey(e, path, b, o, t, k).conflicts != []
  }

  lemma {:induction false} ConflictingKey(e: Dag, path: string, b: Object, o: Object, t: Object, ks: seq<string>)
    returns (k: string)
    requires Acyclic(e.store) && b.MapNode? && o.MapNode? && t.MapNode?
    requires MergeKeys(e, path, b, o, t, ks).conflicts != []
    ensures k in ks && ConflictAt(e, path, b, o, t, k)
  {
    var n := |ks| - 1;
    if MergeKeys(e, path, b, o, t, ks[..n]).conflicts != [] {
      k := ConflictingKey(e, path, b, o, t, ks[..n]);
    } else {
      k := ks[n];
    }
  }

  lemma {:induction false} KeyConflicts(
    e: Dag, path: string, b: Object, o: Object, t: Object, ks: seq<string>, k: string)
    requires Acyclic(e.store) && b.MapNode? && o.MapNode? && t.MapNode?
    requires k in ks && ConflictAt(e, path, b, o, t, k)
    ensures MergeKeys(e, path, b, o, t, ks).conflicts != []
  {
    var n := |ks| - 1;
    if k != ks[n] {
      KeyConflicts(e, path, b, o, t, ks[..n], k);
    }
  }

  ghost predicate ConflictMeansDisagree(e: Dag, path: string, b: Object, o: Object, t: Object, k: string)
    requires Ready(e, b, o, t) && b.MapNode? && o.MapNode? && t.MapNode?
  {
    ConflictAt(e, path, b, o, t, k) <==> KeyDisagrees(Expand(e, b), Expand(e, o), Expand(e, t), k)
  }

  /** The maps have a conflict exactly when lists disagree at one of their keys. */
  lemma MapsConflict(e: Dag, path: string, b: Object, o: Object, t: Object, ks: seq<string>)
    requires Ready(e, b, o, t) && b.MapNode? && o.MapNode? && t.MapNode? && o != t && b != o && b != t
    requires forall k :: k in b.entries ==> k in ks
    requires forall k :: k in ks ==> ConflictMeansDisagree(e, path, b, o, t, k)
    ensures MergeKeys(e, path, b, o, t, ks).conflicts == [] <==>
      !ListsDisagree(Expand(e, b), Expand(e, o), Expand(e, t))
  {
    TreesDiffer(e, b, o, t);
    MapsDisagree(Expand(e, b), Expand(e, o), Expand(e, t));
    if MergeKeys(e, path, b, o, t, ks).conflicts != [] {
      var k := ConflictingKey(e, path, b, o, t, ks);
      assert ConflictMeansDisagree(e, path, b, o, t, k);
    }
    if k :| KeyDisagrees(Expand(e, b), Expand(e, o), Expand(e, t), k) {
      ExpandedMap(e, b);
      assert k in ks && ConflictMeansDisagree(e, path, b, o, t, k);
      KeyConflicts(e, path, b, o, t, ks, k);
    }
  }

  lemma {:induction false} OneKeyAddsUp(
    e: Dag, p: StatePath, path: string, b: Object, o: Object, t: Object, m: Object, k: string)
    requires Ready(e, b, o, t) && b.MapNode? && o.MapNode? && t.MapNode? && m.MapNode?
    requires Lookup(m.entries, k) == MergeKey(e, path, b, o, t, k).entry
    requires AllStored(e, MergeKey(e, path, b, o, t, k).created)
    requires Apart(KeyOps(e, p, b, o, k), KeyOps(e, p, b, t, k))
    ensures KeyAddsUp(e, p, path, b, o, t, m, k)
    decreases Height(e.store, o), 0, 1
  {
    var x, y, z := Lookup(b.entries, k), Lookup(o.entries, k), Lookup(t.entries, k);
    if KeyAgreed(b, o, t, k) {
      AgreedKeyAddsUp(e, p, path, b, o, t, m, k);
    } else if x.Some? && y.Some? && z.Some? {
      ChildAddsUp(e, p, path, b, o, t, m, k);
    } else {
      WholeKeyIsNotApart(e, p, b, o, t, k);
    }
  }

  predicate KeyAgreed(b: Object, o: Object, t: Object, k: string)
    requires b.MapNode? && o.MapNode? && t.MapNode?
  {
    || Lookup(o.entries, k) == Lookup(t.entries, k)
    || Lookup(b.entries, k) == Lookup(o.entries, k)
    || Lookup(b.entries, k) == Lookup(t.entries, k)
  }

  lemma AgreedKey(e: Dag, path: string, b: Object, o: Object, t: Object, k: string)
    requires Acyclic(e.store) && b.MapNode? && o.MapNode? && t.MapNode? && KeyAgreed(b, o, t, k)
    ensures MergeKey(e, path, b, o, t, k).conflicts == []
    ensures MergeKey(e, path, b, o, t, k).entry ==
      if Lookup(o.entries, k) == Lookup(t.entries, k) || Lookup(b.entries, k) == Lookup(t.entries, k)
      then Lookup(o.entries, k) else Lookup(t.entries, k)
  {
  }

  /** Equal ids are equal trees, and those do not disagree. */
  lemma AgreedKeyAgrees(e: Dag, b: Object, o: Object, t: Object, k: string)
    requires Ready(e, b, o, t) && b.MapNode? && o.MapNode? && t.MapNode? && KeyAgreed(b, o, t, k)
    ensures !KeyDisagrees(Expand(e, b), Expand(e, o), Expand(e, t), k)
  {
    if k in b.entries && k in o.entries && k in t.entries {
      EntryTree(e, b, k);
      EntryTree(e, o, k);
      EntryTree(e, t, k);
    }
  }

  lemma EntryTree(e: Dag, o: Object, k: string)
    requires Readable(e) && Children(o) <= e.store.Keys && o.MapNode? && k in o.entries
    ensures o.entries[k] in e.store && Expand(e, o).entries[k] == ExpandId(e, o.entries[k])
  {
    assert o.entries[k] in Children(o);
  }

  lemma AgreedKeyAddsUp(
    e: Dag, p: StatePath, path: string, b: Object, o: Object, t: Object, m: Object, k: string)
    requires Ready(e, b, o, t) && b.MapNode? && o.MapNode? && t.MapNode? && m.MapNode?
    requires Lookup(m.entries, k) == MergeKey(e, path, b, o, t, k).entry
    requires Apart(KeyOps(e, p, b, o, k), KeyOps(e, p, b, t, k)) && KeyAgreed(b, o, t, k)
    ensures KeyAddsUp(e, p, path, b, o, t, m, k)
  {
    AgreedKey(e, path, b, o, t, k);
    AgreedKeyAgrees(e, b, o, t, k);
    AgreedOpsAddUp(e, p, b, o, t, m, k);
  }

  lemma AgreedOpsAddUp(e: Dag, p: StatePath, b: Object, o: Object, t: Object, m: Object, k: string)
    requires Ready(e, b, o, t) && b.MapNode? && o.MapNode? && t.MapNode? && m.MapNode?
    requires Apart(KeyOps(e, p, b, o, k), KeyOps(e, p, b, t, k)) && KeyAgreed(b, o, t, k)
    requires Lookup(m.entries, k) ==
      if Lookup(o.entries, k) == Lookup(t.entries, k) || Lookup(b.entries, k) == Lookup(t.entries, k)
      then Lookup(o.entries, k) else Lookup(t.entries, k)
    ensures multiset(KeyOps(e, p, b, m, k)) == multiset(KeyOps(e, p, b, o, k)) + multiset(KeyOps(e, p, b, t, k))
  {
    if Lookup(o.entries, k) == Lookup(t.entries, k) {
      SameLookup(e, p, b, o, t, k);
      ApartSelf(KeyOps(e, p, b, o, k));
      SameLookup(e, p, b, o, m, k);
    } else if Lookup(b.entries, k) == Lookup(t.entries, k) {
      KeyUnchanged(e, p, b, t, k);
      SameLookup(e, p, b, o, m, k);
    } else {
      KeyUnchanged(e, p, b, o, k);
      SameLookup(e, p, b, t, m, k);
    }
  }

  /** A key that one side adds or deletes and the other changes otherwise is touched by both. */
  lemma WholeKeyIsNotApart(e: Dag, p: StatePath, b: Object, o: Object, t: Object, k: string)
    requires Ready(e, b, o, t) && b.MapNode? && o.MapNode? && t.MapNode? && !KeyAgreed(b, o, t, k)
    requires !(k in b.entries && k in o.entries && k in t.entries)
    ensures !Apart(KeyOps(e, p, b, o, k), KeyOps(e, p, b, t, k))
  {
    KeyUnchanged(e, p, b, o, k);
    KeyUnchanged(e, p, b, t, k);
    KeyLocations(e, p, b, o, k);
    KeyLocations(e, p, b, t, k);
    var u, v := KeyOps(e, p, b, o, k), KeyOps(e, p, b, t, k);
    if k !in o.entries || k !in b.entries {
      NotApart(u, v, p + [Key(k)]);
    } else {
      NotApart(v, u, p + [Key(k)]);
    }
  }

  lemma {:induction false} ChildAddsUp(
    e: Dag, p: StatePath, path: string, b: Object, o: Object, t: Object, m: Object, k: string)
    requires Ready(e, b, o, t) && b.MapNode? && o.MapNode? && t.MapNode? && m.MapNode?
    requires k in b.entries && k in o.entries && k in t.entries && !KeyAgreed(b, o, t, k)
    requires Lookup(m.entries, k) == MergeKey(e, path, b, o, t, k).entry
    requires AllStored(e, MergeKey(e, path, b, o, t, k).created)
    requires Apart(KeyOps(e, p, b, o, k), KeyOps(e, p, b, t, k))
    ensures KeyAddsUp(e, p, path, b, o, t, m, k)
    decreases Height(e.store, o), 0, 0
  {
    var at, q := ChildPath(path, k), p + [Key(k)];
    StoredEntry(e, b, k);
    StoredEntry(e, o, k);
    StoredEntry(e, t, k);
    var x, y, z := e.store[b.entries[k]], e.store[o.entries[k]], e.store[t.entries[k]];
    KeyChild(e, p, b, o, k);
    KeyChild(e, p, b, t, k);
    ChangedKey(e, path, b, o, t, k);
    DiffsAddUp(e, q, at, x, y, z);
    ResultStored(e, at, x, y, z);
    MergedKey(e, p, b, m, k, MergeObjects(e, at, x, y, z).obj);
    DisagreementBelow(e, b, o, t, k);
  }

  /** A key changed by both sides is decided by merging its three objects. */
  lemma ChangedKey(e: Dag, path: string, b: Object, o: Object, t: Object, k: string)
    requires Acyclic(e.store) && b.MapNode? && o.MapNode? && t.MapNode? && !KeyAgreed(b, o, t, k)
    requires k in b.entries && k in o.entries && k in t.entries
    requires b.entries[k] in e.store && o.entries[k] in e.store && t.entries[k] in e.store
    ensures var at := ChildPath(path, k);
      var r := MergeObjects(e, at, e.store[b.entries[k]], e.store[o.entries[k]], e.store[t.entries[k]]);
      var x := MergeKey(e, path, b, o, t, k);
      x.entry == Some(e.idOf(r.obj)) && x.conflicts == r.conflicts && x.created == r.created
  {
    KeyChanged(e, path, b, o, t, k);
    ChildOutcome(e, ChildPath(path, k), b, o, t, k);
  }

  lemma DisagreementBelow(e: Dag, b: Object, o: Object, t: Object, k: string)
    requires Ready(e, b, o, t) && b.MapNode? && o.MapNode? && t.MapNode?
    requires k in b.entries && k in o.entries && k in t.entries
    ensures b.entries[k] in e.store && o.entries[k] in e.store && t.entries[k] in e.store
    ensures KeyDisagrees(Expand(e, b), Expand(e, o), Expand(e, t), k) <==>
      ListsDisagree(ExpandId(e, b.entries[k]), ExpandId(e, o.entries[k]), ExpandId(e, t.entries[k]))
  {
    EntryTree(e, b, k);
    EntryTree(e, o, k);
    EntryTree(e, t, k);
  }

  lemma ResultStored(e: Dag, at: string, x: Object, y: Object, z: Object)
    requires Sound(e) && Supported(e, x) && Supported(e, y) && Supported(e, z) && Stored(e, y) && Stored(e, z)
    requires AllStored(e, MergeObjects(e, at, x, y, z).created)
    ensures Stored(e, MergeObjects(e, at, x, y, z).obj)
  {
    MergeBacked(e, at, x, y, z);
  }

  lemma MergedKey(e: Dag, p: StatePath, b: Object, m: Object, k: string, r: Object)
    requires Sound(e) && Supported(e, b) && b.MapNode? && m.MapNode? && k in b.entries && b.entries[k] in e.store
    requires Lookup(m.entries, k) == Some(e.idOf(r)) && Stored(e, r)
    ensures KeyOps(e, p, b, m, k) == DiffObjects(e, p + [Key(k)], e.store[b.entries[k]], r)
  {
    assert b.entries[k] in Children(b);
    if b.entries[k] == e.idOf(r) {
      assert e.store[b.entries[k]] == r;
    }
  }

  // ----- the whole merge

  lemma {:induction false} DiffExtends(d: Dag, e: Dag, p: StatePath, x: Object, y: Object)
    requires Readable(d) && Acyclic(e.store) && Extends(d, e)
    requires Children(x) <= d.store.Keys && Children(y) <= d.store.Keys
    ensures DiffObjects(e, p, x, y) == DiffObjects(d, p, x, y)
    decreases Height(d.store, x), 2
  {
    if x == y {
    } else if x.MapNode? && y.MapNode? {
      KeysExtend(d, e, p, x, y, SortedKeys(x.entries.Keys - y.entries.Keys));
      KeysExtend(d, e, p, x, y, SortedKeys(y.entries.Keys - x.entries.Keys));
      KeysExtend(d, e, p, x, y, SortedKeys(x.entries.Keys * y.entries.Keys));
    } else if x.ListNode? && y.ListNode? {
      ListsExtend(d, e, p, x, y, Max(|x.items|, |y.items|));
    } else if x.SetNode? && y.SetNode? {
      SetsExtend(d, e, p, x, y);
    }
  }

  lemma {:induction false} KeysExtend(d: Dag, e: Dag, p: StatePath, x: Object, y: Object, ks: seq<string>)
    requires Readable(d) && Acyclic(e.store) && Extends(d, e) && x.MapNode? && y.MapNode?
    requires Children(x) <= d.store.Keys && Children(y) <= d.store.Keys
    ensures KeysOps(e, p, x, y, ks) == KeysOps(d, p, x, y, ks)
    decreases Height(d.store, x), 1, |ks|
  {
    if ks != [] {
      var k := ks[|ks| - 1];
      KeysExtend(d, e, p, x, y, ks[..|ks| - 1]);
      assert k in x.entries ==> x.entries[k] in Children(x);
      assert k in y.entries ==> y.entries[k] in Children(y);
      if k in x.entries && k in y.entries {
        ChildExtends(d, e, p + [Key(k)], x, y, x.entries[k], y.entries[k]);
      }
    }
  }

  lemma {:induction false} ChildExtends(d: Dag, e: Dag, p: StatePath, x: Object, y: Object, i: ObjectId, j: ObjectId)
    requires Readable(d) && Acyclic(e.store) && Extends(d, e) && i in Children(x) && j in Children(y)
    requires Children(x) <= d.store.Keys && Children(y) <= d.store.Keys
    ensures DiffChild(e, p, x, i, j) == DiffChild(d, p, x, i, j)
    decreases Height(d.store, x), 0
  {
    ChildrenLower(d.store, x);
    DiffExtends(d, e, p, d.store[i], d.store[j]);
  }

  lemma {:induction false} ListsExtend(d: Dag, e: Dag, p: StatePath, x: Object, y: Object, n: nat)
    requires Readable(d) && Acyclic(e.store) && Extends(d, e) && x.ListNode? && y.ListNode?
    requires Children(x) <= d.store.Keys && Children(y) <= d.store.Keys
    ensures DiffLists(e, p, x, y, n) == DiffLists(d, p, x, y, n)
    decreases Height(d.store, x), 1, n
  {
    if n > 0 {
      ListsExtend(d, e, p, x, y, n - 1);
      assert n - 1 < |x.items| ==> x.items[n - 1] in Children(x);
      assert n - 1 < |y.items| ==> y.items[n - 1] in Children(y);
      if n - 1 < |x.items| && n - 1 < |y.items| {
        ChildExtends(d, e, p + [Index(n - 1)], x, y, x.items[n - 1], y.items[n - 1]);
      }
    }
  }

  lemma SetsExtend(d: Dag, e: Dag, p: StatePath, x: Object, y: Object)
    requires Extends(d, e) && x.SetNode? && y.SetNode?
    requires Children(x) <= d.store.Keys && Children(y) <= d.store.Keys
    ensures DiffSets(e, p, x, y) == DiffSets(d, p, x, y)
  {
    var gone := SortedIds(Elements(x.members) - Elements(y.members));
    var came := SortedIds(Elements(y.members) - Elements(x.members));
    assert Elements(x.members) == Children(x) && Elements(y.members) == Children(y);
    MembersExtend(d, e, p, gone);
    MembersExtend(d, e, p, came);
  }

  lemma MembersExtend(d: Dag, e: Dag, p: StatePath, ids: seq<ObjectId>)
    requires Extends(d, e) && forall i :: i in ids ==> i in d.store
    ensures RemovedMembers(e, p, ids) == RemovedMembers(d, p, ids)
    ensures AddedMembers(e, p, ids) == AddedMembers(d, p, ids)
  {
    assert forall n :: 0 <= n < |ids| ==> ids[n] in ids;
  }

  /** A merge over a closed store reads the same from any larger one. */
  lemma MergeExtends(d: Dag, e: Dag, path: string, b: Object, o: Object, t: Object)
    requires Readable(d) && Acyclic(e.store) && Extends(d, e)
    requires Children(b) <= d.store.Keys && Children(o) <= d.store.Keys && Children(t) <= d.store.Keys
    ensures MergeObjects(e, path, b, o, t) == MergeObjects(d, path, b, o, t)
  {
    QueriesBelow(d, path, b, o, t);
    forall i | i in MergeObjects(d, path, b, o, t).queries ensures Resolve(d, i) == Resolve(e, i) {
      assert BelowAny(d, b, o, t, i);
      if Below(d, b, i) { BelowIsStored(d, b, i); }
      if Below(d, o, i) { BelowIsStored(d, o, i); }
      if Below(d, t, i) { BelowIsStored(d, t, i); }
    }
    MergeReadsOnly(d, e, path, b, o, t);
  }

  lemma ApartMeansClean(d: Dag, base: ObjectId, ours: ObjectId, theirs: ObjectId)
    requires Sound(d) && base in d.store && ours in d.store && theirs in d.store
    requires base != ours && base != theirs && ours != theirs
    requires CollisionFree(d, ThreeWay(d, base, ours, theirs).created)
    requires Apart(DiffRoots(d, base, ours), DiffRoots(d, base, theirs))
    ensures var b, o, t := d.store[base], d.store[ours], d.store[theirs];
      var r := MergeObjects(d, "/", b, o, t);
      var e := PutAll(d, r.created);
      && Sound(e) && Extends(d, e) && Stored(e, r.obj)
      && AddsUp(e, [], b, o, t, r)
      && (r.conflicts == [] <==> !ListsDisagree(ExpandId(d, base), ExpandId(d, ours), ExpandId(d, theirs)))
      && DiffObjects(e, [], b, o) == DiffRoots(d, base, ours)
      && DiffObjects(e, [], b, t) == DiffRoots(d, base, theirs)
  {
    var b, o, t := d.store[base], d.store[ours], d.store[theirs];
    var r := MergeObjects(d, "/", b, o, t);
    var e := PutAll(d, r.created);
    MergeReadBack(d, "/", b, o, t);
    DiffExtends(d, e, [], b, o);
    DiffExtends(d, e, [], b, t);
    ExpandExtends(d, e, b);
    ExpandExtends(d, e, o);
    ExpandExtends(d, e, t);
    MergeExtends(d, e, "/", b, o, t);
    DiffsAddUp(e, [], "/", b, o, t);
  }

  /**
   If no change of ours is at, above or below a change of theirs, the merge has conflicts
   exactly when both changed one list, at different positions; and without conflicts its diff
   from the base is the two diffs together, as the code emits them.
   */
  lemma MergeComposesDiffs(d: Dag, base: ObjectId, ours: ObjectId, theirs: ObjectId)
    requires Sound(d) && base in d.store && ours in d.store && theirs in d.store
    requires CollisionFree(d, ThreeWay(d, base, ours, theirs).created)
    requires Apart(DiffRoots(d, base, ours), DiffRoots(d, base, theirs))
    ensures var r := ThreeWay(d, base, ours, theirs);
      var e := PutAll(d, r.created);
      && (r.result.Conflicts? <==> ListsDisagree(ExpandId(d, base), ExpandId(d, ours), ExpandId(d, theirs)))
      && Acyclic(e.store)
      && (!r.result.Conflicts? ==>
            multiset(SummariseAll(DiffRoots(e, base, RootId(d, r.result)))) ==
            multiset(SummariseAll(DiffRoots(d, base, ours))) + multiset(SummariseAll(DiffRoots(d, base, theirs))))
  {
    var r := ThreeWay(d, base, ours, theirs);
    var e := PutAll(d, r.created);
    FullDiffsCompose(d, base, ours, theirs);
    if !r.result.Conflicts? {
      SummariesAddUp(DiffRoots(e, base, RootId(d, r.result)), DiffRoots(d, base, ours), DiffRoots(d, base, theirs));
    }
  }

  lemma SummariesAddUp(z: seq<FullOp>, x: seq<FullOp>, y: seq<FullOp>)
    requires multiset(z) == multiset(x) + multiset(y)
    ensures multiset(SummariseAll(z)) == multiset(SummariseAll(x)) + multiset(SummariseAll(y))
  {
    MapPermuted(Summarise, z, x + y);
    assert SummariseAll(x + y) == SummariseAll(x) + SummariseAll(y);
  }

  lemma FullDiffsCompose(d: Dag, base: ObjectId, ours: ObjectId, theirs: ObjectId)
    requires Sound(d) && base in d.store && ours in d.store && theirs in d.store
    requires CollisionFree(d, ThreeWay(d, base, ours, theirs).created)
    requires Apart(DiffRoots(d, base, ours), DiffRoots(d, base, theirs))
    ensures var r := ThreeWay(d, base, ours, theirs);
      var e := PutAll(d, r.created);
      && (r.result.Conflicts? <==> ListsDisagree(ExpandId(d, base), ExpandId(d, ours), ExpandId(d, theirs)))
      && Acyclic(e.store)
      && (!r.result.Conflicts? ==>
            multiset(DiffRoots(e, base, RootId(d, r.result))) ==
            multiset(DiffRoots(d, base, ours)) + multiset(DiffRoots(d, base, theirs)))
  {
    if base != ours && base != theirs && ours != theirs {
      ApartMeansClean(d, base, ours, theirs);
      var r := MergeObjects(d, "/", d.store[base], d.store[ours], d.store[theirs]);
      RootDiff(PutAll(d, r.created), base, r.obj);
    } else {
      assert PutAll(d, []) == d;
      if ours == theirs { ApartSelf(DiffRoots(d, base, ours)); }
    }
  }

  lemma RootDiff(e: Dag, base: ObjectId, r: Object)
    requires Sound(e) && base in e.store && Stored(e, r)
    ensures DiffRoots(e, base, e.idOf(r)) == DiffObjects(e, [], e.store[base], r)
  {
  }
}

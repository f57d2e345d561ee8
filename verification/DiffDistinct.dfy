/**
 Each change is listed once: no op of the full stream is repeated, and no two touch the same
 place unless both concern members of one set. Only those can be emitted alike.
 */
module DiffDistinct {
  import opened Order
  import opened Decimal
  import opened Objects
  import opened Dags
  import opened Trees
  import opened Paths
  import opened Diff
  import opened DiffPatch
  import opened DiffMerge

  // ----- one op a place

  predicate IsSetOp(op: FullOp) {
    op.AddToSet? || op.RemoveFromSet?
  }

  ghost predicate Separate(a: FullOp, b: FullOp) {
    Location(a) != Location(b) || (IsSetOp(a) && IsSetOp(b) && a != b)
  }

  ghost predicate Separated(ops: seq<FullOp>) {
    forall i, j :: 0 <= i < j < |ops| ==> Separate(ops[i], ops[j])
  }

  lemma SeparatedConcat(a: seq<FullOp>, b: seq<FullOp>)
    requires Separated(a) && Separated(b) && forall x, y :: x in a && y in b ==> Separate(x, y)
    ensures Separated(a + b)
  {
    var c := a + b;
    forall i, j | 0 <= i < j < |c| ensures Separate(c[i], c[j]) {
      if i < |a| <= j {
        assert a[i] in a && b[j - |a|] in b;
      }
    }
  }

  /** The component below `p` that an op is about. */
  ghost predicate About(op: FullOp, p: StatePath, c: PathComponent) {
    p + [c] <= Location(op)
  }

  lemma AboutDifferent(x: FullOp, y: FullOp, p: StatePath, a: PathComponent, b: PathComponent)
    requires About(x, p, a) && About(y, p, b) && a != b
    ensures Separate(x, y)
  {
    assert (p + [a])[|p|] == a && (p + [b])[|p|] == b;
  }

  lemma {:induction false} ObjectOpsSeparated(d: Dag, p: StatePath, x: Object, y: Object)
    requires Sound(d) && Supported(d, x) && Supported(d, y)
    ensures Separated(DiffObjects(d, p, x, y))
    decreases Height(d.store, x), 2
  {
    if x != y && x.MapNode? && y.MapNode? {
      MapOpsSeparated(d, p, x, y);
    } else if x != y && x.ListNode? && y.ListNode? {
      ListOpsSeparated(d, p, x, y, Max(|x.items|, |y.items|));
    } else if x != y && x.SetNode? && y.SetNode? {
      SetOpsSeparated(d, p, x, y);
    }
  }

  lemma {:induction false} MapOpsSeparated(d: Dag, p: StatePath, x: Object, y: Object)
    requires Sound(d) && Supported(d, x) && Supported(d, y) && x.MapNode? && y.MapNode?
    ensures Separated(DiffMaps(d, p, x, y))
    decreases Height(d.store, x), 1, 1
  {
    var xk, yk := x.entries.Keys, y.entries.Keys;
    var a, b, c := SortedKeys(xk - yk), SortedKeys(yk - xk), SortedKeys(xk * yk);
    SortedKeysAscend(xk - yk);
    SortedKeysAscend(yk - xk);
    SortedKeysAscend(xk * yk);
    DistinctConcat(a, b);
    DistinctConcat(a + b, c);
    KeysConcat(d, p, x, y, a, b);
    KeysConcat(d, p, x, y, a + b, c);
    KeyOpsSeparated(d, p, x, y, a + b + c);
  }

  lemma {:induction false} KeyOpsSeparated(d: Dag, p: StatePath, x: Object, y: Object, ks: seq<string>)
    requires Sound(d) && Supported(d, x) && Supported(d, y) && x.MapNode? && y.MapNode? && Distinct(ks)
    ensures Separated(KeysOps(d, p, x, y, ks))
    decreases Height(d.store, x), 1, 0, |ks|
  {
    if ks != [] {
      var n := |ks| - 1;
      var before, here := KeysOps(d, p, x, y, ks[..n]), KeyOps(d, p, x, y, ks[n]);
      KeyOpsSeparated(d, p, x, y, ks[..n]);
      OneKeySeparated(d, p, x, y, ks[n]);
      KeyLocations(d, p, x, y, ks[n]);
      forall v, w | v in before && w in here ensures Separate(v, w) {
        KeysMembers(d, p, x, y, ks[..n], v);
        var j :| j in ks[..n] && OpOfKey(d, p, x, y, j, v);
        KeyLocations(d, p, x, y, j);
        AboutDifferent(v, w, p, Key(j), Key(ks[n]));
      }
      SeparatedConcat(before, here);
    }
  }

  lemma {:induction false} OneKeySeparated(d: Dag, p: StatePath, x: Object, y: Object, k: string)
    requires Sound(d) && Supported(d, x) && Supported(d, y) && x.MapNode? && y.MapNode?
    ensures Separated(KeyOps(d, p, x, y, k))
    decreases Height(d.store, x), 0
  {
    if k in x.entries && k in y.entries {
      assert x.entries[k] in Children(x) && y.entries[k] in Children(y);
      StoredChild(d, x, x.entries[k]);
      StoredChild(d, y, y.entries[k]);
      ObjectOpsSeparated(d, p + [Key(k)], d.store[x.entries[k]], d.store[y.entries[k]]);
      KeyChild(d, p, x, y, k);
    }
  }

  lemma IndexLocations(d: Dag, p: StatePath, x: Object, y: Object, n: nat)
    requires Acyclic(d.store) && x.ListNode? && y.ListNode?
    ensures forall op :: op in IndexOps(d, p, x, y, n) ==> About(op, p, Index(n))
  {
    IndexUnder(d, p, x, y, n);
  }

  ghost predicate AboutBefore(op: FullOp, p: StatePath, n: nat) {
    exists i: nat :: i < n && About(op, p, Index(i))
  }

  lemma {:induction false} ListLocations(d: Dag, p: StatePath, x: Object, y: Object, n: nat)
    requires Acyclic(d.store) && x.ListNode? && y.ListNode?
    ensures forall op :: op in DiffLists(d, p, x, y, n) ==> AboutBefore(op, p, n)
    decreases n
  {
    if n > 0 {
      ListLocations(d, p, x, y, n - 1);
      IndexLocations(d, p, x, y, n - 1);
      forall op | op in DiffLists(d, p, x, y, n) ensures AboutBefore(op, p, n) {
        if op in DiffLists(d, p, x, y, n - 1) {
          var i: nat :| i < n - 1 && About(op, p, Index(i));
        } else {
          assert About(op, p, Index(n - 1));
        }
      }
    }
  }

  lemma {:induction false} ListOpsSeparated(d: Dag, p: StatePath, x: Object, y: Object, n: nat)
    requires Sound(d) && Supported(d, x) && Supported(d, y) && x.ListNode? && y.ListNode?
    ensures Separated(DiffLists(d, p, x, y, n))
    decreases Height(d.store, x), 1, n
  {
    if n > 0 {
      var before, here := DiffLists(d, p, x, y, n - 1), IndexOps(d, p, x, y, n - 1);
      ListOpsSeparated(d, p, x, y, n - 1);
      OneIndexSeparated(d, p, x, y, n - 1);
      ListLocations(d, p, x, y, n - 1);
      IndexLocations(d, p, x, y, n - 1);
      forall v, w | v in before && w in here ensures Separate(v, w) {
        var i: nat :| i < n - 1 && About(v, p, Index(i));
        AboutDifferent(v, w, p, Index(i), Index(n - 1));
      }
      SeparatedConcat(before, here);
    }
  }

  lemma {:induction false} OneIndexSeparated(d: Dag, p: StatePath, x: Object, y: Object, n: nat)
    requires Sound(d) && Supported(d, x) && Supported(d, y) && x.ListNode? && y.ListNode?
    ensures Separated(IndexOps(d, p, x, y, n))
    decreases Height(d.store, x), 0
  {
    if n < |x.items| && n < |y.items| {
      assert x.items[n] in Children(x) && y.items[n] in Children(y);
      StoredChild(d, x, x.items[n]);
      StoredChild(d, y, y.items[n]);
      ObjectOpsSeparated(d, p + [Index(n)], d.store[x.items[n]], d.store[y.items[n]]);
      SharedIndex(d, p, x, y, n);
    }
  }

  lemma ResolvedApart(d: Dag, ids: seq<ObjectId>)
    requires Addressed(d) && Distinct(ids) && forall i :: i in ids ==> i in d.store
    ensures forall i, j :: 0 <= i < j < |ids| ==> Resolve(d, ids[i]) != Resolve(d, ids[j])
  {
    forall i, j | 0 <= i < j < |ids| ensures Resolve(d, ids[i]) != Resolve(d, ids[j]) {
      assert ids[i] in ids && ids[j] in ids;
      assert d.idOf(d.store[ids[i]]) == ids[i] && d.idOf(d.store[ids[j]]) == ids[j];
    }
  }

  lemma SetOpsSeparated(d: Dag, p: StatePath, x: Object, y: Object)
    requires Sound(d) && Supported(d, x) && Supported(d, y) && x.SetNode? && y.SetNode?
    ensures Separated(DiffSets(d, p, x, y))
  {
    var xs, ys := Elements(x.members), Elements(y.members);
    var gone, came := SortedIds(xs - ys), SortedIds(ys - xs);
    SortedIdsAscend(xs - ys);
    SortedIdsAscend(ys - xs);
    assert xs == Children(x) && ys == Children(y);
    ResolvedApart(d, gone);
    ResolvedApart(d, came);
    SeparatedConcat(RemovedMembers(d, p, gone), AddedMembers(d, p, came));
  }

  /** The full stream lists each change once, and each place once but for members of a set. */
  lemma DiffHasNoRepeats(d: Dag, before: ObjectId, after: ObjectId)
    requires Sound(d) && before in d.store && after in d.store
    ensures Separated(DiffRoots(d, before, after)) && Distinct(DiffRoots(d, before, after))
  {
    assert Supported(d, d.store[before]) && Supported(d, d.store[after]);
    ObjectOpsSeparated(d, [], d.store[before], d.store[after]);
  }

  // ----- paths that print differently

  /** A key that cannot be taken for several, for none, or for an index. */
  predicate Nameable(k: string) {
    k != "" && '/' !in k && !AllDigits(k)
  }

  predicate NamedPath(p: StatePath) {
    forall i :: 0 <= i < |p| ==> p[i].Key? ==> Nameable(p[i].key)
  }

  lemma NamedSegments(p: StatePath)
    requires NamedPath(p)
    ensures forall i :: 0 <= i < |p| ==> Segment(p[i]) != "" && '/' !in Segment(p[i])
  {
    forall i | 0 <= i < |p| ensures Segment(p[i]) != "" && '/' !in Segment(p[i]) {
      if p[i].Index? { DigitsHaveNoSlash(p[i].index); }
    }
  }

  lemma NamedPrint(p: StatePath)
    requires NamedPath(p) && p != []
    ensures |Print(p)| > 1 && Split(Print(p)[1..]) == Segments(p)
  {
    NamedSegments(p);
    SplitComponents(p);
    assert Segment(p[|p| - 1]) != "";
  }

  lemma SegmentInjective(a: PathComponent, b: PathComponent)
    requires Segment(a) == Segment(b) && (a.Key? ==> Nameable(a.key)) && (b.Key? ==> Nameable(b.key))
    ensures a == b
  {
    if a.Index? && b.Index? { DecInjective(a.index, b.index); }
  }

  lemma PrintInjective(p: StatePath, q: StatePath)
    requires NamedPath(p) && NamedPath(q) && Print(p) == Print(q)
    ensures p == q
  {
    if p != [] { NamedPrint(p); }
    if q != [] { NamedPrint(q); }
    if p != [] && q != [] {
      var s, t := Segments(p), Segments(q);
      assert |p| == |s| == |t| == |q|;
      forall i | 0 <= i < |p| ensures p[i] == q[i] {
        assert s[i] == t[i];
        SegmentInjective(p[i], q[i]);
      }
    }
  }

  // ----- the paths of a diff

  /** Every map key a path can meet, through maps and lists, is nameable. */
  ghost predicate KeysNameable(t: Tree) {
    match t
    case Leaf(_) => true
    case TMap(m) => forall k :: k in m ==> Nameable(k) && KeysNameable(m[k])
    case TList(l) => forall i :: 0 <= i < |l| ==> KeysNameable(l[i])
    case TSet(_) => true
  }

  ghost predicate AllNamed(ops: seq<FullOp>) {
    forall op :: op in ops ==> NamedPath(op.path)
  }

  lemma {:induction false} DiffPathsNamed(d: Dag, p: StatePath, x: Object, y: Object)
    requires Sound(d) && Supported(d, x) && Supported(d, y) && NamedPath(p) && KeysNameable(Expand(d, x))
    ensures AllNamed(DiffObjects(d, p, x, y))
    decreases Height(d.store, x), 2
  {
    if x != y && x.MapNode? && y.MapNode? {
      forall op | op in DiffMaps(d, p, x, y) ensures NamedPath(op.path) {
        MapMembers(d, p, x, y, op);
        var k :| OpOfKey(d, p, x, y, k, op);
        KeyPathsNamed(d, p, x, y, k);
      }
    } else if x != y && x.ListNode? && y.ListNode? {
      ListPathsNamed(d, p, x, y, Max(|x.items|, |y.items|));
    }
  }

  lemma {:induction false} KeyPathsNamed(d: Dag, p: StatePath, x: Object, y: Object, k: string)
    requires Sound(d) && Supported(d, x) && Supported(d, y) && x.MapNode? && y.MapNode?
    requires NamedPath(p) && KeysNameable(Expand(d, x))
    ensures AllNamed(KeyOps(d, p, x, y, k))
    decreases Height(d.store, x), 0
  {
    if k in x.entries && k in y.entries {
      assert x.entries[k] in Children(x) && y.entries[k] in Children(y);
      StoredChild(d, x, x.entries[k]);
      StoredChild(d, y, y.entries[k]);
      NameableEntry(d, x, k);
      NamedLonger(p, Key(k));
      DiffPathsNamed(d, p + [Key(k)], d.store[x.entries[k]], d.store[y.entries[k]]);
      KeyChild(d, p, x, y, k);
    }
  }

  lemma NameableEntry(d: Dag, x: Object, k: string)
    requires Readable(d) && Children(x) <= d.store.Keys && x.MapNode? && k in x.entries && KeysNameable(Expand(d, x))
    ensures x.entries[k] in d.store && Nameable(k) && KeysNameable(ExpandId(d, x.entries[k]))
  {
    assert x.entries[k] in Children(x);
    assert Expand(d, x).entries[k] == ExpandId(d, x.entries[k]);
  }

  lemma NameableItem(d: Dag, x: Object, n: nat)
    requires Readable(d) && Children(x) <= d.store.Keys && x.ListNode? && n < |x.items| && KeysNameable(Expand(d, x))
    ensures x.items[n] in d.store && KeysNameable(ExpandId(d, x.items[n]))
  {
    assert x.items[n] in Children(x);
    assert Expand(d, x).items[n] == ExpandId(d, x.items[n]);
  }

  lemma NamedLonger(p: StatePath, c: PathComponent)
    requires NamedPath(p) && (c.Key? ==> Nameable(c.key))
    ensures NamedPath(p + [c])
  {
  }

  /** The ops of a position both lists have are those of its two objects. */
  lemma SharedIndex(d: Dag, p: StatePath, x: Object, y: Object, n: nat)
    requires Acyclic(d.store) && x.ListNode? && y.ListNode? && n < |x.items| && n < |y.items|
    requires x.items[n] in d.store && y.items[n] in d.store
    ensures IndexOps(d, p, x, y, n) == DiffObjects(d, p + [Index(n)], d.store[x.items[n]], d.store[y.items[n]])
  {
  }

  lemma {:induction false} ListPathsNamed(d: Dag, p: StatePath, x: Object, y: Object, n: nat)
    requires Sound(d) && Supported(d, x) && Supported(d, y) && x.ListNode? && y.ListNode?
    requires NamedPath(p) && KeysNameable(Expand(d, x))
    ensures AllNamed(DiffLists(d, p, x, y, n))
    decreases Height(d.store, x), 1, n
  {
    if n > 0 {
      ListPathsNamed(d, p, x, y, n - 1);
      IndexPathsNamed(d, p, x, y, n - 1);
    }
  }

  lemma {:induction false} IndexPathsNamed(d: Dag, p: StatePath, x: Object, y: Object, n: nat)
    requires Sound(d) && Supported(d, x) && Supported(d, y) && x.ListNode? && y.ListNode?
    requires NamedPath(p) && KeysNameable(Expand(d, x))
    ensures AllNamed(IndexOps(d, p, x, y, n))
    decreases Height(d.store, x), 0
  {
    if n < |x.items| && n < |y.items| {
      assert x.items[n] in Children(x) && y.items[n] in Children(y);
      StoredChild(d, x, x.items[n]);
      StoredChild(d, y, y.items[n]);
      NameableItem(d, x, n);
      NamedLonger(p, Index(n));
      DiffPathsNamed(d, p + [Index(n)], d.store[x.items[n]], d.store[y.items[n]]);
      SharedIndex(d, p, x, y, n);
    }
  }

  // ----- when the emitted ops repeat

  /** Two members a set gained, or two it lost, that print alike. */
  predicate PrintAlike(a: FullOp, b: FullOp) {
    && a.path == b.path
    && ((a.AddToSet? && b.AddToSet?) || (a.RemoveFromSet? && b.RemoveFromSet?))
    && ValueOf(a.value) == ValueOf(b.value)
  }

  lemma EmittedAlike(a: FullOp, b: FullOp)
    requires Separate(a, b) && NamedPath(a.path) && NamedPath(b.path)
    ensures Summarise(a) == Summarise(b) <==> PrintAlike(a, b)
  {
    if Summarise(a) == Summarise(b) {
      assert Print(a.path) == Print(b.path);
      PrintInjective(a.path, b.path);
    }
  }

  /** With nameable keys an emitted op repeats exactly when two ops of the full stream print alike. */
  lemma EmittedTwice(d: Dag, before: ObjectId, after: ObjectId)
    requires Sound(d) && before in d.store && after in d.store && KeysNameable(ExpandId(d, before))
    ensures var ops := DiffRoots(d, before, after);
      Distinct(SummariseAll(ops)) <==> forall i, j :: 0 <= i < j < |ops| ==> !PrintAlike(ops[i], ops[j])
  {
    var ops := DiffRoots(d, before, after);
    var emitted := SummariseAll(ops);
    DiffHasNoRepeats(d, before, after);
    assert Supported(d, d.store[before]) && Supported(d, d.store[after]);
    DiffPathsNamed(d, [], d.store[before], d.store[after]);
    forall i, j | 0 <= i < j < |ops| ensures emitted[i] == emitted[j] <==> PrintAlike(ops[i], ops[j]) {
      assert ops[i] in ops && ops[j] in ops;
      EmittedAlike(ops[i], ops[j]);
    }
  }
}

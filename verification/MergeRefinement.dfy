/** The id-based merge computes the merge of the trees the ids stand for. */
module MergeRefinement {
  import opened Order
  import opened Decimal
  import opened Objects
  import opened Dags
  import opened Trees
  import opened TreeMerge
  import opened Merge
  import opened MergeCreated

  // ----- reading a tree clash as a reported conflict

  /** The path string built on the way down from `path` along `place`. */
  function RenderPlace(path: string, place: seq<string>): string
    decreases |place|
  {
    if place == [] then path else RenderPlace(ChildPath(path, place[0]), place[1..])
  }

  /** What a conflict shows of a tree: an atom itself, but for bytes, and the size of anything else. */
  function SummaryOf(t: Tree): ConflictValue {
    match t
    case Leaf(Null) => CNull
    case Leaf(Bool(b)) => CBool(b)
    case Leaf(Int(i)) => CInt(i)
    case Leaf(UInt(u)) => CUInt(u)
    case Leaf(Float(f)) => CFloat(f)
    case Leaf(Str(s)) => CString(s)
    case Leaf(Bytes(_)) => CString("[bytes]")
    case TMap(m) => CComplex("{map: " + Dec(|m|) + " keys}")
    case TList(l) => CComplex("[list: " + Dec(|l|) + " items]")
    case TSet(s) => CComplex("{set: " + Dec(|s|) + " items}")
  }

  function OptionalSummary(t: Option<Tree>): Option<ConflictValue> {
    if t.Some? then Some(SummaryOf(t.value)) else None
  }

  function Report(path: string, c: Clash): Conflict {
    Conflict(RenderPlace(path, c.place), OptionalSummary(c.ours), OptionalSummary(c.theirs), OptionalSummary(c.base))
  }

  function ReportAll(path: string, cs: seq<Clash>): (r: seq<Conflict>)
    ensures |r| == |cs| && forall i :: 0 <= i < |cs| ==> r[i] == Report(path, cs[i])
  {
    seq(|cs|, i requires 0 <= i < |cs| => Report(path, cs[i]))
  }

  lemma ReportNested(path: string, k: string, cs: seq<Clash>)
    ensures ReportAll(path, Nest(k, cs)) == ReportAll(ChildPath(path, k), cs)
  {
    forall i | 0 <= i < |cs| ensures Report(path, Nest(k, cs)[i]) == Report(ChildPath(path, k), cs[i]) {
      var p := cs[i].place;
      assert ([k] + p)[0] == k && ([k] + p)[1..] == p;
    }
  }

  lemma SummaryOfExpanded(d: Dag, o: Object)
    requires Sound(d) && Supported(d, o)
    ensures SummaryOf(Expand(d, o)) == FromObject(o)
  {
    match o
    case AtomObject(_) =>
    case MapNode(m) => assert Expand(d, o).entries.Keys == m.Keys;
    case ListNode(_) =>
    case SetNode(_) => SetSize(d, o);
  }

  // ----- one key

  /** A merged key's id names the value the tree merge puts there. */
  ghost predicate EntryMatches(e: Dag, entry: Option<ObjectId>, value: Option<Tree>)
    requires Readable(e)
  {
    if entry.None? then value.None?
    else entry.value in e.store && value == Some(ExpandId(e, entry.value))
  }

  ghost predicate KeyMatches(e: Dag, at: string, x: KeyOutcome, m: Merged)
    requires Readable(e)
  {
    EntryMatches(e, x.entry, m.value) && x.conflicts == ReportAll(at, m.clashes)
  }

  ghost function ChildTree(e: Dag, id: Option<ObjectId>): Option<Tree>
    requires Readable(e) && (id.Some? ==> id.value in e.store)
  {
    if id.Some? then Some(ExpandId(e, id.value)) else None
  }

  lemma ChildTreesDiffer(e: Dag, i: Option<ObjectId>, j: Option<ObjectId>)
    requires Sound(e) && (i.Some? ==> i.value in e.store) && (j.Some? ==> j.value in e.store)
    ensures i == j <==> ChildTree(e, i) == ChildTree(e, j)
  {
    if i.Some? && j.Some? { IdsStandForTrees(e, i.value, j.value); }
  }

  lemma ChildAt(e: Dag, o: Object, k: string)
    requires Readable(e) && Children(o) <= e.store.Keys && o.MapNode?
    ensures Lookup(o.entries, k).Some? ==> Lookup(o.entries, k).value in e.store
    ensures Get(Expand(e, o).entries, k) == ChildTree(e, Lookup(o.entries, k))
  {
    assert k in o.entries ==> o.entries[k] in Children(o);
  }

  // ----- the refinement

  ghost predicate Given(d: Dag, e: Dag, b: Object, o: Object, t: Object) {
    Sound(d) && Sound(e) && Extends(d, e) && Supported(d, b) && Supported(d, o) && Supported(d, t)
  }

  ghost predicate Matches(e: Dag, path: string, r: Outcome, m: Merged)
    requires Readable(e)
  {
    && Children(r.obj) <= e.store.Keys
    && m.value == Some(Expand(e, r.obj))
    && r.conflicts == ReportAll(path, m.clashes)
  }

  ghost function TreeOf(e: Dag, o: Object): Option<Tree>
    requires Readable(e) && Children(o) <= e.store.Keys
  {
    Some(Expand(e, o))
  }

  lemma {:induction false} MergeMatches(d: Dag, e: Dag, path: string, b: Object, o: Object, t: Object)
    requires Given(d, e, b, o, t) && Persisted(d, e, MergeObjects(d, path, b, o, t).created)
    ensures Matches(e, path, MergeObjects(d, path, b, o, t), MergeSlot(TreeOf(e, b), TreeOf(e, o), TreeOf(e, t)))
    decreases Height(d.store, o), 2, 0
  {
    if o == t || b == o || b == t {
      AgreedObjectsMatch(d, e, path, b, o, t);
    } else {
      TreesDiffer(e, b, o, t);
      if b.MapNode? && o.MapNode? && t.MapNode? {
        MapsMatch(d, e, path, b, o, t);
      } else if b.SetNode? && o.SetNode? && t.SetNode? {
        SetsOutcome(d, path, b, o, t);
        SetsMatch(e, b, o, t);
      } else {
        ClashOutcome(d, path, b, o, t);
        ClashMatches(e, path, b, o, t);
      }
    }
  }

  lemma AgreedObjectsMatch(d: Dag, e: Dag, path: string, b: Object, o: Object, t: Object)
    requires Given(d, e, b, o, t) && (o == t || b == o || b == t)
    ensures Matches(e, path, MergeObjects(d, path, b, o, t), MergeSlot(TreeOf(e, b), TreeOf(e, o), TreeOf(e, t)))
  {
    ObjectsStandForTrees(e, o, t);
    ObjectsStandForTrees(e, b, t);
    AgreedOutcome(d, path, b, o, t);
    SlotOfAgreed(TreeOf(e, b), TreeOf(e, o), TreeOf(e, t));
  }

  lemma TreesDiffer(e: Dag, b: Object, o: Object, t: Object)
    requires Sound(e) && Supported(e, b) && Supported(e, o) && Supported(e, t) && o != t && b != o && b != t
    ensures AllDiffer(e, b, o, t)
  {
    ObjectsStandForTrees(e, o, t);
    ObjectsStandForTrees(e, b, o);
    ObjectsStandForTrees(e, b, t);
  }

  ghost predicate AllDiffer(e: Dag, b: Object, o: Object, t: Object)
    requires Readable(e) && Children(b) <= e.store.Keys && Children(o) <= e.store.Keys && Children(t) <= e.store.Keys
  {
    TreeOf(e, o) != TreeOf(e, t) && TreeOf(e, b) != TreeOf(e, o) && TreeOf(e, b) != TreeOf(e, t)
  }

  lemma ClashMatches(e: Dag, path: string, b: Object, o: Object, t: Object)
    requires Sound(e) && Supported(e, b) && Supported(e, o) && Supported(e, t) && AllDiffer(e, b, o, t)
    requires !(b.MapNode? && o.MapNode? && t.MapNode?) && !(b.SetNode? && o.SetNode? && t.SetNode?)
    ensures var m := MergeSlot(TreeOf(e, b), TreeOf(e, o), TreeOf(e, t));
      && m.value == TreeOf(e, o)
      && ReportAll(path, m.clashes) == [Conflict(path, Some(FromObject(o)), Some(FromObject(t)), Some(FromObject(b)))]
  {
    SummaryOfExpanded(e, b);
    SummaryOfExpanded(e, o);
    SummaryOfExpanded(e, t);
    SlotOfClash(TreeOf(e, b), TreeOf(e, o), TreeOf(e, t));
  }

  lemma SetsMatch(e: Dag, b: Object, o: Object, t: Object)
    requires Sound(e) && Supported(e, b) && Supported(e, o) && Supported(e, t)
    requires b.SetNode? && o.SetNode? && t.SetNode?
    requires AllDiffer(e, b, o, t)
    ensures var u := MergedSet(o.members, t.members);
      && Children(u) <= e.store.Keys
      && MergeSlot(TreeOf(e, b), TreeOf(e, o), TreeOf(e, t)) == Merged(TreeOf(e, u), [])
  {
    var u := MergedSet(o.members, t.members);
    MergedSetChildren(o, t);
    UnionExpands(e, u, o, t);
    assert MergeSlot(TreeOf(e, b), TreeOf(e, o), TreeOf(e, t)) ==
      Merged(Some(TSet(Expand(e, o).members + Expand(e, t).members)), []);
  }

  lemma UnionExpands(e: Dag, u: Object, o: Object, t: Object)
    requires Readable(e) && Children(o) <= e.store.Keys && Children(t) <= e.store.Keys
    requires u.SetNode? && o.SetNode? && t.SetNode? && Children(u) == Children(o) + Children(t)
    ensures Expand(e, u) == TSet(Expand(e, o).members + Expand(e, t).members)
  {
    forall x ensures x in Expand(e, u).members <==> x in Expand(e, o).members + Expand(e, t).members {
      MemberOf(e, u, x);
      MemberOf(e, o, x);
      MemberOf(e, t, x);
    }
  }

  lemma MergedSetChildren(o: Object, t: Object)
    requires o.SetNode? && t.SetNode?
    ensures Children(MergedSet(o.members, t.members)) == Children(o) + Children(t)
  {
  }

  lemma {:induction false} MapsMatch(d: Dag, e: Dag, path: string, b: Object, o: Object, t: Object)
    requires Given(d, e, b, o, t) && b.MapNode? && o.MapNode? && t.MapNode? && o != t && b != o && b != t
    requires Persisted(d, e, MergeObjects(d, path, b, o, t).created)
    requires AllDiffer(e, b, o, t)
    ensures Matches(e, path, MergeObjects(d, path, b, o, t), MergeSlot(TreeOf(e, b), TreeOf(e, o), TreeOf(e, t)))
    decreases Height(d.store, o), 1, 2
  {
    MapsOutcome(d, path, b, o, t);
    KeysMatch(d, e, path, b, o, t);
    ExpandedMap(e, b);
    ExpandedMap(e, o);
    ExpandedMap(e, t);
    SlotOfMaps(TreeOf(e, b), TreeOf(e, o), TreeOf(e, t));
    AssembleMaps(d, e, path, b, o, t, Expand(e, b).entries, Expand(e, o), Expand(e, t).entries);
  }

  lemma {:induction false} KeysMatch(d: Dag, e: Dag, path: string, b: Object, o: Object, t: Object)
    requires Given(d, e, b, o, t) && b.MapNode? && o.MapNode? && t.MapNode?
    requires Persisted(d, e, MergeKeys(d, path, b, o, t, SortedKeys(AllKeys(b, o, t))).created)
    ensures forall k :: k in AllKeys(b, o, t) ==>
      KeyMatches(e, ChildPath(path, k), MergeKey(d, path, b, o, t, k),
        MergeAt(Expand(e, b).entries, Expand(e, o), Expand(e, t).entries, k))
    decreases Height(d.store, o), 1, 1
  {
    forall k | k in AllKeys(b, o, t)
      ensures KeyMatches(e, ChildPath(path, k), MergeKey(d, path, b, o, t, k),
                MergeAt(Expand(e, b).entries, Expand(e, o), Expand(e, t).entries, k))
    {
      KeyPersisted(d, e, path, b, o, t, k);
      OneKeyMatches(d, e, path, b, o, t, k);
    }
  }

  lemma KeyPersisted(d: Dag, e: Dag, path: string, b: Object, o: Object, t: Object, k: string)
    requires Acyclic(d.store) && b.MapNode? && o.MapNode? && t.MapNode? && k in AllKeys(b, o, t)
    requires Persisted(d, e, MergeKeys(d, path, b, o, t, SortedKeys(AllKeys(b, o, t))).created)
    ensures Persisted(d, e, MergeKey(d, path, b, o, t, k).created)
  {
    KeysCreated(d, path, b, o, t, SortedKeys(AllKeys(b, o, t)));
  }

  /** Once every key matches, the maps do. */
  lemma AssembleMaps(d: Dag, e: Dag, path: string, b: Object, o: Object, t: Object,
                     bm: map<string, Tree>, ot: Tree, tm: map<string, Tree>)
    requires Acyclic(d.store) && Readable(e) && b.MapNode? && o.MapNode? && t.MapNode? && ot.TMap?
    requires AllKeys(b, o, t) == bm.Keys + ot.entries.Keys + tm.Keys
    requires forall k :: k in AllKeys(b, o, t) ==>
      KeyMatches(e, ChildPath(path, k), MergeKey(d, path, b, o, t, k), MergeAt(bm, ot, tm, k))
    ensures var q := MergeKeys(d, path, b, o, t, SortedKeys(AllKeys(b, o, t)));
      var m := MergeEntries(bm, ot, tm);
      && Children(MapNode(q.entries)) <= e.store.Keys
      && m.value == Some(Expand(e, MapNode(q.entries)))
      && q.conflicts == ReportAll(path, m.clashes)
  {
    var keys := AllKeys(b, o, t);
    var ks := SortedKeys(keys);
    SortedKeysAscend(keys);
    KeysEntries(d, path, b, o, t, ks);
    KeysReport(d, e, path, b, o, t, bm, ot, tm, ks);
    MergedEntries(bm, ot, tm);
    EntriesMatch(e, MergeKeys(d, path, b, o, t, ks).entries, ks, MergeEntries(bm, ot, tm).value.value.entries);
  }

  lemma EntriesMatch(e: Dag, entries: map<string, ObjectId>, ks: seq<string>, trees: map<string, Tree>)
    requires Readable(e)
    requires entries.Keys <= (set k | k in ks) && trees.Keys <= (set k | k in ks)
    requires forall k :: k in ks ==> EntryMatches(e, Lookup(entries, k), Get(trees, k))
    ensures Children(MapNode(entries)) <= e.store.Keys
    ensures Expand(e, MapNode(entries)).entries == trees
  {
    forall k | k in entries ensures entries[k] in e.store && k in trees && trees[k] == ExpandId(e, entries[k]) {
      assert k in ks;
      assert EntryMatches(e, Lookup(entries, k), Get(trees, k));
    }
    forall k | k in trees ensures k in entries {
      assert k in ks;
      assert EntryMatches(e, Lookup(entries, k), Get(trees, k));
    }
  }

  lemma {:induction false} KeysReport(d: Dag, e: Dag, path: string, b: Object, o: Object, t: Object,
                                      bm: map<string, Tree>, ot: Tree, tm: map<string, Tree>, ks: seq<string>)
    requires Acyclic(d.store) && Readable(e) && b.MapNode? && o.MapNode? && t.MapNode? && ot.TMap?
    requires forall k :: k in ks ==>
      KeyMatches(e, ChildPath(path, k), MergeKey(d, path, b, o, t, k), MergeAt(bm, ot, tm, k))
    ensures MergeKeys(d, path, b, o, t, ks).conflicts == ReportAll(path, ClashesAt(bm, ot, tm, ks))
  {
    if ks != [] {
      var n := |ks| - 1;
      var nested := Nest(ks[n], MergeAt(bm, ot, tm, ks[n]).clashes);
      KeysReport(d, e, path, b, o, t, bm, ot, tm, ks[..n]);
      ReportNested(path, ks[n], MergeAt(bm, ot, tm, ks[n]).clashes);
      ReportConcat(path, ClashesAt(bm, ot, tm, ks[..n]), nested);
      assert KeyMatches(e, ChildPath(path, ks[n]), MergeKey(d, path, b, o, t, ks[n]), MergeAt(bm, ot, tm, ks[n]));
    }
  }

  lemma ReportConcat(path: string, xs: seq<Clash>, ys: seq<Clash>)
    ensures ReportAll(path, xs + ys) == ReportAll(path, xs) + ReportAll(path, ys)
  {
  }

  lemma {:induction false} OneKeyMatches(d: Dag, e: Dag, path: string, b: Object, o: Object, t: Object, k: string)
    requires Given(d, e, b, o, t) && b.MapNode? && o.MapNode? && t.MapNode?
    requires Persisted(d, e, MergeKey(d, path, b, o, t, k).created)
    ensures KeyMatches(e, ChildPath(path, k), MergeKey(d, path, b, o, t, k),
              MergeAt(Expand(e, b).entries, Expand(e, o), Expand(e, t).entries, k))
    decreases Height(d.store, o), 1, 0
  {
    SlotAt(e, b, o, t, k);
    var x, y, z := Lookup(b.entries, k), Lookup(o.entries, k), Lookup(t.entries, k);
    ChildTreesDiffer(e, x, y);
    ChildTreesDiffer(e, y, z);
    ChildTreesDiffer(e, x, z);
    if x == y || y == z || x == z {
      AgreedMatches(d, e, path, b, o, t, k, x, y, z);
    } else if y.Some? && z.Some? {
      KeyChanged(d, path, b, o, t, k);
      if x.Some? {
        ChildMatches(d, e, ChildPath(path, k), b, o, t, k);
      } else {
        AddedMatches(d, e, ChildPath(path, k), o, t, k);
      }
    } else {
      KeyDeleted(d, path, b, o, t, k);
      DeletedMatches(d, e, b, o, t, k);
      ClashReported(ChildPath(path, k), ChildTree(e, x), ChildTree(e, y), ChildTree(e, z));
    }
  }

  lemma ClashReported(at: string, b: Option<Tree>, o: Option<Tree>, t: Option<Tree>)
    requires o != t && b != o && b != t && !MergesAsMaps(b, o, t) && !MergesAsSets(b, o, t)
    ensures MergeSlot(b, o, t).value == o
    ensures ReportAll(at, MergeSlot(b, o, t).clashes) ==
      [Conflict(at, OptionalSummary(o), OptionalSummary(t), OptionalSummary(b))]
  {
    SlotOfClash(b, o, t);
  }

  lemma SlotAt(e: Dag, b: Object, o: Object, t: Object, k: string)
    requires Readable(e) && b.MapNode? && o.MapNode? && t.MapNode?
    requires Children(b) <= e.store.Keys && Children(o) <= e.store.Keys && Children(t) <= e.store.Keys
    ensures Lookup(b.entries, k).Some? ==> Lookup(b.entries, k).value in e.store
    ensures Lookup(o.entries, k).Some? ==> Lookup(o.entries, k).value in e.store
    ensures Lookup(t.entries, k).Some? ==> Lookup(t.entries, k).value in e.store
    ensures MergeAt(Expand(e, b).entries, Expand(e, o), Expand(e, t).entries, k) ==
      MergeSlot(
        ChildTree(e, Lookup(b.entries, k)), ChildTree(e, Lookup(o.entries, k)), ChildTree(e, Lookup(t.entries, k)))
  {
    ChildAt(e, b, k);
    ChildAt(e, o, k);
    ChildAt(e, t, k);
  }

  lemma AgreedMatches(d: Dag, e: Dag, path: string, b: Object, o: Object, t: Object, k: string,
                      x: Option<ObjectId>, y: Option<ObjectId>, z: Option<ObjectId>)
    requires Acyclic(d.store) && Readable(e) && b.MapNode? && o.MapNode? && t.MapNode?
    requires x == Lookup(b.entries, k) && y == Lookup(o.entries, k) && z == Lookup(t.entries, k)
    requires x.Some? ==> x.value in e.store
    requires y.Some? ==> y.value in e.store
    requires z.Some? ==> z.value in e.store
    requires x == y || y == z || x == z
    requires y == z <==> ChildTree(e, y) == ChildTree(e, z)
    requires x == y <==> ChildTree(e, x) == ChildTree(e, y)
    ensures KeyMatches(e, ChildPath(path, k), MergeKey(d, path, b, o, t, k),
              MergeSlot(ChildTree(e, x), ChildTree(e, y), ChildTree(e, z)))
  {
  }

  lemma DeletedMatches(d: Dag, e: Dag, b: Object, o: Object, t: Object, k: string)
    requires Given(d, e, b, o, t) && b.MapNode? && o.MapNode? && t.MapNode?
    requires k in b.entries
    ensures Summarised(d, b.entries[k]) == OptionalSummary(ChildTree(e, Lookup(b.entries, k)))
    ensures k in o.entries ==> Summarised(d, o.entries[k]) == OptionalSummary(ChildTree(e, Lookup(o.entries, k)))
    ensures k in t.entries ==> Summarised(d, t.entries[k]) == OptionalSummary(ChildTree(e, Lookup(t.entries, k)))
  {
    SummaryAt(d, e, b, k);
    if k in o.entries { SummaryAt(d, e, o, k); }
    if k in t.entries { SummaryAt(d, e, t, k); }
  }

  lemma SummaryAt(d: Dag, e: Dag, o: Object, k: string)
    requires Sound(d) && Sound(e) && Extends(d, e) && Supported(d, o) && o.MapNode? && k in o.entries
    ensures o.entries[k] in d.store && o.entries[k] in e.store
    ensures Summarised(d, o.entries[k]) == Some(SummaryOf(ExpandId(e, o.entries[k])))
  {
    assert o.entries[k] in Children(o);
    SummaryOfExpanded(e, e.store[o.entries[k]]);
  }

  lemma {:induction false} ChildMatches(d: Dag, e: Dag, at: string, b: Object, o: Object, t: Object, k: string)
    requires Given(d, e, b, o, t) && b.MapNode? && o.MapNode? && t.MapNode?
    requires k in b.entries && k in o.entries && k in t.entries
    requires Persisted(d, e, MergeChild(d, at, b, o, t, k).created)
    ensures b.entries[k] in e.store && o.entries[k] in e.store && t.entries[k] in e.store
    ensures KeyMatches(e, at, MergeChild(d, at, b, o, t, k),
              MergeSlot(Some(ExpandId(e, b.entries[k])), Some(ExpandId(e, o.entries[k])),
                        Some(ExpandId(e, t.entries[k]))))
    decreases Height(d.store, o), 0
  {
    StoredChild(d, b, b.entries[k]);
    StoredChild(d, o, o.entries[k]);
    StoredChild(d, t, t.entries[k]);
    var x, y, z := d.store[b.entries[k]], d.store[o.entries[k]], d.store[t.entries[k]];
    MergeMatches(d, e, at, x, y, z);
    MergedIsStored(d, e, at, x, y, z);
  }

  lemma MergedIsStored(d: Dag, e: Dag, at: string, x: Object, y: Object, z: Object)
    requires Given(d, e, x, y, z) && Stored(d, y) && Stored(d, z)
    requires Persisted(d, e, MergeObjects(d, at, x, y, z).created)
    ensures Stored(e, MergeObjects(d, at, x, y, z).obj)
  {
    MergeBacked(d, at, x, y, z);
    assert Stored(e, y) && Stored(e, z);
  }

  lemma {:induction false} AddedMatches(d: Dag, e: Dag, at: string, o: Object, t: Object, k: string)
    requires Given(d, e, EmptyMap(), o, t) && o.MapNode? && t.MapNode?
    requires k in o.entries && k in t.entries && o.entries[k] != t.entries[k]
    requires Persisted(d, e, MergeAdded(d, at, o, t, k).created)
    ensures o.entries[k] in e.store && t.entries[k] in e.store
    ensures KeyMatches(e, at, MergeAdded(d, at, o, t, k),
              MergeSlot(None, Some(ExpandId(e, o.entries[k])), Some(ExpandId(e, t.entries[k]))))
    decreases Height(d.store, o), 0
  {
    StoredChild(d, o, o.entries[k]);
    StoredChild(d, t, t.entries[k]);
    var y, z := d.store[o.entries[k]], d.store[t.entries[k]];
    IdsStandForTrees(e, o.entries[k], t.entries[k]);
    if y.MapNode? && z.MapNode? {
      MergeMatches(d, e, at, EmptyMap(), y, z);
      MergedIsStored(d, e, at, EmptyMap(), y, z);
      EmptyBaseMatches(e, y, z);
    } else {
      SummaryAt(d, e, o, k);
      SummaryAt(d, e, t, k);
      AddedClash(e, at, y, z);
    }
  }

  lemma AddedClash(e: Dag, at: string, y: Object, z: Object)
    requires Readable(e) && Children(y) <= e.store.Keys && Children(z) <= e.store.Keys
    requires Expand(e, y) != Expand(e, z) && !(y.MapNode? && z.MapNode?)
    ensures var m := MergeSlot(None, TreeOf(e, y), TreeOf(e, z));
      && m.value == TreeOf(e, y)
      && ReportAll(at, m.clashes) == [Conflict(at, Some(SummaryOf(Expand(e, y))), Some(SummaryOf(Expand(e, z))), None)]
  {
    SlotOfClash(None, TreeOf(e, y), TreeOf(e, z));
  }

  lemma EmptyBaseMatches(e: Dag, y: Object, z: Object)
    requires Sound(e) && Supported(e, y) && Supported(e, z) && y.MapNode? && z.MapNode?
    requires TreeOf(e, y) != TreeOf(e, z)
    ensures MergeSlot(None, TreeOf(e, y), TreeOf(e, z)) == MergeSlot(TreeOf(e, EmptyMap()), TreeOf(e, y), TreeOf(e, z))
  {
    assert Expand(e, EmptyMap()) == TMap(map[]);
    MapsAlwaysMerge(None, TreeOf(e, y), TreeOf(e, z));
    MapsAlwaysMerge(TreeOf(e, EmptyMap()), TreeOf(e, y), TreeOf(e, z));
  }

  // ----- the whole merge

  /** What the caller gets: the merged object, or for a fast-forward the one its id names. */
  ghost predicate Delivers(e: Dag, r: MergeResult, t: Tree)
    requires Readable(e)
  {
    match r
    case Success(o) => Children(o) <= e.store.Keys && Expand(e, o) == t
    case Conflicts(o, _) => Children(o) <= e.store.Keys && Expand(e, o) == t
    case FastForward(id) => id in e.store && ExpandId(e, id) == t
  }

  function Reported(r: MergeResult): seq<Conflict> {
    if r.Conflicts? then r.conflicts else []
  }

  ghost function TreesMerged(d: Dag, base: ObjectId, ours: ObjectId, theirs: ObjectId): Merged
    requires Readable(d) && base in d.store && ours in d.store && theirs in d.store
  {
    MergeSlot(Some(ExpandId(d, base)), Some(ExpandId(d, ours)), Some(ExpandId(d, theirs)))
  }

  /**
   The id-based merge, read back with its created objects written, is the merge of the
   three expanded trees, and it reports exactly that merge's clashes, in order.
   */
  lemma MergeRefinesTreeMerge(d: Dag, base: ObjectId, ours: ObjectId, theirs: ObjectId)
    requires Sound(d) && base in d.store && ours in d.store && theirs in d.store
    requires CollisionFree(d, ThreeWay(d, base, ours, theirs).created)
    ensures var r := ThreeWay(d, base, ours, theirs);
      var e := PutAll(d, r.created);
      var m := TreesMerged(d, base, ours, theirs);
      && Sound(e) && Extends(d, e)
      && m.value.Some? && Delivers(e, r.result, m.value.value)
      && Reported(r.result) == ReportAll("/", m.clashes)
  {
    var r := ThreeWay(d, base, ours, theirs);
    if base != ours && base != theirs && ours != theirs {
      var b, o, t := d.store[base], d.store[ours], d.store[theirs];
      MergeReadBack(d, "/", b, o, t);
      var e := PutAll(d, r.created);
      MergeMatches(d, e, "/", b, o, t);
      ExpandExtends(d, e, b);
      ExpandExtends(d, e, o);
      ExpandExtends(d, e, t);
    }
  }

  /** Conflicts are reported exactly for clashes, and success exactly for three different roots without. */
  lemma ConflictsAreClashes(d: Dag, base: ObjectId, ours: ObjectId, theirs: ObjectId)
    requires Sound(d) && base in d.store && ours in d.store && theirs in d.store
    requires CollisionFree(d, ThreeWay(d, base, ours, theirs).created)
    ensures ThreeWay(d, base, ours, theirs).result.Conflicts? <==> TreesMerged(d, base, ours, theirs).clashes != []
    ensures ThreeWay(d, base, ours, theirs).result.Success? <==>
      !SameRoots(base, ours, theirs) && TreesMerged(d, base, ours, theirs).clashes == []
  {
    MergeRefinesTreeMerge(d, base, ours, theirs);
    ResultKind(d, base, ours, theirs);
  }
}

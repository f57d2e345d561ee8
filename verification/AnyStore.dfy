/**
 The main results in any acyclic store, whatever it holds beside what the given roots reach:
 only that must be complete. The rest may be dangling, misplaced or broken.
 */
module AnyStore {
  import opened Order
  import opened Objects
  import opened Dags
  import opened Trees
  import opened TreeMerge
  import opened Merge
  import opened MergeCreated
  import opened MergeRefinement
  import opened MergeLaws
  import opened MergeResolve
  import opened MergeTheorems
  import opened Paths
  import opened Diff
  import opened DiffPatch
  import opened DiffMerge
  import opened DiffTruth
  import opened ReachableParts

  // ----- a sound store inside another

  /** Every object of `f` is one of the closed store `e` or one of `d`. */
  ghost predicate GrownFrom(d: Store, e: Store, f: Store) {
    && (forall i :: i in e ==> i in f && f[i] == e[i])
    && (forall i :: i in f && i !in e ==> i in d && f[i] == d[i])
  }

  lemma GrownIsAcyclic(d: Store, e: Store, f: Store)
    requires Acyclic(d) && Acyclic(e) && Closed(e) && GrownFrom(d, e, f)
    ensures Acyclic(f)
  {
    var low, high := RankOf(e), RankOf(d);
    var top := MaxRank(low, e.Keys);
    var rank: ObjectId -> nat := i => if i in e then low(i) else top + high(i);
    assert WellRanked(f, rank);
  }

  lemma {:induction false} SameBelow(e: Dag, f: Dag, o: Object, id: ObjectId)
    requires Readable(e) && Acyclic(f.store) && Extends(e, f) && Children(o) <= e.store.Keys
    ensures Below(f, o, id) <==> Below(e, o, id)
    decreases Height(e.store, o)
  {
    ChildrenLower(e.store, o);
    forall c | c in Children(o) ensures Below(f, f.store[c], id) <==> Below(e, e.store[c], id) {
      SameBelow(e, f, e.store[c], id);
    }
  }

  lemma SameReachable(e: Dag, f: Dag, root: ObjectId, id: ObjectId)
    requires Readable(e) && Acyclic(f.store) && Extends(e, f) && root in e.store
    ensures Reachable(f, root, id) <==> Reachable(e, root, id)
  {
    SameBelow(e, f, e.store[root], id);
  }

  /** What a sound store holds is complete in every store around it. */
  lemma ClosedAround(e: Dag, f: Dag, roots: set<ObjectId>)
    requires Sound(e) && Acyclic(f.store) && Extends(e, f) && roots <= e.store.Keys
    ensures ClosedFrom(f, roots)
  {
    forall i | ReachableFrom(f, roots, i)
      ensures i in f.store && f.idOf(f.store[i]) == i && Canonical(f.store[i])
    {
      var r :| r in roots && Reachable(f, r, i);
      SameReachable(e, f, r, i);
      AllBelowStored(e, r);
      assert e.idOf(e.store[i]) == i;
    }
  }

  // ----- trees

  /** The tree an id stands for, read from the part it reaches. */
  ghost function TreeFrom(d: Dag, id: ObjectId): Tree
    requires ClosedFrom(d, {id})
  {
    PartIsSound(d, {id});
    ExpandId(Part(d, {id}), id)
  }

  lemma TreeAround(e: Dag, f: Dag, id: ObjectId)
    requires Sound(e) && Acyclic(f.store) && Extends(e, f) && id in e.store
    ensures ClosedFrom(f, {id}) && TreeFrom(f, id) == ExpandId(e, id)
  {
    ClosedAround(e, f, {id});
    PartIsSound(f, {id});
    PartInside(e, f, id);
    ExpandExtends(Part(f, {id}), e, Part(f, {id}).store[id]);
  }

  lemma PartInside(e: Dag, f: Dag, id: ObjectId)
    requires Sound(e) && Acyclic(f.store) && Extends(e, f) && id in e.store
    ensures Extends(Part(f, {id}), e)
  {
    AllBelowStored(e, id);
    forall i | i in f.store && ReachableFrom(f, {id}, i) ensures i in e.store && e.store[i] == f.store[i] {
      SameReachable(e, f, id, i);
    }
  }

  lemma ClosedFromFewer(d: Dag, roots: set<ObjectId>, fewer: set<ObjectId>)
    requires ClosedFrom(d, roots) && fewer <= roots
    ensures ClosedFrom(d, fewer)
  {
    forall i | ReachableFrom(d, fewer, i) ensures ReachableFrom(d, roots, i) {
      var r :| r in fewer && Reachable(d, r, i);
    }
  }

  // ----- writing beside anything

  ghost function Roots(base: ObjectId, ours: ObjectId, theirs: ObjectId): set<ObjectId> {
    {base, ours, theirs}
  }

  lemma {:induction false} PutAllGrows(part: Dag, d: Dag, os: seq<Object>)
    requires Extends(part, d)
    ensures Extends(PutAll(part, os), PutAll(d, os))
    ensures GrownFrom(d.store, PutAll(part, os).store, PutAll(d, os).store)
  {
    if os != [] {
      PutAllGrows(part, d, os[..|os| - 1]);
    }
  }

  lemma PartCollisionFree(part: Dag, d: Dag, os: seq<Object>)
    requires Extends(part, d) && CollisionFree(d, os)
    ensures CollisionFree(part, os)
  {
  }

  /** After any number of the writes the store is acyclic and still holds the sound part. */
  lemma WritesGrow(part: Dag, d: Dag, os: seq<Object>)
    requires Sound(part) && Acyclic(d.store) && Extends(part, d) && ChildFirst(part, os) && CollisionFree(part, os)
    ensures Sound(PutAll(part, os)) && Acyclic(PutAll(d, os).store) && Extends(PutAll(part, os), PutAll(d, os))
  {
    PutAllSound(part, os);
    PutAllGrows(part, d, os);
    GrownIsAcyclic(d.store, PutAll(part, os).store, PutAll(d, os).store);
  }

  // ----- merge

  /** The three roots are complete, and what the merge creates collides with nothing. */
  ghost predicate Mergeable(d: Dag, base: ObjectId, ours: ObjectId, theirs: ObjectId) {
    ClosedFrom(d, Roots(base, ours, theirs)) && CollisionFree(d, ThreeWay(d, base, ours, theirs).created)
  }

  /** The three-way merge of the trees the roots stand for. */
  ghost function MergedFrom(d: Dag, base: ObjectId, ours: ObjectId, theirs: ObjectId): Merged
    requires ClosedFrom(d, Roots(base, ours, theirs))
  {
    ClosedFromFewer(d, Roots(base, ours, theirs), {base});
    ClosedFromFewer(d, Roots(base, ours, theirs), {ours});
    ClosedFromFewer(d, Roots(base, ours, theirs), {theirs});
    MergeSlot(Some(TreeFrom(d, base)), Some(TreeFrom(d, ours)), Some(TreeFrom(d, theirs)))
  }

  /** The merge in `d` is the merge in its sound part. */
  ghost predicate MergesIn(part: Dag, d: Dag, base: ObjectId, ours: ObjectId, theirs: ObjectId) {
    && Sound(part) && Acyclic(d.store) && Extends(part, d)
    && base in part.store && ours in part.store && theirs in part.store
    && ThreeWay(part, base, ours, theirs) == ThreeWay(d, base, ours, theirs)
    && CollisionFree(part, ThreeWay(d, base, ours, theirs).created)
    && ChildFirst(part, ThreeWay(d, base, ours, theirs).created)
  }

  lemma MergePart(d: Dag, base: ObjectId, ours: ObjectId, theirs: ObjectId) returns (part: Dag)
    requires Mergeable(d, base, ours, theirs)
    ensures MergesIn(part, d, base, ours, theirs)
  {
    var roots := Roots(base, ours, theirs);
    part := Part(d, roots);
    PartIsSound(d, roots);
    MergeNeedsOnlyPart(d, base, ours, theirs);
    PartCollisionFree(part, d, ThreeWay(d, base, ours, theirs).created);
    CreatedChildFirst(part, base, ours, theirs);
  }

  lemma CreatedChildFirst(d: Dag, base: ObjectId, ours: ObjectId, theirs: ObjectId)
    requires Sound(d) && base in d.store && ours in d.store && theirs in d.store
    ensures ChildFirst(d, ThreeWay(d, base, ours, theirs).created)
  {
    var b, o, t := d.store[base], d.store[ours], d.store[theirs];
    assert Supported(d, b) && Supported(d, o) && Supported(d, t);
    MergeBacked(d, "/", b, o, t);
  }

  lemma MergedInPart(d: Dag, part: Dag, base: ObjectId, ours: ObjectId, theirs: ObjectId)
    requires ClosedFrom(d, Roots(base, ours, theirs)) && Sound(part) && Extends(part, d)
    requires base in part.store && ours in part.store && theirs in part.store
    ensures MergedFrom(d, base, ours, theirs) == TreesMerged(part, base, ours, theirs)
  {
    TreeAround(part, d, base);
    TreeAround(part, d, ours);
    TreeAround(part, d, theirs);
  }

  /** The object a merge returns is the one stored under its root. */
  lemma RootIsStored(part: Dag, base: ObjectId, ours: ObjectId, theirs: ObjectId, tree: Tree)
    requires Sound(part) && base in part.store && ours in part.store && theirs in part.store
    requires CollisionFree(part, ThreeWay(part, base, ours, theirs).created)
    requires Readable(PutAll(part, ThreeWay(part, base, ours, theirs).created))
    requires Delivers(
      PutAll(part, ThreeWay(part, base, ours, theirs).created), ThreeWay(part, base, ours, theirs).result, tree)
    ensures var r := ThreeWay(part, base, ours, theirs);
      var e, root := PutAll(part, r.created), RootId(part, r.result);
      root in e.store && ExpandId(e, root) == tree
  {
    if !ThreeWay(part, base, ours, theirs).result.FastForward? {
      MergeReadBack(part, "/", part.store[base], part.store[ours], part.store[theirs]);
    }
  }

  /**
   In any store in which the three roots are complete: with `created` written, the merged root
   is complete and stands for the merge of the three trees, and the conflicts are its clashes.
   */
  lemma MergeRefinesAnywhere(d: Dag, base: ObjectId, ours: ObjectId, theirs: ObjectId)
    requires Mergeable(d, base, ours, theirs)
    ensures var r := ThreeWay(d, base, ours, theirs);
      var f, root := PutAll(d, r.created), RootId(d, r.result);
      var m := MergedFrom(d, base, ours, theirs);
      && ClosedFrom(f, {root})
      && m.value == Some(TreeFrom(f, root))
      && Reported(r.result) == ReportAll("/", m.clashes)
  {
    var part := MergePart(d, base, ours, theirs);
    var r := ThreeWay(d, base, ours, theirs);
    var m := TreesMerged(part, base, ours, theirs);
    MergedInPart(d, part, base, ours, theirs);
    MergeRefinesTreeMerge(part, base, ours, theirs);
    RootIsStored(part, base, ours, theirs, m.value.value);
    WritesGrow(part, d, r.created);
    TreeAround(PutAll(part, r.created), PutAll(d, r.created), RootId(d, r.result));
  }

  ghost function IdsOf(d: Dag, os: seq<Object>): set<ObjectId> {
    set o | o in os :: d.idOf(o)
  }

  lemma WrittenIds(part: Dag, d: Dag, os: seq<Object>)
    requires Sound(part) && Extends(part, d) && ChildFirst(part, os) && CollisionFree(part, os)
    ensures IdsOf(d, os) <= PutAll(part, os).store.Keys && part.store.Keys <= PutAll(part, os).store.Keys
  {
    PutAllSound(part, os);
    forall o | o in os ensures d.idOf(o) in PutAll(part, os).store {
      assert Stored(PutAll(part, os), o);
    }
  }

  /** After any number of the writes, the roots and every object written so far are complete. */
  lemma PrefixIsClosed(part: Dag, d: Dag, roots: set<ObjectId>, os: seq<Object>, n: nat)
    requires Sound(part) && Acyclic(d.store) && Extends(part, d) && roots <= part.store.Keys
    requires ChildFirst(part, os) && CollisionFree(part, os) && n <= |os|
    ensures ClosedFrom(PutAll(d, os[..n]), roots + IdsOf(d, os[..n]))
  {
    var done := os[..n];
    assert forall i :: 0 <= i < n ==> done[..i] == os[..i];
    WritesGrow(part, d, done);
    WrittenIds(part, d, done);
    ClosedAround(PutAll(part, done), PutAll(d, done), roots + IdsOf(d, done));
  }

  /**
   In any store in which the three roots are complete: after any number of the writes they and
   the objects written so far are complete, after all of them so is the merged root, and it
   reaches every object written.
   */
  lemma NoDanglingAnywhere(d: Dag, base: ObjectId, ours: ObjectId, theirs: ObjectId, n: nat)
    requires Mergeable(d, base, ours, theirs) && n <= |ThreeWay(d, base, ours, theirs).created|
    ensures var r := ThreeWay(d, base, ours, theirs);
      var f, root := PutAll(d, r.created), RootId(d, r.result);
      && ClosedFrom(PutAll(d, r.created[..n]), Roots(base, ours, theirs) + IdsOf(d, r.created[..n]))
      && ClosedFrom(f, {root})
      && forall x :: x in r.created ==> Reachable(f, root, f.idOf(x))
  {
    var part := MergePart(d, base, ours, theirs);
    PrefixAnywhere(d, part, base, ours, theirs, n);
    RootReachesAll(d, part, base, ours, theirs);
  }

  lemma PrefixAnywhere(d: Dag, part: Dag, base: ObjectId, ours: ObjectId, theirs: ObjectId, n: nat)
    requires MergesIn(part, d, base, ours, theirs) && n <= |ThreeWay(d, base, ours, theirs).created|
    ensures var written := ThreeWay(d, base, ours, theirs).created[..n];
      ClosedFrom(PutAll(d, written), Roots(base, ours, theirs) + IdsOf(d, written))
  {
    PrefixIsClosed(part, d, Roots(base, ours, theirs), ThreeWay(d, base, ours, theirs).created, n);
  }

  lemma RootReachesAll(d: Dag, part: Dag, base: ObjectId, ours: ObjectId, theirs: ObjectId)
    requires MergesIn(part, d, base, ours, theirs)
    ensures var r := ThreeWay(d, base, ours, theirs);
      var f, root := PutAll(d, r.created), RootId(d, r.result);
      && ClosedFrom(f, {root})
      && forall x :: x in r.created ==> Reachable(f, root, f.idOf(x))
  {
    var created, root := ThreeWay(d, base, ours, theirs).created, RootId(d, ThreeWay(d, base, ours, theirs).result);
    NoDanglingNodes(part, base, ours, theirs, 0);
    WritesGrow(part, d, created);
    ClosedAround(PutAll(part, created), PutAll(d, created), {root});
    ReachesAll(PutAll(part, created), PutAll(d, created), root, created);
  }

  lemma ReachesAll(e: Dag, f: Dag, root: ObjectId, os: seq<Object>)
    requires Readable(e) && Acyclic(f.store) && Extends(e, f) && root in e.store
    requires forall x :: x in os ==> Reachable(e, root, e.idOf(x))
    ensures forall x :: x in os ==> Reachable(f, root, f.idOf(x))
  {
    forall x | x in os ensures Reachable(f, root, f.idOf(x)) {
      SameReachable(e, f, root, e.idOf(x));
    }
  }

  // ----- the laws

  /** Swapping the sides, in any such store. */
  lemma SwapAnywhere(d: Dag, base: ObjectId, ours: ObjectId, theirs: ObjectId)
    requires Mergeable(d, base, ours, theirs) && Mergeable(d, base, theirs, ours)
    ensures var r, s := ThreeWay(d, base, ours, theirs), ThreeWay(d, base, theirs, ours);
      var f, g := PutAll(d, r.created), PutAll(d, s.created);
      && Reported(s.result) == MapSeq(SwapSides, Reported(r.result))
      && ClosedFrom(f, {RootId(d, r.result)}) && ClosedFrom(g, {RootId(d, s.result)})
      && (Reported(r.result) == [] ==> TreeFrom(f, RootId(d, r.result)) == TreeFrom(g, RootId(d, s.result)))
  {
    MergeRefinesAnywhere(d, base, ours, theirs);
    MergeRefinesAnywhere(d, base, theirs, ours);
    var m := MergedFrom(d, base, ours, theirs);
    MergeIsSymmetric(Some(TreeFrom(d, base)), Some(TreeFrom(d, ours)), Some(TreeFrom(d, theirs)));
    assert MergedFrom(d, base, theirs, ours).clashes == FlipAll(m.clashes);
  }

  /** Settling any of the conflicts in favour of ours, in any such store. */
  lemma SettleAnywhere(d: Dag, base: ObjectId, ours: ObjectId, theirs: ObjectId, settled: ObjectId, p: Places)
    requires Mergeable(d, base, ours, theirs) && Mergeable(d, base, ours, settled)
    requires ClosedFrom(d, {ours}) && ClosedFrom(d, {theirs}) && ClosedFrom(d, {settled})
    requires PlacesOf(MergedFrom(d, base, ours, theirs).clashes, p)
    requires Some(TreeFrom(d, settled)) == Adopt(Some(TreeFrom(d, ours)), Some(TreeFrom(d, theirs)), p)
    ensures var r, s := ThreeWay(d, base, ours, theirs), ThreeWay(d, base, ours, settled);
      var f, g := PutAll(d, r.created), PutAll(d, s.created);
      var m := MergedFrom(d, base, ours, theirs);
      && ClosedFrom(f, {RootId(d, r.result)}) && ClosedFrom(g, {RootId(d, s.result)})
      && TreeFrom(f, RootId(d, r.result)) == TreeFrom(g, RootId(d, s.result))
      && Reported(r.result) == ReportAll("/", m.clashes)
      && Reported(s.result) == ReportAll("/", Remaining(m.clashes, p))
  {
    MergeRefinesAnywhere(d, base, ours, theirs);
    MergeRefinesAnywhere(d, base, ours, settled);
    ClosedFromFewer(d, Roots(base, ours, theirs), {base});
    SettlingIsExact(Some(TreeFrom(d, base)), Some(TreeFrom(d, ours)), Some(TreeFrom(d, theirs)), p);
  }

  /** Conflict paths are different and none lies under another, in any such store. */
  lemma ConflictPathsApartAnywhere(d: Dag, base: ObjectId, ours: ObjectId, theirs: ObjectId, i: nat, j: nat)
    requires Mergeable(d, base, ours, theirs) && ClosedFrom(d, {ours}) && ClosedFrom(d, {theirs})
    requires KeysSatisfy(TreeFrom(d, ours), Plain) && KeysSatisfy(TreeFrom(d, theirs), Plain)
    requires var n := |Reported(ThreeWay(d, base, ours, theirs).result)|; i < n && j < n && i != j
    ensures var cs := Reported(ThreeWay(d, base, ours, theirs).result);
      cs[i].path != cs[j].path && !LiesUnder(cs[j].path, cs[i].path)
  {
    var part := MergePart(d, base, ours, theirs);
    TreeAround(part, d, ours);
    TreeAround(part, d, theirs);
    ConflictPathsApart(part, base, ours, theirs, i, j);
  }

  /** A conflict path parses to the keys that lead to the values reported, in any such store. */
  lemma ConflictPathParsesAnywhere(d: Dag, base: ObjectId, ours: ObjectId, theirs: ObjectId, i: nat)
    requires Mergeable(d, base, ours, theirs)
    requires ClosedFrom(d, {base}) && ClosedFrom(d, {ours}) && ClosedFrom(d, {theirs})
    requires KeysSatisfy(TreeFrom(d, ours), Addressable) && KeysSatisfy(TreeFrom(d, theirs), Addressable)
    requires i < |MergedFrom(d, base, ours, theirs).clashes|
    requires |MergedFrom(d, base, ours, theirs).clashes[i].place| <= MAX_PATH_DEPTH
    ensures i < |Reported(ThreeWay(d, base, ours, theirs).result)|
    ensures var c := Reported(ThreeWay(d, base, ours, theirs).result)[i];
      var place := MergedFrom(d, base, ours, theirs).clashes[i].place;
      && Parse(c.path) == Parsed(KeyPath(place))
      && c.ours == OptionalSummary(AtPlace(Some(TreeFrom(d, ours)), place))
      && c.theirs == OptionalSummary(AtPlace(Some(TreeFrom(d, theirs)), place))
      && c.base == OptionalSummary(AtPlace(Some(TreeFrom(d, base)), place))
  {
    var part := MergePart(d, base, ours, theirs);
    TreeAround(part, d, base);
    TreeAround(part, d, ours);
    TreeAround(part, d, theirs);
    ConflictPathParses(part, base, ours, theirs, i);
  }

  // ----- diff

  lemma DiffPart(d: Dag, before: ObjectId, after: ObjectId)
    requires ClosedFrom(d, {before, after})
    ensures var part := Part(d, {before, after});
      && Sound(part) && Extends(part, d) && before in part.store && after in part.store
      && DiffRoots(part, before, after) == DiffRoots(d, before, after)
      && ClosedFrom(d, {before}) && TreeFrom(d, before) == ExpandId(part, before)
      && ClosedFrom(d, {after}) && TreeFrom(d, after) == ExpandId(part, after)
  {
    var part := Part(d, {before, after});
    PartIsSound(d, {before, after});
    DiffNeedsOnlyPart(d, before, after);
    TreeAround(part, d, before);
    TreeAround(part, d, after);
  }

  /** The ops are a patch, and empty exactly for equal trees, in any such store. */
  lemma DiffPatchesAnywhere(d: Dag, before: ObjectId, after: ObjectId)
    requires ClosedFrom(d, {before, after})
    ensures var part := Part(d, {before, after});
      && Sound(part) && ClosedFrom(d, {before}) && ClosedFrom(d, {after})
      && Patch(part, [], TreeFrom(d, before), OpSet(DiffRoots(d, before, after))) == TreeFrom(d, after)
      && (DiffRoots(d, before, after) == [] <==> before == after)
      && (before == after <==> TreeFrom(d, before) == TreeFrom(d, after))
  {
    var part := Part(d, {before, after});
    DiffPart(d, before, after);
    DiffIsAPatch(part, before, after);
    EmptyDiffMeansEqual(part, before, after);
  }

  /** The code emits exactly the differences between the two trees, in any such store. */
  lemma EmittedExactlyAnywhere(d: Dag, before: ObjectId, after: ObjectId, op: DiffOp)
    requires ClosedFrom(d, {before, after})
    ensures ClosedFrom(d, {before}) && ClosedFrom(d, {after})
    ensures op in SummariseAll(DiffRoots(d, before, after)) <==>
      States(op, [], TreeFrom(d, before), TreeFrom(d, after))
  {
    DiffPart(d, before, after);
    EmittedExactly(Part(d, {before, after}), before, after, op);
  }

  /** Changes that lie apart compose, in any such store. */
  lemma DiffsComposeAnywhere(d: Dag, base: ObjectId, ours: ObjectId, theirs: ObjectId)
    requires Mergeable(d, base, ours, theirs)
    requires ClosedFrom(d, {base}) && ClosedFrom(d, {ours}) && ClosedFrom(d, {theirs})
    requires Apart(DiffRoots(d, base, ours), DiffRoots(d, base, theirs))
    ensures var r := ThreeWay(d, base, ours, theirs);
      var f := PutAll(d, r.created);
      && (r.result.Conflicts? <==> ListsDisagree(TreeFrom(d, base), TreeFrom(d, ours), TreeFrom(d, theirs)))
      && Acyclic(f.store)
      && (!r.result.Conflicts? ==>
            multiset(SummariseAll(DiffRoots(f, base, RootId(d, r.result)))) ==
            multiset(SummariseAll(DiffRoots(d, base, ours))) + multiset(SummariseAll(DiffRoots(d, base, theirs))))
  {
    var part := MergePart(d, base, ours, theirs);
    var r := ThreeWay(d, base, ours, theirs);
    TreeAround(part, d, base);
    TreeAround(part, d, ours);
    TreeAround(part, d, theirs);
    SameDiff(part, d, base, ours);
    SameDiff(part, d, base, theirs);
    MergeComposesDiffs(part, base, ours, theirs);
    WritesGrow(part, d, r.created);
    NoDanglingNodes(part, base, ours, theirs, 0);
    SameDiff(PutAll(part, r.created), PutAll(d, r.created), base, RootId(d, r.result));
  }

  lemma SameDiff(e: Dag, f: Dag, before: ObjectId, after: ObjectId)
    requires Sound(e) && Acyclic(f.store) && Extends(e, f) && before in e.store && after in e.store
    ensures DiffRoots(f, before, after) == DiffRoots(e, before, after)
  {
    DiffExtends(e, f, [], e.store[before], e.store[after]);
  }
}

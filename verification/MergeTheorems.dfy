/** What the laws of the tree merge say about the code: its results and its conflict paths. */
module MergeTheorems {
  import opened Order
  import opened Objects
  import opened Dags
  import opened Trees
  import opened TreeMerge
  import opened Merge
  import opened MergeRefinement
  import opened MergeLaws
  import opened MergeResolve
  import opened Paths

  // ----- symmetry

  function SwapSides(c: Conflict): Conflict {
    c.(ours := c.theirs, theirs := c.ours)
  }

  /**
   Swapping ours and theirs succeeds exactly when the original does, with the same tree,
   and otherwise reports the same conflicts in the same order, sides exchanged.
   */
  lemma SwappedMerge(d: Dag, base: ObjectId, ours: ObjectId, theirs: ObjectId)
    requires Sound(d) && base in d.store && ours in d.store && theirs in d.store
    requires CollisionFree(d, ThreeWay(d, base, ours, theirs).created)
    requires CollisionFree(d, ThreeWay(d, base, theirs, ours).created)
    ensures var r, s := ThreeWay(d, base, ours, theirs), ThreeWay(d, base, theirs, ours);
      var e, f := PutAll(d, r.created), PutAll(d, s.created);
      && Sound(e) && Sound(f)
      && |Reported(s.result)| == |Reported(r.result)|
      && (forall i :: 0 <= i < |Reported(r.result)| ==> Reported(s.result)[i] == SwapSides(Reported(r.result)[i]))
      && (Reported(r.result) == [] ==>
          exists x :: Delivers(e, r.result, x) && Delivers(f, s.result, x))
  {
    MergeRefinesTreeMerge(d, base, ours, theirs);
    MergeRefinesTreeMerge(d, base, theirs, ours);
    MergeIsSymmetric(Some(ExpandId(d, base)), Some(ExpandId(d, ours)), Some(ExpandId(d, theirs)));
    var m := TreesMerged(d, base, ours, theirs);
    assert Reported(ThreeWay(d, base, ours, theirs).result) == [] ==> m.clashes == [];
    assert m.clashes == [] ==>
      Delivers(PutAll(d, ThreeWay(d, base, ours, theirs).created),
               ThreeWay(d, base, ours, theirs).result, m.value.value);
  }

  // ----- settling conflicts

  /**
   `settled` is theirs with ours put at some of the conflict places. Merging it instead
   gives the same tree and exactly the remaining conflicts.
   */
  lemma SettledMerge(d: Dag, base: ObjectId, ours: ObjectId, theirs: ObjectId, settled: ObjectId, p: Places)
    requires Sound(d) && base in d.store && ours in d.store && theirs in d.store && settled in d.store
    requires CollisionFree(d, ThreeWay(d, base, ours, theirs).created)
    requires CollisionFree(d, ThreeWay(d, base, ours, settled).created)
    requires PlacesOf(TreesMerged(d, base, ours, theirs).clashes, p)
    requires Some(ExpandId(d, settled)) == Adopt(Some(ExpandId(d, ours)), Some(ExpandId(d, theirs)), p)
    ensures var r, s := ThreeWay(d, base, ours, theirs), ThreeWay(d, base, ours, settled);
      var e, f := PutAll(d, r.created), PutAll(d, s.created);
      var m := TreesMerged(d, base, ours, theirs);
      && Sound(e) && Sound(f)
      && m.value.Some? && Delivers(e, r.result, m.value.value) && Delivers(f, s.result, m.value.value)
      && Reported(r.result) == ReportAll("/", m.clashes)
      && Reported(s.result) == ReportAll("/", Remaining(m.clashes, p))
  {
    MergeRefinesTreeMerge(d, base, ours, theirs);
    MergeRefinesTreeMerge(d, base, ours, settled);
    SettlingIsExact(Some(ExpandId(d, base)), Some(ExpandId(d, ours)), Some(ExpandId(d, theirs)), p);
  }

  // ----- conflict paths

  /** Every map key met from the root downwards satisfies `ok`. */
  ghost predicate KeysSatisfy(t: Tree, ok: string -> bool) {
    t.TMap? ==> forall k :: k in t.entries ==> ok(k) && KeysSatisfy(t.entries[k], ok)
  }

  predicate Plain(k: string) {
    k != "" && '/' !in k
  }

  /** A key that a path can name: not read as an index, and within the length cap. */
  predicate Addressable(k: string) {
    Plain(k) && Utf8Len(k) <= MAX_SEGMENT_LEN && Decimal.ParseUsize(k).None?
  }

  lemma {:induction false} PlaceKeys(t: Tree, place: seq<string>, ok: string -> bool)
    requires KeysSatisfy(t, ok) && AtPlace(Some(t), place).Some?
    ensures forall i :: 0 <= i < |place| ==> ok(place[i])
    decreases |place|
  {
    if place != [] {
      PlaceKeys(t.entries[place[0]], place[1..], ok);
      assert forall i :: 0 < i < |place| ==> place[i] == place[1..][i - 1];
    }
  }

  function KeyPath(place: seq<string>): (p: StatePath)
    ensures |p| == |place| && forall i :: 0 <= i < |place| ==> p[i] == Key(place[i])
  {
    seq(|place|, i requires 0 <= i < |place| => Key(place[i]))
  }

  lemma {:induction false} RenderLast(path: string, place: seq<string>, k: string)
    ensures RenderPlace(path, place + [k]) == ChildPath(RenderPlace(path, place), k)
    decreases |place|
  {
    if place == [] {
      assert ([] + [k])[1..] == [];
    } else {
      assert (place + [k])[1..] == place[1..] + [k];
      RenderLast(ChildPath(path, place[0]), place[1..], k);
    }
  }

  /** With non-empty keys the path string is the printed state path. */
  lemma {:induction false} RenderIsPrint(place: seq<string>)
    requires forall i :: 0 <= i < |place| ==> place[i] != ""
    ensures RenderPlace("/", place) == Print(KeyPath(place))
    ensures place != [] ==> |RenderPlace("/", place)| > 1
  {
    if place != [] {
      var n := |place| - 1;
      var init, k := place[..n], place[n];
      assert place == init + [k];
      RenderIsPrint(init);
      RenderLast("/", init, k);
      var p := KeyPath(place);
      assert p[..n] == KeyPath(init);
      assert Print(p) == Components(p[..n]) + "/" + k;
      assert n == 0 ==> Components(p[..n]) == "" && RenderPlace("/", init) == "/";
      assert RenderPlace("/", place) == Print(p);
    }
  }

  /** `q` is a path below `p`. */
  predicate LiesUnder(q: string, p: string) {
    if p == "/" then q != "/" else p + "/" <= q
  }

  lemma PlainSplit(place: seq<string>)
    requires place != [] && forall i :: 0 <= i < |place| ==> Plain(place[i])
    ensures |RenderPlace("/", place)| > 1 && Split(RenderPlace("/", place)[1..]) == place
  {
    RenderIsPrint(place);
    SplitComponents(KeyPath(place));
    assert Segments(KeyPath(place)) == place;
  }

  lemma SplitUnder(r: string, s: string)
    requires |r| > 1 && |s| > 1 && r + "/" <= s
    ensures Split(r[1..]) <= Split(s[1..])
  {
    var rest := s[|r| + 1..];
    assert s[1..] == r[1..] + "/" + rest;
    SplitAtSlash(r[1..], rest);
  }

  lemma PathsFollowPlaces(p: seq<string>, q: seq<string>)
    requires forall i :: 0 <= i < |p| ==> Plain(p[i])
    requires forall i :: 0 <= i < |q| ==> Plain(q[i])
    ensures RenderPlace("/", p) == RenderPlace("/", q) ==> p == q
    ensures LiesUnder(RenderPlace("/", q), RenderPlace("/", p)) ==> p <= q
  {
    var r, s := RenderPlace("/", p), RenderPlace("/", q);
    if p != [] { PlainSplit(p); }
    if q != [] { PlainSplit(q); }
    if p != [] && q != [] && r + "/" <= s {
      SplitUnder(r, s);
    }
  }

  /** The conflict paths of a merge are pairwise different, and none lies under another. */
  lemma ConflictPathsApart(d: Dag, base: ObjectId, ours: ObjectId, theirs: ObjectId, i: nat, j: nat)
    requires Sound(d) && base in d.store && ours in d.store && theirs in d.store
    requires CollisionFree(d, ThreeWay(d, base, ours, theirs).created)
    requires KeysSatisfy(ExpandId(d, ours), Plain) && KeysSatisfy(ExpandId(d, theirs), Plain)
    requires var cs := Reported(ThreeWay(d, base, ours, theirs).result); i < |cs| && j < |cs| && i != j
    ensures var cs := Reported(ThreeWay(d, base, ours, theirs).result);
      cs[i].path != cs[j].path && !LiesUnder(cs[j].path, cs[i].path)
  {
    MergeRefinesTreeMerge(d, base, ours, theirs);
    var b, o, t := Some(ExpandId(d, base)), Some(ExpandId(d, ours)), Some(ExpandId(d, theirs));
    var m := MergeSlot(b, o, t);
    ClashesFormAntichain(b, o, t);
    ClashKeys(b, o.value, t.value, m.clashes[i], Plain);
    ClashKeys(b, o.value, t.value, m.clashes[j], Plain);
    PathsFollowPlaces(m.clashes[i].place, m.clashes[j].place);
  }

  lemma ClashKeys(b: Option<Tree>, o: Tree, t: Tree, c: Clash, ok: string -> bool)
    requires c in MergeSlot(b, Some(o), Some(t)).clashes && KeysSatisfy(o, ok) && KeysSatisfy(t, ok)
    ensures forall i :: 0 <= i < |c.place| ==> ok(c.place[i])
  {
    ClashesAreTruthful(b, Some(o), Some(t));
    if c.ours.Some? {
      PlaceKeys(o, c.place, ok);
    } else {
      PlaceKeys(t, c.place, ok);
    }
  }

  /**
   A conflict path parses to the keys that lead, in each of the three trees, to the values
   the conflict reports.
   */
  lemma ConflictPathParses(d: Dag, base: ObjectId, ours: ObjectId, theirs: ObjectId, i: nat)
    requires Sound(d) && base in d.store && ours in d.store && theirs in d.store
    requires CollisionFree(d, ThreeWay(d, base, ours, theirs).created)
    requires KeysSatisfy(ExpandId(d, ours), Addressable) && KeysSatisfy(ExpandId(d, theirs), Addressable)
    requires i < |TreesMerged(d, base, ours, theirs).clashes|
    requires |TreesMerged(d, base, ours, theirs).clashes[i].place| <= MAX_PATH_DEPTH
    ensures |Reported(ThreeWay(d, base, ours, theirs).result)| == |TreesMerged(d, base, ours, theirs).clashes|
    ensures var c := Reported(ThreeWay(d, base, ours, theirs).result)[i];
      var place := TreesMerged(d, base, ours, theirs).clashes[i].place;
      && Parse(c.path) == Parsed(KeyPath(place))
      && c.ours == OptionalSummary(AtPlace(Some(ExpandId(d, ours)), place))
      && c.theirs == OptionalSummary(AtPlace(Some(ExpandId(d, theirs)), place))
      && c.base == OptionalSummary(AtPlace(Some(ExpandId(d, base)), place))
  {
    MergeRefinesTreeMerge(d, base, ours, theirs);
    var b, o, t := Some(ExpandId(d, base)), Some(ExpandId(d, ours)), Some(ExpandId(d, theirs));
    var c := MergeSlot(b, o, t).clashes[i];
    ClashesAreTruthful(b, o, t);
    assert Truthful(b, o, t, MergeSlot(b, o, t).value, c);
    ClashKeys(b, o.value, t.value, c, Addressable);
    AddressablePathParses(c.place);
  }

  lemma AddressablePathParses(place: seq<string>)
    requires |place| <= MAX_PATH_DEPTH && forall i :: 0 <= i < |place| ==> Addressable(place[i])
    ensures Parse(RenderPlace("/", place)) == Parsed(KeyPath(place))
  {
    RenderIsPrint(place);
    PrintThenParse(KeyPath(place));
  }
}

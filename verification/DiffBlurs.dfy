/**
 When the emitted diff repeats an op, told from the two trees: printing a value shows only its
 kind and size, so two members of a set can print alike.
 */
module DiffBlurs {
  import opened Order
  import opened Objects
  import opened Dags
  import opened Trees
  import opened Paths
  import opened Merge
  import opened Diff
  import opened DiffPatch
  import opened DiffMerge
  import opened DiffDistinct

  // ----- trees that print alike

  /** What a diff prints for a tree. */
  ghost function Printed(t: Tree): DiffValue {
    match t
    case Leaf(a) => FromAtom(a)
    case TMap(m) => DComplex(MapSummary(|m|))
    case TList(l) => DComplex(ListSummary(|l|))
    case TSet(s) => DComplex(SetSummary(|s|))
  }

  lemma PrintedObject(d: Dag, o: Object)
    requires Sound(d) && Supported(d, o)
    ensures Printed(Expand(d, o)) == ValueOf(Some(o))
  {
    if o.MapNode? {
      ExpandedMap(d, o);
      assert |Expand(d, o).entries| == |Expand(d, o).entries.Keys| == |o.entries.Keys| == |o.entries|;
    } else if o.SetNode? {
      SetSize(d, o);
    }
  }

  ghost predicate TwoAlike(s: set<Tree>) {
    exists a, b :: a in s && b in s && a != b && Printed(a) == Printed(b)
  }

  /** At some place common to both trees, a set gains or loses two different members that print alike. */
  ghost predicate Blurs(t: Tree, u: Tree) {
    || (t.TMap? && u.TMap? && exists k :: k in t.entries && k in u.entries && Blurs(t.entries[k], u.entries[k]))
    || (t.TList? && u.TList? && exists i :: 0 <= i < |t.items| && i < |u.items| && Blurs(t.items[i], u.items[i]))
    || (t.TSet? && u.TSet? && (TwoAlike(t.members - u.members) || TwoAlike(u.members - t.members)))
  }

  lemma BlursOfMaps(t: Tree, u: Tree)
    requires t.TMap? && u.TMap?
    ensures Blurs(t, u) <==> exists k :: KeyBlurs(t, u, k)
  {
    if Blurs(t, u) {
      var k :| k in t.entries && k in u.entries && Blurs(t.entries[k], u.entries[k]);
      assert KeyBlurs(t, u, k);
    }
  }

  lemma BlursOfLists(t: Tree, u: Tree)
    requires t.TList? && u.TList?
    ensures Blurs(t, u) <==> exists i: nat :: ItemBlurs(t, u, i)
  {
    if Blurs(t, u) {
      var i :| 0 <= i < |t.items| && i < |u.items| && Blurs(t.items[i], u.items[i]);
      assert ItemBlurs(t, u, i);
    }
  }

  ghost predicate KeyBlurs(t: Tree, u: Tree, k: string)
    requires t.TMap? && u.TMap?
  {
    k in t.entries && k in u.entries && Blurs(t.entries[k], u.entries[k])
  }

  ghost predicate ItemBlurs(t: Tree, u: Tree, i: nat)
    requires t.TList? && u.TList?
  {
    i < |t.items| && i < |u.items| && Blurs(t.items[i], u.items[i])
  }

  lemma {:induction false} NoBlurWithin(t: Tree)
    ensures !Blurs(t, t)
  {
    match t
    case Leaf(_) =>
    case TMap(m) =>
      forall k | k in m ensures !Blurs(m[k], m[k]) { NoBlurWithin(m[k]); }
    case TList(l) =>
      forall i: nat | i < |l| ensures !Blurs(l[i], l[i]) { NoBlurWithin(l[i]); }
    case TSet(s) =>
      assert s - s == {};
  }

  // ----- twins in the full stream

  ghost predicate Twins(a: FullOp, b: FullOp) {
    a != b && PrintAlike(a, b)
  }

  ghost predicate HasTwins(ops: seq<FullOp>) {
    exists a, b :: a in ops && b in ops && Twins(a, b)
  }

  lemma TwinsKept(ops: seq<FullOp>, more: seq<FullOp>)
    requires HasTwins(ops) && forall op :: op in ops ==> op in more
    ensures HasTwins(more)
  {
    var a, b :| a in ops && b in ops && Twins(a, b);
    assert a in more && b in more;
  }

  lemma {:induction false} TwinsAreBlurs(d: Dag, p: StatePath, x: Object, y: Object)
    requires Sound(d) && Supported(d, x) && Supported(d, y)
    ensures HasTwins(DiffObjects(d, p, x, y)) <==> Blurs(Expand(d, x), Expand(d, y))
    decreases Height(d.store, x), 2
  {
    if x == y {
      NoBlurWithin(Expand(d, x));
    } else if x.MapNode? && y.MapNode? {
      MapTwins(d, p, x, y);
    } else if x.ListNode? && y.ListNode? {
      ListTwins(d, p, x, y);
    } else if x.SetNode? && y.SetNode? {
      SetTwins(d, p, x, y);
    } else {
      assert |DiffObjects(d, p, x, y)| == 1;
    }
  }

  // ----- maps

  /** Two set ops on one path come from one key. */
  lemma TwinsOfOneKey(d: Dag, p: StatePath, x: Object, y: Object, a: FullOp, b: FullOp) returns (k: string)
    requires Sound(d) && Supported(d, x) && Supported(d, y) && x.MapNode? && y.MapNode?
    requires a in DiffMaps(d, p, x, y) && b in DiffMaps(d, p, x, y) && Twins(a, b)
    ensures k in x.entries && k in y.entries && HasTwins(KeyOps(d, p, x, y, k))
  {
    MapMembers(d, p, x, y, a);
    MapMembers(d, p, x, y, b);
    var j :| OpOfKey(d, p, x, y, j, a);
    k :| OpOfKey(d, p, x, y, k, b);
    KeyLocations(d, p, x, y, j);
    KeyLocations(d, p, x, y, k);
    TwinsAboutOne(a, b, p, Key(j), Key(k));
    assert a in KeyOps(d, p, x, y, k) && b in KeyOps(d, p, x, y, k);
  }

  lemma TwinsAboutOne(a: FullOp, b: FullOp, p: StatePath, c: PathComponent, e: PathComponent)
    requires Twins(a, b) && About(a, p, c) && About(b, p, e)
    ensures c == e
  {
    assert (p + [c])[|p|] == c && (p + [e])[|p|] == e;
  }

  lemma {:induction false} KeyTwins(d: Dag, p: StatePath, x: Object, y: Object, k: string)
    requires Sound(d) && Supported(d, x) && Supported(d, y) && x.MapNode? && y.MapNode?
    requires k in x.entries && k in y.entries
    ensures HasTwins(KeyOps(d, p, x, y, k)) <==> KeyBlurs(Expand(d, x), Expand(d, y), k)
    decreases Height(d.store, x), 0
  {
    KeyChild(d, p, x, y, k);
    EntryTree(d, x, k);
    EntryTree(d, y, k);
    assert x.entries[k] in Children(x);
    StoredChild(d, x, x.entries[k]);
    TwinsAreBlurs(d, p + [Key(k)], d.store[x.entries[k]], d.store[y.entries[k]]);
  }

  lemma {:induction false} MapTwins(d: Dag, p: StatePath, x: Object, y: Object)
    requires Sound(d) && Supported(d, x) && Supported(d, y) && x.MapNode? && y.MapNode?
    ensures HasTwins(DiffMaps(d, p, x, y)) <==> Blurs(Expand(d, x), Expand(d, y))
    decreases Height(d.store, x), 1
  {
    BlursOfMaps(Expand(d, x), Expand(d, y));
    if HasTwins(DiffMaps(d, p, x, y)) {
      var a, b :| a in DiffMaps(d, p, x, y) && b in DiffMaps(d, p, x, y) && Twins(a, b);
      var k := TwinsOfOneKey(d, p, x, y, a, b);
      KeyTwins(d, p, x, y, k);
    }
    if Blurs(Expand(d, x), Expand(d, y)) {
      var k :| KeyBlurs(Expand(d, x), Expand(d, y), k);
      KeyTwins(d, p, x, y, k);
      KeyInMaps(d, p, x, y, k);
      TwinsKept(KeyOps(d, p, x, y, k), DiffMaps(d, p, x, y));
    }
  }

  // ----- lists

  lemma TwinsOfOneIndex(d: Dag, p: StatePath, x: Object, y: Object, n: nat, a: FullOp, b: FullOp) returns (i: nat)
    requires Sound(d) && Supported(d, x) && Supported(d, y) && x.ListNode? && y.ListNode?
    requires a in DiffLists(d, p, x, y, n) && b in DiffLists(d, p, x, y, n) && Twins(a, b)
    ensures i < |x.items| && i < |y.items| && HasTwins(IndexOps(d, p, x, y, i))
  {
    ListMembers(d, p, x, y, n, a);
    ListMembers(d, p, x, y, n, b);
    var j: nat :| j < n && OpOfIndex(d, p, x, y, j, a);
    i :| i < n && OpOfIndex(d, p, x, y, i, b);
    IndexLocations(d, p, x, y, j);
    IndexLocations(d, p, x, y, i);
    TwinsAboutOne(a, b, p, Index(j), Index(i));
    assert a in IndexOps(d, p, x, y, i) && b in IndexOps(d, p, x, y, i);
  }

  lemma {:induction false} IndexTwins(d: Dag, p: StatePath, x: Object, y: Object, i: nat)
    requires Sound(d) && Supported(d, x) && Supported(d, y) && x.ListNode? && y.ListNode?
    requires i < |x.items| && i < |y.items|
    ensures HasTwins(IndexOps(d, p, x, y, i)) <==> ItemBlurs(Expand(d, x), Expand(d, y), i)
    decreases Height(d.store, x), 0
  {
    assert x.items[i] in Children(x) && y.items[i] in Children(y);
    StoredChild(d, x, x.items[i]);
    StoredChild(d, y, y.items[i]);
    SharedIndex(d, p, x, y, i);
    assert Expand(d, x).items[i] == ExpandId(d, x.items[i]);
    assert Expand(d, y).items[i] == ExpandId(d, y.items[i]);
    TwinsAreBlurs(d, p + [Index(i)], d.store[x.items[i]], d.store[y.items[i]]);
  }

  lemma {:induction false} ListTwins(d: Dag, p: StatePath, x: Object, y: Object)
    requires Sound(d) && Supported(d, x) && Supported(d, y) && x.ListNode? && y.ListNode?
    ensures HasTwins(DiffLists(d, p, x, y, Max(|x.items|, |y.items|))) <==> Blurs(Expand(d, x), Expand(d, y))
    decreases Height(d.store, x), 1
  {
    BlursOfLists(Expand(d, x), Expand(d, y));
    var n := Max(|x.items|, |y.items|);
    var ops := DiffLists(d, p, x, y, n);
    if HasTwins(ops) {
      var a, b :| a in ops && b in ops && Twins(a, b);
      var i := TwinsOfOneIndex(d, p, x, y, n, a, b);
      IndexTwins(d, p, x, y, i);
    }
    if Blurs(Expand(d, x), Expand(d, y)) {
      var i: nat :| ItemBlurs(Expand(d, x), Expand(d, y), i);
      IndexTwins(d, p, x, y, i);
      IndexInLists(d, p, x, y, i, n);
      TwinsKept(IndexOps(d, p, x, y, i), ops);
    }
  }

  lemma IndexInLists(d: Dag, p: StatePath, x: Object, y: Object, i: nat, n: nat)
    requires Acyclic(d.store) && x.ListNode? && y.ListNode? && i < n
    ensures forall op :: op in IndexOps(d, p, x, y, i) ==> op in DiffLists(d, p, x, y, n)
  {
    forall op | op in IndexOps(d, p, x, y, i) ensures op in DiffLists(d, p, x, y, n) {
      assert OpOfIndex(d, p, x, y, i, op);
      ListMembers(d, p, x, y, n, op);
    }
  }

  // ----- sets

  /** Two ids the first set has and the second lacks, with objects that print alike. */
  ghost predicate IdsAlike(d: Dag, x: Object, y: Object, i: ObjectId, j: ObjectId) {
    && i in Children(x) && i !in Children(y) && j in Children(x) && j !in Children(y) && i != j
    && ValueOf(Resolve(d, i)) == ValueOf(Resolve(d, j))
  }

  lemma AlikeByIds(d: Dag, x: Object, y: Object)
    requires Sound(d) && Supported(d, x) && Supported(d, y) && x.SetNode? && y.SetNode?
    ensures TwoAlike(Expand(d, x).members - Expand(d, y).members) <==> SomeAlike(d, x, y)
  {
    var s := Expand(d, x).members - Expand(d, y).members;
    if TwoAlike(s) {
      var a, b :| a in s && b in s && a != b && Printed(a) == Printed(b);
      var i := IdOfMember(d, x, y, a);
      var j := IdOfMember(d, x, y, b);
      assert IdsAlike(d, x, y, i, j);
    }
    if i, j :| IdsAlike(d, x, y, i, j) {
      MemberOfId(d, x, y, i);
      MemberOfId(d, x, y, j);
      IdsStandForTrees(d, i, j);
    }
  }

  lemma IdOfMember(d: Dag, x: Object, y: Object, t: Tree) returns (i: ObjectId)
    requires Sound(d) && Supported(d, x) && Supported(d, y) && x.SetNode? && y.SetNode?
    requires t in Expand(d, x).members - Expand(d, y).members
    ensures i in Children(x) && i !in Children(y) && ExpandId(d, i) == t && ValueOf(Resolve(d, i)) == Printed(t)
  {
    OnlyIn(d, x, y, t);
    i :| i in Children(x) && i !in Children(y) && ExpandId(d, i) == t;
    PrintedObject(d, d.store[i]);
  }

  lemma MemberOfId(d: Dag, x: Object, y: Object, i: ObjectId)
    requires Sound(d) && Supported(d, x) && Supported(d, y) && x.SetNode? && y.SetNode?
    requires i in Children(x) && i !in Children(y)
    ensures ExpandId(d, i) in Expand(d, x).members - Expand(d, y).members
    ensures ValueOf(Resolve(d, i)) == Printed(ExpandId(d, i))
  {
    OnlyIn(d, x, y, ExpandId(d, i));
    PrintedObject(d, d.store[i]);
  }

  ghost predicate SomeAlike(d: Dag, x: Object, y: Object) {
    exists i, j :: IdsAlike(d, x, y, i, j)
  }

  lemma SetTwins(d: Dag, p: StatePath, x: Object, y: Object)
    requires Sound(d) && Supported(d, x) && Supported(d, y) && x.SetNode? && y.SetNode?
    ensures HasTwins(DiffSets(d, p, x, y)) <==> Blurs(Expand(d, x), Expand(d, y))
  {
    AlikeByIds(d, x, y);
    AlikeByIds(d, y, x);
    SetTwinsByIds(d, p, x, y);
  }

  lemma SetTwinsByIds(d: Dag, p: StatePath, x: Object, y: Object)
    requires Sound(d) && Supported(d, x) && Supported(d, y) && x.SetNode? && y.SetNode?
    ensures HasTwins(DiffSets(d, p, x, y)) <==> SomeAlike(d, x, y) || SomeAlike(d, y, x)
  {
    var ops := DiffSets(d, p, x, y);
    if HasTwins(ops) {
      var a, b :| a in ops && b in ops && Twins(a, b);
      TwinsHaveIds(d, p, x, y, a, b);
    }
    if i, j :| IdsAlike(d, x, y, i, j) {
      IdsMakeTwins(d, p, x, y, i, j);
    }
    if i, j :| IdsAlike(d, y, x, i, j) {
      IdsMakeTwins(d, p, x, y, i, j);
    }
  }

  lemma TwinsHaveIds(d: Dag, p: StatePath, x: Object, y: Object, a: FullOp, b: FullOp)
    requires Sound(d) && Supported(d, x) && Supported(d, y) && x.SetNode? && y.SetNode?
    requires a in DiffSets(d, p, x, y) && b in DiffSets(d, p, x, y) && Twins(a, b)
    ensures SomeAlike(d, x, y) || SomeAlike(d, y, x)
  {
    SetPaths(d, p, x, y, a);
    SetPaths(d, p, x, y, b);
    SetHere(d, p, x, y, a);
    SetHere(d, p, x, y, b);
    if a.RemoveFromSet? {
      var i :| i in Children(x) && i !in Children(y) && a.value == Resolve(d, i);
      var j :| j in Children(x) && j !in Children(y) && b.value == Resolve(d, j);
      assert IdsAlike(d, x, y, i, j);
    } else {
      var i :| i in Children(y) && i !in Children(x) && a.value == Resolve(d, i);
      var j :| j in Children(y) && j !in Children(x) && b.value == Resolve(d, j);
      assert IdsAlike(d, y, x, i, j);
    }
  }

  lemma IdsMakeTwins(d: Dag, p: StatePath, x: Object, y: Object, i: ObjectId, j: ObjectId)
    requires Sound(d) && Supported(d, x) && Supported(d, y) && x.SetNode? && y.SetNode?
    requires IdsAlike(d, x, y, i, j) || IdsAlike(d, y, x, i, j)
    ensures HasTwins(DiffSets(d, p, x, y))
  {
    assert d.idOf(d.store[i]) == i && d.idOf(d.store[j]) == j;
    var a, b := Resolve(d, i), Resolve(d, j);
    if IdsAlike(d, x, y, i, j) {
      SetHere(d, p, x, y, RemoveFromSet(p, a));
      SetHere(d, p, x, y, RemoveFromSet(p, b));
      assert Twins(RemoveFromSet(p, a), RemoveFromSet(p, b));
    } else {
      SetHere(d, p, x, y, AddToSet(p, a));
      SetHere(d, p, x, y, AddToSet(p, b));
      assert Twins(AddToSet(p, a), AddToSet(p, b));
    }
  }

  // ----- the emitted diff

  lemma TwinsByPosition(ops: seq<FullOp>)
    requires Distinct(ops)
    ensures HasTwins(ops) <==> exists i, j :: 0 <= i < j < |ops| && PrintAlike(ops[i], ops[j])
  {
    if HasTwins(ops) {
      var a, b :| a in ops && b in ops && Twins(a, b);
      var i :| 0 <= i < |ops| && ops[i] == a;
      var j :| 0 <= j < |ops| && ops[j] == b;
      assert PrintAlike(ops[i], ops[j]) && PrintAlike(ops[j], ops[i]);
      assert i < j || j < i;
    }
    if i, j :| 0 <= i < j < |ops| && PrintAlike(ops[i], ops[j]) {
      assert Twins(ops[i], ops[j]);
    }
  }

  /**
   With nameable keys the code emits some op twice exactly when, at a place common to the two
   trees, a set gains or loses two different members that print alike.
   */
  lemma EmittedRepeatsExactly(d: Dag, before: ObjectId, after: ObjectId)
    requires Sound(d) && before in d.store && after in d.store && KeysNameable(ExpandId(d, before))
    ensures !Distinct(SummariseAll(DiffRoots(d, before, after))) <==>
      Blurs(ExpandId(d, before), ExpandId(d, after))
  {
    EmittedTwice(d, before, after);
    DiffHasNoRepeats(d, before, after);
    TwinsByPosition(DiffRoots(d, before, after));
    assert Supported(d, d.store[before]) && Supported(d, d.store[after]);
    TwinsAreBlurs(d, [], d.store[before], d.store[after]);
  }

  // ----- a diff that repeats

  function Numbered(n: byte): ObjectId {
    ObjectId([n])
  }

  /** Two one-key maps, with different values under the key, and the empty set and the set of both. */
  const Example: Store := map[
    Numbered(0) := AtomObject(Null),
    Numbered(1) := AtomObject(Bool(true)),
    Numbered(2) := MapNode(map["k" := Numbered(0)]),
    Numbered(3) := MapNode(map["k" := Numbered(1)]),
    Numbered(4) := SetNode([]),
    Numbered(5) := SetNode([Numbered(2), Numbered(3)])]

  function ExampleId(o: Object): ObjectId {
    match o
    case AtomObject(a) => if a == Null then Numbered(0) else Numbered(1)
    case MapNode(m) => if "k" in m && m["k"] == Numbered(0) then Numbered(2) else Numbered(3)
    case ListNode(_) => Numbered(6)
    case SetNode(l) => if l == [] then Numbered(4) else Numbered(5)
  }

  lemma ExampleIsAcyclic()
    ensures Acyclic(Example)
  {
    var rank: ObjectId -> nat := (i: ObjectId) => if |i.bytes| > 0 then i.bytes[0] else 0;
    assert WellRanked(Example, rank);
  }

  lemma ExampleIsSound()
    ensures Sound(Dag(ExampleId, Example))
  {
    ExampleIsAcyclic();
    assert AscendingIds([Numbered(2), Numbered(3)]) by {
      assert [Numbered(2), Numbered(3)][1..] == [Numbered(3)];
    }
  }

  lemma ExampleBlurs()
    requires Sound(Dag(ExampleId, Example))
    ensures var d := Dag(ExampleId, Example);
      Blurs(ExpandId(d, Numbered(4)), ExpandId(d, Numbered(5)))
  {
    var d := Dag(ExampleId, Example);
    var x, y := Example[Numbered(4)], Example[Numbered(5)];
    assert Supported(d, x) && Supported(d, y);
    assert y.members[0] == Numbered(2) && y.members[1] == Numbered(3);
    assert ValueOf(Resolve(d, Numbered(2))) == ValueOf(Resolve(d, Numbered(3)));
    assert IdsAlike(d, y, x, Numbered(2), Numbered(3));
    AlikeByIds(d, y, x);
  }

  /** Filling the empty set of a sound store with its two one-key maps emits one op twice. */
  lemma SomeDiffRepeats()
    ensures var d := Dag(ExampleId, Example);
      Sound(d) && !Distinct(SummariseAll(DiffRoots(d, Numbered(4), Numbered(5))))
  {
    ExampleIsSound();
    ExampleBlurs();
    EmittedRepeatsExactly(Dag(ExampleId, Example), Numbered(4), Numbered(5));
  }
}

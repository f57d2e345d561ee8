/**
 The op stream is a patch: applied to the old tree it gives the new one. An op changes
 only the node at its path; list positions are those of the old list.
 */
module DiffPatch {
  import opened Order
  import opened Objects
  import opened Dags
  import opened Trees
  import opened Paths
  import opened Diff

  // ----- applying a stream

  /** The tree an op's value stands for. */
  ghost function TreeValue(d: Dag, v: Option<Object>): Tree
    requires Readable(d)
  {
    if v.Some? && Children(v.value) <= d.store.Keys then Expand(d, v.value) else Leaf(Null)
  }

  /** The op replaces the whole node at `p`. */
  predicate Replaces(op: FullOp, p: StatePath) {
    op.path == p && (op.SetValue? || op.ChangeType?)
  }

  predicate AddsKey(op: FullOp, p: StatePath, k: string) {
    op.path == p && op.AddKey? && op.key == k
  }

  predicate AddsItem(op: FullOp, p: StatePath, i: nat) {
    op.path == p && op.AddElement? && op.index == i
  }

  ghost function RemovedKeys(ops: set<FullOp>, p: StatePath): set<string> {
    set op | op in ops && op.path == p && op.RemoveKey? :: op.key
  }

  ghost function AddedKeys(ops: set<FullOp>, p: StatePath): set<string> {
    set op | op in ops && op.path == p && op.AddKey? :: op.key
  }

  ghost function RemovedIndices(ops: set<FullOp>, p: StatePath): set<nat> {
    set op | op in ops && op.path == p && op.RemoveElement? :: op.index
  }

  ghost function AddedIndices(ops: set<FullOp>, p: StatePath): set<nat> {
    set op | op in ops && op.path == p && op.AddElement? :: op.index
  }

  ghost function RemovedTrees(d: Dag, ops: set<FullOp>, p: StatePath): set<Tree>
    requires Readable(d)
  {
    set op | op in ops && op.path == p && op.RemoveFromSet? :: TreeValue(d, op.value)
  }

  ghost function AddedTrees(d: Dag, ops: set<FullOp>, p: StatePath): set<Tree>
    requires Readable(d)
  {
    set op | op in ops && op.path == p && op.AddToSet? :: TreeValue(d, op.value)
  }

  ghost function AddedValue(d: Dag, ops: set<FullOp>, p: StatePath, k: string): Tree
    requires Readable(d) && exists op :: op in ops && AddsKey(op, p, k)
  {
    var op :| op in ops && AddsKey(op, p, k);
    TreeValue(d, op.value)
  }

  ghost function AddedItem(d: Dag, ops: set<FullOp>, p: StatePath, i: nat): Tree
    requires Readable(d)
  {
    if exists op :: op in ops && AddsItem(op, p, i) then
      var op :| op in ops && AddsItem(op, p, i);
      TreeValue(d, op.value)
    else Leaf(Null)
  }

  /** Items that grow the list beyond its old length, by position. */
  ghost function AddedItems(d: Dag, ops: set<FullOp>, p: StatePath, len: nat): (r: seq<Tree>)
    requires Readable(d)
    ensures |r| == |AddedIndices(ops, p)|
    ensures forall j :: 0 <= j < |r| ==> r[j] == AddedItem(d, ops, p, len + j)
  {
    seq(|AddedIndices(ops, p)|, j requires 0 <= j => AddedItem(d, ops, p, len + j))
  }

  ghost function Patch(d: Dag, p: StatePath, t: Tree, ops: set<FullOp>): Tree
    requires Readable(d)
    decreases t, 1, 0
  {
    if exists op :: op in ops && Replaces(op, p) then
      var op :| op in ops && Replaces(op, p);
      TreeValue(d, op.after)
    else
      match t
      case Leaf(_) => t
      case TMap(m) => TMap(map k | k in (m.Keys - RemovedKeys(ops, p)) + AddedKeys(ops, p) ::
                        PatchEntry(d, p, t, ops, k))
      case TList(l) => TList(Kept(d, p, t, ops, |l|) + AddedItems(d, ops, p, |l|))
      case TSet(s) => TSet(s - RemovedTrees(d, ops, p) + AddedTrees(d, ops, p))
  }

  ghost function PatchEntry(d: Dag, p: StatePath, t: Tree, ops: set<FullOp>, k: string): Tree
    requires Readable(d) && t.TMap?
    decreases t, 0, 0
  {
    if exists op :: op in ops && AddsKey(op, p, k) then AddedValue(d, ops, p, k)
    else if k in t.entries then Patch(d, p + [Key(k)], t.entries[k], ops)
    else t
  }

  /** The first `n` positions of the old list, without the removed ones. */
  ghost function Kept(d: Dag, p: StatePath, t: Tree, ops: set<FullOp>, n: nat): seq<Tree>
    requires Readable(d) && t.TList? && n <= |t.items|
    decreases t, 0, n
  {
    if n == 0 then []
    else
      Kept(d, p, t, ops, n - 1) +
      if n - 1 in RemovedIndices(ops, p) then [] else [Patch(d, p + [Index(n - 1)], t.items[n - 1], ops)]
  }

  // ----- where ops lie

  ghost predicate AllUnder(p: StatePath, ops: seq<FullOp>) {
    forall op :: op in ops ==> p <= op.path
  }

  lemma {:induction false} DiffUnder(d: Dag, p: StatePath, x: Object, y: Object)
    requires Acyclic(d.store)
    ensures AllUnder(p, DiffObjects(d, p, x, y))
    decreases Height(d.store, x), 2
  {
    if x != y && x.MapNode? && y.MapNode? {
      KeysUnder(d, p, x, y, SortedKeys(x.entries.Keys - y.entries.Keys));
      KeysUnder(d, p, x, y, SortedKeys(y.entries.Keys - x.entries.Keys));
      KeysUnder(d, p, x, y, SortedKeys(x.entries.Keys * y.entries.Keys));
    } else if x != y && x.ListNode? && y.ListNode? {
      ListUnder(d, p, x, y, Max(|x.items|, |y.items|));
    }
  }

  lemma {:induction false} KeysUnder(d: Dag, p: StatePath, x: Object, y: Object, ks: seq<string>)
    requires Acyclic(d.store) && x.MapNode? && y.MapNode?
    ensures AllUnder(p, KeysOps(d, p, x, y, ks))
    decreases Height(d.store, x), 1, |ks|
  {
    if ks != [] {
      KeysUnder(d, p, x, y, ks[..|ks| - 1]);
      KeyUnder(d, p, x, y, ks[|ks| - 1]);
    }
  }

  /** A key's ops sit on its map when the key comes or goes, and below the key otherwise. */
  lemma {:induction false} KeyUnder(d: Dag, p: StatePath, x: Object, y: Object, k: string)
    requires Acyclic(d.store) && x.MapNode? && y.MapNode?
    ensures AllUnder(p, KeyOps(d, p, x, y, k))
    ensures k in x.entries && k in y.entries ==> AllUnder(p + [Key(k)], KeyOps(d, p, x, y, k))
    ensures !(k in x.entries && k in y.entries) ==> forall op :: op in KeyOps(d, p, x, y, k) ==> op.path == p
    decreases Height(d.store, x), 0, 1
  {
    if k in x.entries && k in y.entries {
      assert x.entries[k] in Children(x);
      if x.entries[k] != y.entries[k] {
        ChildUnder(d, p + [Key(k)], x, x.entries[k], y.entries[k]);
        Deeper(p, Key(k), DiffChild(d, p + [Key(k)], x, x.entries[k], y.entries[k]));
      }
    }
  }

  lemma Deeper(p: StatePath, c: PathComponent, ops: seq<FullOp>)
    requires AllUnder(p + [c], ops)
    ensures AllUnder(p, ops)
  {
    assert p <= p + [c];
  }

  lemma {:induction false} ChildUnder(d: Dag, p: StatePath, x: Object, i: ObjectId, j: ObjectId)
    requires Acyclic(d.store) && i in Children(x)
    ensures AllUnder(p, DiffChild(d, p, x, i, j))
    decreases Height(d.store, x), 0, 0
  {
    if i in d.store && j in d.store {
      ChildrenLower(d.store, x);
      DiffUnder(d, p, d.store[i], d.store[j]);
    }
  }

  lemma {:induction false} ListUnder(d: Dag, p: StatePath, x: Object, y: Object, n: nat)
    requires Acyclic(d.store) && x.ListNode? && y.ListNode?
    ensures AllUnder(p, DiffLists(d, p, x, y, n))
    decreases Height(d.store, x), 1, n
  {
    if n > 0 {
      ListUnder(d, p, x, y, n - 1);
      IndexUnder(d, p, x, y, n - 1);
    }
  }

  lemma {:induction false} IndexUnder(d: Dag, p: StatePath, x: Object, y: Object, n: nat)
    requires Acyclic(d.store) && x.ListNode? && y.ListNode?
    ensures AllUnder(p, IndexOps(d, p, x, y, n))
    ensures n < |x.items| && n < |y.items| ==> AllUnder(p + [Index(n)], IndexOps(d, p, x, y, n))
    ensures !(n < |x.items| && n < |y.items|) ==> forall op :: op in IndexOps(d, p, x, y, n) ==> op.path == p
    decreases Height(d.store, x), 0, 1
  {
    if n < |x.items| && n < |y.items| {
      assert x.items[n] in Children(x);
      if x.items[n] != y.items[n] {
        ChildUnder(d, p + [Index(n)], x, x.items[n], y.items[n]);
        Deeper(p, Index(n), DiffChild(d, p + [Index(n)], x, x.items[n], y.items[n]));
      }
    }
  }

  // ----- the patch theorem

  /** At `p` and below, `ops` holds exactly the ops of `own`. */
  ghost predicate Agrees(p: StatePath, ops: set<FullOp>, own: seq<FullOp>) {
    forall op: FullOp :: p <= op.path ==> (op in ops <==> op in own)
  }

  lemma AgreesHere(p: StatePath, ops: set<FullOp>, own: seq<FullOp>)
    requires Agrees(p, ops, own)
    ensures forall op: FullOp :: op.path == p ==> (op in ops <==> op in own)
  {
    assert p <= p;
  }

  lemma {:induction false} PatchNothing(d: Dag, p: StatePath, t: Tree, ops: set<FullOp>)
    requires Readable(d) && Agrees(p, ops, [])
    ensures Patch(d, p, t, ops) == t
    decreases t, 1, 0
  {
    AgreesHere(p, ops, []);
    match t
    case Leaf(_) =>
    case TMap(m) =>
      forall k | k in m ensures PatchEntry(d, p, t, ops, k) == m[k] {
        AgreesBelow(p, Key(k), ops, []);
        PatchNothing(d, p + [Key(k)], m[k], ops);
      }
      assert RemovedKeys(ops, p) == {} && AddedKeys(ops, p) == {};
      assert Patch(d, p, t, ops).entries == m;
    case TList(l) =>
      KeptAll(d, p, t, ops, |l|);
      assert AddedIndices(ops, p) == {};
      assert l[..|l|] + [] == l;
    case TSet(s) =>
      assert RemovedTrees(d, ops, p) == {} && AddedTrees(d, ops, p) == {};
      assert s - {} + {} == s;
  }

  lemma AgreesBelow(p: StatePath, c: PathComponent, ops: set<FullOp>, own: seq<FullOp>)
    requires Agrees(p, ops, own)
    ensures Agrees(p + [c], ops, own)
  {
    forall op: FullOp | p + [c] <= op.path ensures op in ops <==> op in own {
      assert p <= op.path;
    }
  }

  lemma {:induction false} KeptAll(d: Dag, p: StatePath, t: Tree, ops: set<FullOp>, n: nat)
    requires Readable(d) && t.TList? && n <= |t.items| && Agrees(p, ops, [])
    ensures Kept(d, p, t, ops, n) == t.items[..n]
    decreases t, 0, n
  {
    if n > 0 {
      KeptAll(d, p, t, ops, n - 1);
      AgreesHere(p, ops, []);
      AgreesBelow(p, Index(n - 1), ops, []);
      PatchNothing(d, p + [Index(n - 1)], t.items[n - 1], ops);
      assert t.items[..n] == t.items[..n - 1] + [t.items[n - 1]];
    }
  }

  lemma Replaced(d: Dag, p: StatePath, t: Tree, op: FullOp, ops: set<FullOp>, y: Object)
    requires Readable(d) && Children(y) <= d.store.Keys
    requires Replaces(op, p) && op.after == Some(y) && Agrees(p, ops, [op])
    ensures Patch(d, p, t, ops) == Expand(d, y)
  {
    AgreesHere(p, ops, [op]);
    assert op in [op] && op in ops;
    forall o | o in ops && Replaces(o, p) ensures o == op {
      assert o in [op];
    }
  }

  lemma {:induction false} PatchGivesNew(d: Dag, p: StatePath, x: Object, y: Object, ops: set<FullOp>)
    requires Sound(d) && Supported(d, x) && Supported(d, y) && Agrees(p, ops, DiffObjects(d, p, x, y))
    ensures Patch(d, p, Expand(d, x), ops) == Expand(d, y)
    decreases Height(d.store, x), 2
  {
    if x == y {
      PatchNothing(d, p, Expand(d, x), ops);
    } else if x.MapNode? && y.MapNode? {
      PatchMaps(d, p, x, y, ops);
    } else if x.ListNode? && y.ListNode? {
      PatchLists(d, p, x, y, ops);
    } else if x.SetNode? && y.SetNode? {
      PatchSets(d, p, x, y, ops);
    } else {
      var own := DiffObjects(d, p, x, y);
      assert own == [own[0]];
      Replaced(d, p, Expand(d, x), own[0], ops, y);
    }
  }

  // ----- maps

  ghost predicate OpOfKey(d: Dag, p: StatePath, x: Object, y: Object, k: string, op: FullOp)
    requires Acyclic(d.store) && x.MapNode? && y.MapNode?
  {
    op in KeyOps(d, p, x, y, k)
  }

  lemma {:induction false} KeysMembers(d: Dag, p: StatePath, x: Object, y: Object, ks: seq<string>, op: FullOp)
    requires Acyclic(d.store) && x.MapNode? && y.MapNode?
    ensures op in KeysOps(d, p, x, y, ks) <==> exists k :: k in ks && OpOfKey(d, p, x, y, k, op)
  {
    if ks != [] {
      var n := |ks| - 1;
      KeysMembers(d, p, x, y, ks[..n], op);
      assert ks == ks[..n] + [ks[n]];
      assert op in KeysOps(d, p, x, y, ks) <==>
        op in KeysOps(d, p, x, y, ks[..n]) || OpOfKey(d, p, x, y, ks[n], op);
    }
  }

  /** An op of the map diff is an op of one of its keys. */
  lemma MapMembers(d: Dag, p: StatePath, x: Object, y: Object, op: FullOp)
    requires Acyclic(d.store) && x.MapNode? && y.MapNode?
    ensures op in DiffMaps(d, p, x, y) <==> exists k :: OpOfKey(d, p, x, y, k, op)
  {
    var a, b, c := SortedKeys(x.entries.Keys - y.entries.Keys), SortedKeys(y.entries.Keys - x.entries.Keys),
                   SortedKeys(x.entries.Keys * y.entries.Keys);
    KeysMembers(d, p, x, y, a, op);
    KeysMembers(d, p, x, y, b, op);
    KeysMembers(d, p, x, y, c, op);
    if k :| OpOfKey(d, p, x, y, k, op) {
      assert k in a || k in b || k in c;
    }
  }

  /** The ops on the map itself are those of keys that went or came. */
  lemma MapHere(d: Dag, p: StatePath, x: Object, y: Object, op: FullOp)
    requires Acyclic(d.store) && x.MapNode? && y.MapNode? && op.path == p
    ensures op in DiffMaps(d, p, x, y) <==>
      || (op.RemoveKey? && op.key in x.entries && op.key !in y.entries && op.value == Resolve(d, x.entries[op.key]))
      || (op.AddKey? && op.key !in x.entries && op.key in y.entries && op.value == Resolve(d, y.entries[op.key]))
  {
    MapMembers(d, p, x, y, op);
    if k :| OpOfKey(d, p, x, y, k, op) {
      KeyUnder(d, p, x, y, k);
    }
    if op.RemoveKey? && op.key in x.entries && op.key !in y.entries && op.value == Resolve(d, x.entries[op.key]) {
      assert OpOfKey(d, p, x, y, op.key, op);
    }
    if op.AddKey? && op.key !in x.entries && op.key in y.entries && op.value == Resolve(d, y.entries[op.key]) {
      assert OpOfKey(d, p, x, y, op.key, op);
    }
  }

  /** Below a key of both maps the ops are those of that key. */
  lemma MapBelow(d: Dag, p: StatePath, x: Object, y: Object, k: string, op: FullOp)
    requires Acyclic(d.store) && x.MapNode? && y.MapNode? && p + [Key(k)] <= op.path
    ensures op in DiffMaps(d, p, x, y) <==> op in KeyOps(d, p, x, y, k)
  {
    assert OpOfKey(d, p, x, y, k, op) <==> op in KeyOps(d, p, x, y, k);
    MapMembers(d, p, x, y, op);
    if j :| OpOfKey(d, p, x, y, j, op) {
      KeyUnder(d, p, x, y, j);
      assert op.path != p;
      assert (p + [Key(j)])[|p|] == Key(j) && (p + [Key(k)])[|p|] == Key(k);
      assert j == k;
    }
  }

  lemma ChildAgrees(d: Dag, p: StatePath, x: Object, y: Object, ops: set<FullOp>, k: string)
    requires Sound(d) && Supported(d, x) && Supported(d, y) && x.MapNode? && y.MapNode?
    requires k in x.entries && k in y.entries && Agrees(p, ops, DiffMaps(d, p, x, y))
    ensures x.entries[k] in d.store && y.entries[k] in d.store
    ensures Agrees(p + [Key(k)], ops, DiffObjects(d, p + [Key(k)], d.store[x.entries[k]], d.store[y.entries[k]]))
  {
    assert x.entries[k] in Children(x) && y.entries[k] in Children(y);
    var own := DiffObjects(d, p + [Key(k)], d.store[x.entries[k]], d.store[y.entries[k]]);
    assert KeyOps(d, p, x, y, k) == own;
    forall op: FullOp | p + [Key(k)] <= op.path ensures op in ops <==> op in own {
      assert p <= op.path;
      MapBelow(d, p, x, y, k, op);
    }
  }

  /** What the map's own ops do to its keys. */
  ghost predicate MapEffect(d: Dag, p: StatePath, x: Object, y: Object, ops: set<FullOp>)
    requires x.MapNode? && y.MapNode?
  {
    forall op: FullOp :: op.path == p ==> (op in ops <==>
      || (op.RemoveKey? && op.key in x.entries && op.key !in y.entries && op.value == Resolve(d, x.entries[op.key]))
      || (op.AddKey? && op.key !in x.entries && op.key in y.entries && op.value == Resolve(d, y.entries[op.key])))
  }

  lemma KeysChange(d: Dag, p: StatePath, x: Object, y: Object, ops: set<FullOp>)
    requires x.MapNode? && y.MapNode? && MapEffect(d, p, x, y, ops)
    ensures !exists op :: op in ops && Replaces(op, p)
    ensures RemovedKeys(ops, p) == x.entries.Keys - y.entries.Keys
    ensures AddedKeys(ops, p) == y.entries.Keys - x.entries.Keys
  {
    forall k | k in x.entries && k !in y.entries ensures k in RemovedKeys(ops, p) {
      assert RemoveKey(p, k, Resolve(d, x.entries[k])) in ops;
    }
    forall k | k in y.entries && k !in x.entries ensures k in AddedKeys(ops, p) {
      assert AddKey(p, k, Resolve(d, y.entries[k])) in ops;
    }
  }

  lemma EntryAdded(d: Dag, p: StatePath, x: Object, y: Object, ops: set<FullOp>, t: Tree, k: string)
    requires Readable(d) && Children(y) <= d.store.Keys && x.MapNode? && y.MapNode? && t.TMap?
    requires MapEffect(d, p, x, y, ops) && k in y.entries && k !in x.entries
    ensures y.entries[k] in d.store && PatchEntry(d, p, t, ops, k) == ExpandId(d, y.entries[k])
  {
    assert y.entries[k] in Children(y);
    var op := AddKey(p, k, Resolve(d, y.entries[k]));
    assert op in ops && AddsKey(op, p, k);
  }

  lemma EntryKept(d: Dag, p: StatePath, x: Object, y: Object, ops: set<FullOp>, k: string)
    requires Readable(d) && Children(x) <= d.store.Keys && x.MapNode? && y.MapNode?
    requires MapEffect(d, p, x, y, ops) && k in x.entries
    ensures x.entries[k] in d.store && Expand(d, x).TMap?
    ensures PatchEntry(d, p, Expand(d, x), ops, k) == Patch(d, p + [Key(k)], ExpandId(d, x.entries[k]), ops)
  {
    assert x.entries[k] in Children(x);
    assert !exists op :: op in ops && AddsKey(op, p, k);
  }

  lemma {:induction false} PatchMaps(d: Dag, p: StatePath, x: Object, y: Object, ops: set<FullOp>)
    requires Sound(d) && Supported(d, x) && Supported(d, y) && x.MapNode? && y.MapNode?
    requires Agrees(p, ops, DiffMaps(d, p, x, y))
    ensures Patch(d, p, Expand(d, x), ops) == Expand(d, y)
    decreases Height(d.store, x), 1
  {
    AgreesHere(p, ops, DiffMaps(d, p, x, y));
    forall op: FullOp | op.path == p ensures op in DiffMaps(d, p, x, y) <==>
      || (op.RemoveKey? && op.key in x.entries && op.key !in y.entries && op.value == Resolve(d, x.entries[op.key]))
      || (op.AddKey? && op.key !in x.entries && op.key in y.entries && op.value == Resolve(d, y.entries[op.key]))
    {
      MapHere(d, p, x, y, op);
    }
    assert MapEffect(d, p, x, y, ops);
    forall k | k in y.entries ensures EntryRight(d, p, x, y, ops, k) {
      if k in x.entries {
        PatchChild(d, p, x, y, ops, k);
      } else {
        ExpandedMap(d, x);
        EntryAdded(d, p, x, y, ops, Expand(d, x), k);
      }
    }
    MapResult(d, p, x, y, ops);
  }

  ghost predicate EntryRight(d: Dag, p: StatePath, x: Object, y: Object, ops: set<FullOp>, k: string)
    requires Readable(d) && Children(x) <= d.store.Keys && x.MapNode? && y.MapNode? && k in y.entries
  {
    && Expand(d, x).TMap?
    && y.entries[k] in d.store
    && PatchEntry(d, p, Expand(d, x), ops, k) == ExpandId(d, y.entries[k])
  }

  lemma {:induction false} PatchChild(d: Dag, p: StatePath, x: Object, y: Object, ops: set<FullOp>, k: string)
    requires Sound(d) && Supported(d, x) && Supported(d, y) && x.MapNode? && y.MapNode?
    requires k in x.entries && k in y.entries
    requires Agrees(p, ops, DiffMaps(d, p, x, y)) && MapEffect(d, p, x, y, ops)
    ensures EntryRight(d, p, x, y, ops, k)
    decreases Height(d.store, x), 0
  {
    assert x.entries[k] in Children(x) && y.entries[k] in Children(y);
    StoredChild(d, x, x.entries[k]);
    StoredChild(d, y, y.entries[k]);
    ChildAgrees(d, p, x, y, ops, k);
    PatchGivesNew(d, p + [Key(k)], d.store[x.entries[k]], d.store[y.entries[k]], ops);
    EntryKept(d, p, x, y, ops, k);
  }

  lemma MapResult(d: Dag, p: StatePath, x: Object, y: Object, ops: set<FullOp>)
    requires Readable(d) && Children(x) <= d.store.Keys && Children(y) <= d.store.Keys && x.MapNode? && y.MapNode?
    requires MapEffect(d, p, x, y, ops)
    requires forall k :: k in y.entries ==> EntryRight(d, p, x, y, ops, k)
    ensures Patch(d, p, Expand(d, x), ops) == Expand(d, y)
  {
    KeysChange(d, p, x, y, ops);
    ExpandedMap(d, x);
    ExpandedMap(d, y);
    PatchedMap(d, p, Expand(d, x), ops, y.entries.Keys);
    var got, want := Patch(d, p, Expand(d, x), ops).entries, Expand(d, y).entries;
    forall k | k in y.entries ensures got[k] == want[k] {
      assert EntryRight(d, p, x, y, ops, k);
    }
    assert got == want;
  }

  lemma PatchedMap(d: Dag, p: StatePath, t: Tree, ops: set<FullOp>, keys: set<string>)
    requires Readable(d) && t.TMap? && !exists op :: op in ops && Replaces(op, p)
    requires RemovedKeys(ops, p) == t.entries.Keys - keys && AddedKeys(ops, p) == keys - t.entries.Keys
    ensures Patch(d, p, t, ops).TMap? && Patch(d, p, t, ops).entries.Keys == keys
    ensures forall k :: k in keys ==> Patch(d, p, t, ops).entries[k] == PatchEntry(d, p, t, ops, k)
  {
  }

  // ----- lists

  ghost function Items(d: Dag, o: Object, lo: nat, hi: nat): (r: seq<Tree>)
    requires Readable(d) && Children(o) <= d.store.Keys && o.ListNode? && lo <= hi <= |o.items|
    ensures |r| == hi - lo
  {
    seq(hi - lo, i requires 0 <= i < hi - lo => assert o.items[lo + i] in Children(o); ExpandId(d, o.items[lo + i]))
  }

  ghost predicate OpOfIndex(d: Dag, p: StatePath, x: Object, y: Object, i: nat, op: FullOp)
    requires Acyclic(d.store) && x.ListNode? && y.ListNode?
  {
    op in IndexOps(d, p, x, y, i)
  }

  lemma {:induction false} ListMembers(d: Dag, p: StatePath, x: Object, y: Object, n: nat, op: FullOp)
    requires Acyclic(d.store) && x.ListNode? && y.ListNode?
    ensures op in DiffLists(d, p, x, y, n) <==> exists i: nat :: i < n && OpOfIndex(d, p, x, y, i, op)
  {
    if n > 0 {
      ListMembers(d, p, x, y, n - 1, op);
      assert op in DiffLists(d, p, x, y, n) <==>
        op in DiffLists(d, p, x, y, n - 1) || OpOfIndex(d, p, x, y, n - 1, op);
    }
  }

  ghost predicate ListOp(d: Dag, x: Object, y: Object, op: FullOp)
    requires x.ListNode? && y.ListNode?
  {
    || (op.RemoveElement? && |y.items| <= op.index < |x.items| && op.value == Resolve(d, x.items[op.index]))
    || (op.AddElement? && |x.items| <= op.index < |y.items| && op.value == Resolve(d, y.items[op.index]))
  }

  /** The ops on the list itself drop its tail or grow one. */
  lemma ListHere(d: Dag, p: StatePath, x: Object, y: Object, op: FullOp)
    requires Acyclic(d.store) && x.ListNode? && y.ListNode? && op.path == p
    ensures op in DiffLists(d, p, x, y, Max(|x.items|, |y.items|)) <==> ListOp(d, x, y, op)
  {
    var max := Max(|x.items|, |y.items|);
    ListMembers(d, p, x, y, max, op);
    if i: nat :| i < max && OpOfIndex(d, p, x, y, i, op) {
      IndexUnder(d, p, x, y, i);
    }
    if ListOp(d, x, y, op) {
      assert OpOfIndex(d, p, x, y, op.index, op);
    }
  }

  lemma ListBelow(d: Dag, p: StatePath, x: Object, y: Object, i: nat, op: FullOp)
    requires Acyclic(d.store) && x.ListNode? && y.ListNode? && i < |x.items| && p + [Index(i)] <= op.path
    ensures op in DiffLists(d, p, x, y, Max(|x.items|, |y.items|)) <==> op in IndexOps(d, p, x, y, i)
  {
    assert OpOfIndex(d, p, x, y, i, op) <==> op in IndexOps(d, p, x, y, i);
    var max := Max(|x.items|, |y.items|);
    ListMembers(d, p, x, y, max, op);
    if j: nat :| j < max && OpOfIndex(d, p, x, y, j, op) {
      IndexUnder(d, p, x, y, j);
      assert op.path != p;
      assert (p + [Index(j)])[|p|] == Index(j) && (p + [Index(i)])[|p|] == Index(i);
      assert j == i;
    }
  }

  lemma ItemAgrees(d: Dag, p: StatePath, x: Object, y: Object, ops: set<FullOp>, i: nat)
    requires Sound(d) && Supported(d, x) && Supported(d, y) && x.ListNode? && y.ListNode?
    requires i < |x.items| && i < |y.items|
    requires Agrees(p, ops, DiffLists(d, p, x, y, Max(|x.items|, |y.items|)))
    ensures x.items[i] in d.store && y.items[i] in d.store
    ensures Agrees(p + [Index(i)], ops, DiffObjects(d, p + [Index(i)], d.store[x.items[i]], d.store[y.items[i]]))
  {
    assert x.items[i] in Children(x) && y.items[i] in Children(y);
    var own := DiffObjects(d, p + [Index(i)], d.store[x.items[i]], d.store[y.items[i]]);
    assert IndexOps(d, p, x, y, i) == own;
    forall op: FullOp | p + [Index(i)] <= op.path ensures op in ops <==> op in own {
      assert p <= op.path;
      ListBelow(d, p, x, y, i, op);
    }
  }

  ghost predicate ListEffect(d: Dag, p: StatePath, x: Object, y: Object, ops: set<FullOp>)
    requires x.ListNode? && y.ListNode?
  {
    forall op: FullOp :: op.path == p ==> (op in ops <==> ListOp(d, x, y, op))
  }

  lemma TailChanges(d: Dag, p: StatePath, x: Object, y: Object, ops: set<FullOp>)
    requires x.ListNode? && y.ListNode? && ListEffect(d, p, x, y, ops)
    ensures !exists op :: op in ops && Replaces(op, p)
    ensures forall i :: i in RemovedIndices(ops, p) <==> |y.items| <= i < |x.items|
    ensures forall i :: i in AddedIndices(ops, p) <==> |x.items| <= i < |y.items|
  {
    forall i: nat | |y.items| <= i < |x.items| ensures i in RemovedIndices(ops, p) {
      assert RemoveElement(p, i, Resolve(d, x.items[i])) in ops;
    }
    forall i: nat | |x.items| <= i < |y.items| ensures i in AddedIndices(ops, p) {
      assert AddElement(p, i, Resolve(d, y.items[i])) in ops;
    }
  }

  lemma {:induction false} RangeSize(s: set<nat>, lo: nat, hi: nat)
    requires forall i :: i in s <==> lo <= i < hi
    ensures |s| == if lo < hi then hi - lo else 0
  {
    if lo < hi {
      var rest := s - {hi - 1};
      RangeSize(rest, lo, hi - 1);
      assert s == rest + {hi - 1};
    } else {
      assert s == {};
    }
  }

  lemma GrownItems(d: Dag, p: StatePath, x: Object, y: Object, ops: set<FullOp>)
    requires Readable(d) && Children(y) <= d.store.Keys && x.ListNode? && y.ListNode? && ListEffect(d, p, x, y, ops)
    requires forall i :: i in AddedIndices(ops, p) <==> |x.items| <= i < |y.items|
    ensures AddedItems(d, ops, p, |x.items|) ==
      if |x.items| < |y.items| then Items(d, y, |x.items|, |y.items|) else []
  {
    RangeSize(AddedIndices(ops, p), |x.items|, |y.items|);
    var got := AddedItems(d, ops, p, |x.items|);
    forall j | 0 <= j < |got| ensures got[j] == Items(d, y, |x.items|, |y.items|)[j] {
      var i := |x.items| + j;
      ItemAt(d, y, |x.items|, |y.items|, j);
      var op := AddElement(p, i, Resolve(d, y.items[i]));
      assert op in ops && AddsItem(op, p, i);
      assert AddedItem(d, ops, p, i) == TreeValue(d, op.value);
    }
  }

  lemma ItemAt(d: Dag, o: Object, lo: nat, hi: nat, i: nat)
    requires Readable(d) && Children(o) <= d.store.Keys && o.ListNode? && lo <= hi <= |o.items| && i < hi - lo
    ensures o.items[lo + i] in d.store && Items(d, o, lo, hi)[i] == ExpandId(d, o.items[lo + i])
  {
    assert o.items[lo + i] in Children(o);
  }

  lemma ItemsGrow(d: Dag, o: Object, lo: nat, hi: nat)
    requires Readable(d) && Children(o) <= d.store.Keys && o.ListNode? && lo <= hi < |o.items|
    ensures o.items[hi] in d.store && Items(d, o, lo, hi + 1) == Items(d, o, lo, hi) + [ExpandId(d, o.items[hi])]
  {
    assert o.items[hi] in Children(o);
  }

  lemma ListItem(d: Dag, o: Object, i: nat)
    requires Readable(d) && Children(o) <= d.store.Keys && o.ListNode? && i < |o.items|
    ensures |Expand(d, o).items| == |o.items| && o.items[i] in d.store
    ensures Expand(d, o).items[i] == ExpandId(d, o.items[i])
  {
    assert o.items[i] in Children(o);
  }

  lemma {:induction false} PatchItems(d: Dag, p: StatePath, x: Object, y: Object, ops: set<FullOp>, n: nat)
    requires Sound(d) && Supported(d, x) && Supported(d, y) && x.ListNode? && y.ListNode? && n <= |x.items|
    requires Agrees(p, ops, DiffLists(d, p, x, y, Max(|x.items|, |y.items|)))
    requires forall i :: i in RemovedIndices(ops, p) <==> |y.items| <= i < |x.items|
    ensures Kept(d, p, Expand(d, x), ops, n) == Items(d, y, 0, if n < |y.items| then n else |y.items|)
    decreases Height(d.store, x), 0, n
  {
    if n > 0 {
      PatchItems(d, p, x, y, ops, n - 1);
      ListItem(d, x, n - 1);
      if n - 1 < |y.items| {
        PatchItem(d, p, x, y, ops, n - 1);
        ItemsGrow(d, y, 0, n - 1);
      }
    }
  }

  lemma {:induction false} PatchItem(d: Dag, p: StatePath, x: Object, y: Object, ops: set<FullOp>, i: nat)
    requires Sound(d) && Supported(d, x) && Supported(d, y) && x.ListNode? && y.ListNode?
    requires i < |x.items| && i < |y.items|
    requires Agrees(p, ops, DiffLists(d, p, x, y, Max(|x.items|, |y.items|)))
    ensures x.items[i] in d.store && y.items[i] in d.store
    ensures Patch(d, p + [Index(i)], ExpandId(d, x.items[i]), ops) == ExpandId(d, y.items[i])
    decreases Height(d.store, x), 0, 0
  {
    assert x.items[i] in Children(x) && y.items[i] in Children(y);
    StoredChild(d, x, x.items[i]);
    StoredChild(d, y, y.items[i]);
    ItemAgrees(d, p, x, y, ops, i);
    PatchGivesNew(d, p + [Index(i)], d.store[x.items[i]], d.store[y.items[i]], ops);
  }

  lemma {:induction false} PatchLists(d: Dag, p: StatePath, x: Object, y: Object, ops: set<FullOp>)
    requires Sound(d) && Supported(d, x) && Supported(d, y) && x.ListNode? && y.ListNode?
    requires Agrees(p, ops, DiffLists(d, p, x, y, Max(|x.items|, |y.items|)))
    ensures Patch(d, p, Expand(d, x), ops) == Expand(d, y)
    decreases Height(d.store, x), 1
  {
    AgreesHere(p, ops, DiffLists(d, p, x, y, Max(|x.items|, |y.items|)));
    forall op: FullOp | op.path == p ensures op in ops <==> ListOp(d, x, y, op) {
      ListHere(d, p, x, y, op);
    }
    TailChanges(d, p, x, y, ops);
    GrownItems(d, p, x, y, ops);
    PatchItems(d, p, x, y, ops, |x.items|);
    ListResult(d, p, x, y, ops);
  }

  lemma ListResult(d: Dag, p: StatePath, x: Object, y: Object, ops: set<FullOp>)
    requires Readable(d) && Children(x) <= d.store.Keys && Children(y) <= d.store.Keys && x.ListNode? && y.ListNode?
    requires !exists op :: op in ops && Replaces(op, p)
    requires AddedItems(d, ops, p, |x.items|) ==
      if |x.items| < |y.items| then Items(d, y, |x.items|, |y.items|) else []
    requires Kept(d, p, Expand(d, x), ops, |x.items|) ==
      Items(d, y, 0, if |x.items| < |y.items| then |x.items| else |y.items|)
    ensures Patch(d, p, Expand(d, x), ops) == Expand(d, y)
  {
    var n := if |x.items| < |y.items| then |x.items| else |y.items|;
    WholeList(d, y, n);
    assert |Expand(d, x).items| == |x.items|;
    assert Items(d, y, 0, n) + AddedItems(d, ops, p, |x.items|) == Expand(d, y).items;
  }

  lemma WholeList(d: Dag, o: Object, n: nat)
    requires Readable(d) && Children(o) <= d.store.Keys && o.ListNode? && n <= |o.items|
    ensures Items(d, o, 0, n) + Items(d, o, n, |o.items|) == Expand(d, o).items
  {
    var got := Items(d, o, 0, n) + Items(d, o, n, |o.items|);
    forall i | 0 <= i < |o.items| ensures got[i] == Expand(d, o).items[i] {
      ListItem(d, o, i);
      if i < n {
        ItemAt(d, o, 0, n, i);
      } else {
        ItemAt(d, o, n, |o.items|, i - n);
      }
    }
    assert |Expand(d, o).items| == |o.items|;
  }

  // ----- sets

  ghost predicate SetOp(d: Dag, x: Object, y: Object, op: FullOp)
    requires x.SetNode? && y.SetNode?
  {
    || (op.RemoveFromSet? && exists i :: i in Children(x) && i !in Children(y) && op.value == Resolve(d, i))
    || (op.AddToSet? && exists i :: i in Children(y) && i !in Children(x) && op.value == Resolve(d, i))
  }

  lemma SetPaths(d: Dag, p: StatePath, x: Object, y: Object, f: FullOp)
    requires x.SetNode? && y.SetNode? && f in DiffSets(d, p, x, y)
    ensures f.path == p
  {
  }

  lemma SetHere(d: Dag, p: StatePath, x: Object, y: Object, op: FullOp)
    requires x.SetNode? && y.SetNode? && op.path == p
    ensures op in DiffSets(d, p, x, y) <==> SetOp(d, x, y, op)
  {
    var gone := SortedIds(Elements(x.members) - Elements(y.members));
    var came := SortedIds(Elements(y.members) - Elements(x.members));
    assert Elements(x.members) == Children(x) && Elements(y.members) == Children(y);
    var r, a := RemovedMembers(d, p, gone), AddedMembers(d, p, came);
    assert op in r + a <==> op in r || op in a;
    if op.RemoveFromSet? {
      if i :| i in Children(x) && i !in Children(y) && op.value == Resolve(d, i) {
        assert i in gone;
        var n :| 0 <= n < |gone| && gone[n] == i;
        assert r[n] == op;
      }
      if op in r {
        var n :| 0 <= n < |r| && r[n] == op;
        assert gone[n] in gone;
      }
    }
    if op.AddToSet? {
      if i :| i in Children(y) && i !in Children(x) && op.value == Resolve(d, i) {
        assert i in came;
        var n :| 0 <= n < |came| && came[n] == i;
        assert a[n] == op;
      }
      if op in a {
        var n :| 0 <= n < |a| && a[n] == op;
        assert came[n] in came;
      }
    }
  }

  lemma PatchSets(d: Dag, p: StatePath, x: Object, y: Object, ops: set<FullOp>)
    requires Sound(d) && Supported(d, x) && Supported(d, y) && x.SetNode? && y.SetNode?
    requires Agrees(p, ops, DiffSets(d, p, x, y))
    ensures Patch(d, p, Expand(d, x), ops) == Expand(d, y)
  {
    AgreesHere(p, ops, DiffSets(d, p, x, y));
    forall op: FullOp | op.path == p ensures op in ops <==> SetOp(d, x, y, op) {
      SetHere(d, p, x, y, op);
    }
    MembersChange(d, p, x, y, ops);
    SetsExchange(d, x, y, RemovedTrees(d, ops, p), AddedTrees(d, ops, p));
  }

  lemma MembersChange(d: Dag, p: StatePath, x: Object, y: Object, ops: set<FullOp>)
    requires Readable(d) && Children(x) <= d.store.Keys && Children(y) <= d.store.Keys && x.SetNode? && y.SetNode?
    requires forall op: FullOp :: op.path == p ==> (op in ops <==> SetOp(d, x, y, op))
    ensures !exists op :: op in ops && Replaces(op, p)
    ensures forall t :: t in RemovedTrees(d, ops, p) <==>
      exists i :: i in Children(x) && i !in Children(y) && ExpandId(d, i) == t
    ensures forall t :: t in AddedTrees(d, ops, p) <==>
      exists i :: i in Children(y) && i !in Children(x) && ExpandId(d, i) == t
  {
    forall i | i in Children(x) && i !in Children(y) ensures ExpandId(d, i) in RemovedTrees(d, ops, p) {
      assert RemoveFromSet(p, Resolve(d, i)) in ops;
    }
    forall i | i in Children(y) && i !in Children(x) ensures ExpandId(d, i) in AddedTrees(d, ops, p) {
      assert AddToSet(p, Resolve(d, i)) in ops;
    }
    forall op | op in ops && op.path == p && op.RemoveFromSet?
      ensures exists i :: i in Children(x) && i !in Children(y) && ExpandId(d, i) == TreeValue(d, op.value)
    {
      var i :| i in Children(x) && i !in Children(y) && op.value == Resolve(d, i);
      assert ExpandId(d, i) == TreeValue(d, op.value);
    }
    forall op | op in ops && op.path == p && op.AddToSet?
      ensures exists i :: i in Children(y) && i !in Children(x) && ExpandId(d, i) == TreeValue(d, op.value)
    {
      var i :| i in Children(y) && i !in Children(x) && op.value == Resolve(d, i);
      assert ExpandId(d, i) == TreeValue(d, op.value);
    }
  }

  lemma SetsExchange(d: Dag, x: Object, y: Object, gone: set<Tree>, came: set<Tree>)
    requires Sound(d) && Supported(d, x) && Supported(d, y) && x.SetNode? && y.SetNode?
    requires forall t :: t in gone <==> exists i :: i in Children(x) && i !in Children(y) && ExpandId(d, i) == t
    requires forall t :: t in came <==> exists i :: i in Children(y) && i !in Children(x) && ExpandId(d, i) == t
    ensures Expand(d, x).members - gone + came == Expand(d, y).members
  {
    forall t ensures t in Expand(d, x).members - gone + came <==> t in Expand(d, y).members {
      MemberOf(d, x, t);
      MemberOf(d, y, t);
      if t in Expand(d, y).members {
        var j :| j in Children(y) && ExpandId(d, j) == t;
        if j in Children(x) && t in gone {
          var i :| i in Children(x) && i !in Children(y) && ExpandId(d, i) == t;
          IdsStandForTrees(d, i, j);
        }
      } else if t in Expand(d, x).members {
        var i :| i in Children(x) && ExpandId(d, i) == t;
        assert i !in Children(y);
      }
    }
  }

  // ----- what `diff` promises

  ghost function OpSet(ops: seq<FullOp>): set<FullOp> {
    set op | op in ops
  }

  /** The ops of `diff` turn the old tree into the new one. */
  lemma DiffIsAPatch(d: Dag, before: ObjectId, after: ObjectId)
    requires Sound(d) && before in d.store && after in d.store
    ensures Patch(d, [], ExpandId(d, before), OpSet(DiffRoots(d, before, after))) == ExpandId(d, after)
  {
    var ops := DiffRoots(d, before, after);
    assert ops == DiffObjects(d, [], d.store[before], d.store[after]);
    PatchGivesNew(d, [], d.store[before], d.store[after], OpSet(ops));
  }

  /** No ops exactly when the ids, and so the trees, are equal. */
  lemma EmptyDiffMeansEqual(d: Dag, before: ObjectId, after: ObjectId)
    requires Sound(d) && before in d.store && after in d.store
    ensures DiffRoots(d, before, after) == [] <==> before == after
    ensures DiffRoots(d, before, after) == [] <==> ExpandId(d, before) == ExpandId(d, after)
  {
    IdsStandForTrees(d, before, after);
    if DiffRoots(d, before, after) == [] {
      DiffIsAPatch(d, before, after);
      assert OpSet([]) == {};
      PatchNothing(d, [], ExpandId(d, before), {});
    }
  }
}

/**
 The emitted diff, told from the two trees alone: an op is emitted exactly when it states a
 difference between the values the trees have at the place its path prints.
 */
module DiffTruth {
  import opened Order
  import opened Decimal
  import opened Objects
  import opened Dags
  import opened Trees
  import opened Paths
  import opened Diff
  import opened DiffPatch
  import opened DiffMerge
  import opened DiffDistinct

  // ----- what a printed value shows

  /** The atom a diff value was printed from. */
  function AtomShown(v: DiffValue): Option<Atom> {
    match v
    case DNull => Some(Null)
    case DBool(b) => Some(Bool(b))
    case DInt(i) => Some(Int(i))
    case DUInt(u) => Some(UInt(u))
    case DFloat(f) => Some(Float(f))
    case DString(s) => Some(Str(s))
    case DBytes(bs) => Some(Bytes(bs))
    case DComplex(_) => None
  }

  /** An atom can be read back from its value; of a container the value shows kind and size. */
  ghost predicate Shows(v: DiffValue, t: Tree) {
    match t
    case Leaf(a) => AtomShown(v) == Some(a)
    case TMap(m) => v == DComplex("{map: " + Dec(|m|) + " keys}")
    case TList(l) => v == DComplex("[list: " + Dec(|l|) + " items]")
    case TSet(s) => v == DComplex("{set: " + Dec(|s|) + " items}")
  }

  /** The name of a tree's type. Both integer atoms are "int". */
  ghost predicate Names(name: string, t: Tree) {
    match t
    case Leaf(Null) => name == "null"
    case Leaf(Bool(_)) => name == "bool"
    case Leaf(Int(_)) => name == "int"
    case Leaf(UInt(_)) => name == "int"
    case Leaf(Float(_)) => name == "float"
    case Leaf(Str(_)) => name == "string"
    case Leaf(Bytes(_)) => name == "bytes"
    case TMap(_) => name == "map"
    case TList(_) => name == "list"
    case TSet(_) => name == "set"
  }

  lemma ShownValue(d: Dag, o: Object, v: DiffValue)
    requires Sound(d) && Supported(d, o)
    ensures Shows(v, Expand(d, o)) <==> v == ValueOf(Some(o))
  {
    match o
    case AtomObject(_) =>
    case MapNode(m) => assert Expand(d, o).entries.Keys == m.Keys;
    case ListNode(_) =>
    case SetNode(_) => SetSize(d, o);
  }

  lemma ShownById(d: Dag, id: ObjectId, v: DiffValue)
    requires Sound(d) && id in d.store
    ensures Shows(v, ExpandId(d, id)) <==> v == ValueOf(Resolve(d, id))
  {
    assert Supported(d, d.store[id]);
    ShownValue(d, d.store[id], v);
  }

  lemma NamedType(d: Dag, o: Object, name: string)
    requires Readable(d) && Children(o) <= d.store.Keys
    ensures Names(name, Expand(d, o)) <==> name == TypeName(o)
  {
  }

  // ----- differences

  predicate SameKind(t: Tree, u: Tree) {
    || (t.Leaf? && u.Leaf?) || (t.TMap? && u.TMap?) || (t.TList? && u.TList?) || (t.TSet? && u.TSet?)
  }

  ghost predicate ShowsOnlyIn(v: DiffValue, s: set<Tree>, r: set<Tree>) {
    exists m :: m in s && m !in r && Shows(v, m)
  }

  /** The op states a difference between the old node `t` and the new node `u`. */
  ghost predicate Differs(op: DiffOp, t: Tree, u: Tree) {
    match op
    case SetValueOp(_, v, w) => t.Leaf? && u.Leaf? && t != u && Shows(v, t) && Shows(w, u)
    case AddKeyOp(_, k, v) =>
      t.TMap? && u.TMap? && k !in t.entries && k in u.entries && Shows(v, u.entries[k])
    case RemoveKeyOp(_, k, v) =>
      t.TMap? && u.TMap? && k in t.entries && k !in u.entries && Shows(v, t.entries[k])
    case AddElementOp(_, i, v) =>
      t.TList? && u.TList? && |t.items| <= i < |u.items| && Shows(v, u.items[i])
    case RemoveElementOp(_, i, v) =>
      t.TList? && u.TList? && |u.items| <= i < |t.items| && Shows(v, t.items[i])
    case AddToSetOp(_, v) => t.TSet? && u.TSet? && ShowsOnlyIn(v, u.members, t.members)
    case RemoveFromSetOp(_, v) => t.TSet? && u.TSet? && ShowsOnlyIn(v, t.members, u.members)
    case ChangeTypeOp(_, a, b) => !SameKind(t, u) && Names(a, t) && Names(b, u)
  }

  function ChildOf(t: Tree, c: PathComponent): (r: Option<Tree>)
    ensures r.Some? ==> r.value < t
  {
    match c
    case Key(k) => if t.TMap? && k in t.entries then Some(t.entries[k]) else None
    case Index(i) => if t.TList? && i < |t.items| then Some(t.items[i]) else None
  }

  function TreeAt(t: Tree, q: StatePath): Option<Tree>
    decreases |q|
  {
    if q == [] then Some(t)
    else
      match ChildOf(t, q[0])
      case None => None
      case Some(c) => TreeAt(c, q[1..])
  }

  ghost predicate DiffersAt(op: DiffOp, q: StatePath, t: Tree, u: Tree) {
    TreeAt(t, q).Some? && TreeAt(u, q).Some? && Differs(op, TreeAt(t, q).value, TreeAt(u, q).value)
  }

  /** At a place both trees have, printed by the op's path, the op states a difference. */
  ghost predicate TrueUnder(op: DiffOp, p: StatePath, q: StatePath, t: Tree, u: Tree) {
    op.path == Print(p + q) && DiffersAt(op, q, t, u)
  }

  ghost predicate States(op: DiffOp, p: StatePath, t: Tree, u: Tree) {
    exists q :: TrueUnder(op, p, q, t, u)
  }

  lemma NothingWithin(op: DiffOp, p: StatePath, t: Tree)
    ensures !States(op, p, t, t)
  {
  }

  lemma StatesBelow(op: DiffOp, p: StatePath, c: PathComponent, t: Tree, u: Tree)
    requires ChildOf(t, c).Some? && ChildOf(u, c).Some?
    requires States(op, p + [c], ChildOf(t, c).value, ChildOf(u, c).value)
    ensures States(op, p, t, u)
  {
    var q :| TrueUnder(op, p + [c], q, ChildOf(t, c).value, ChildOf(u, c).value);
    TrueBelow(op, p, c, q, t, u);
  }

  lemma TrueBelow(op: DiffOp, p: StatePath, c: PathComponent, q: StatePath, t: Tree, u: Tree)
    requires ChildOf(t, c).Some? && ChildOf(u, c).Some?
    ensures TrueUnder(op, p, [c] + q, t, u) <==> TrueUnder(op, p + [c], q, ChildOf(t, c).value, ChildOf(u, c).value)
  {
    Assoc(p, [c], q);
    DiffersBelow(op, c, q, t, u);
  }

  lemma DiffersBelow(op: DiffOp, c: PathComponent, q: StatePath, t: Tree, u: Tree)
    requires ChildOf(t, c).Some? && ChildOf(u, c).Some?
    ensures DiffersAt(op, [c] + q, t, u) <==> DiffersAt(op, q, ChildOf(t, c).value, ChildOf(u, c).value)
  {
    AtBelow(t, c, q);
    AtBelow(u, c, q);
  }

  lemma AtBelow(t: Tree, c: PathComponent, q: StatePath)
    requires ChildOf(t, c).Some?
    ensures TreeAt(t, [c] + q) == TreeAt(ChildOf(t, c).value, q)
  {
    assert ([c] + q)[1..] == q;
  }

  /** A stated difference is at the node, or below a component both have. */
  lemma StatesWhere(op: DiffOp, p: StatePath, t: Tree, u: Tree) returns (c: Option<PathComponent>)
    requires States(op, p, t, u)
    ensures c.None? ==> op.path == Print(p) && Differs(op, t, u)
    ensures c.Some? ==>
      && ChildOf(t, c.value).Some? && ChildOf(u, c.value).Some?
      && States(op, p + [c.value], ChildOf(t, c.value).value, ChildOf(u, c.value).value)
  {
    var q :| TrueUnder(op, p, q, t, u);
    if q == [] {
      c := None;
      TrueHere(op, p, t, u);
    } else {
      c := Some(q[0]);
      HasChild(t, q);
      HasChild(u, q);
      assert q == [q[0]] + q[1..];
      TrueBelow(op, p, q[0], q[1..], t, u);
    }
  }

  lemma HasChild(t: Tree, q: StatePath)
    requires q != [] && TreeAt(t, q).Some?
    ensures ChildOf(t, q[0]).Some?
  {
  }

  lemma StatesHere(op: DiffOp, p: StatePath, t: Tree, u: Tree)
    requires op.path == Print(p) && Differs(op, t, u)
    ensures States(op, p, t, u)
  {
    TrueHere(op, p, t, u);
  }

  lemma TrueHere(op: DiffOp, p: StatePath, t: Tree, u: Tree)
    ensures TrueUnder(op, p, [], t, u) <==> op.path == Print(p) && Differs(op, t, u)
  {
    assert p + [] == p;
  }

  // ----- what a stream emits

  ghost predicate EmittedBy(ops: seq<FullOp>, op: DiffOp) {
    exists f :: f in ops && Summarise(f) == op
  }

  lemma EmittedKept(ops: seq<FullOp>, more: seq<FullOp>, op: DiffOp)
    requires EmittedBy(ops, op) && forall f :: f in ops ==> f in more
    ensures EmittedBy(more, op)
  {
  }

  lemma {:induction false} EmitsDifferences(d: Dag, p: StatePath, x: Object, y: Object, op: DiffOp)
    requires Sound(d) && Supported(d, x) && Supported(d, y)
    ensures EmittedBy(DiffObjects(d, p, x, y), op) <==> States(op, p, Expand(d, x), Expand(d, y))
    decreases Height(d.store, x), 2
  {
    if x == y {
      NothingWithin(op, p, Expand(d, x));
    } else if x.MapNode? && y.MapNode? {
      MapsEmit(d, p, x, y, op);
    } else if x.ListNode? && y.ListNode? {
      ListsEmit(d, p, x, y, op);
    } else if x.SetNode? && y.SetNode? {
      SetsEmit(d, p, x, y, op);
    } else {
      OneOpEmits(d, p, x, y, op);
    }
  }

  // ----- atoms, and changes of type

  lemma OneOpEmits(d: Dag, p: StatePath, x: Object, y: Object, op: DiffOp)
    requires Sound(d) && Supported(d, x) && Supported(d, y) && x != y
    requires !(x.MapNode? && y.MapNode?) && !(x.ListNode? && y.ListNode?) && !(x.SetNode? && y.SetNode?)
    ensures EmittedBy(DiffObjects(d, p, x, y), op) <==> States(op, p, Expand(d, x), Expand(d, y))
  {
    ObjectsStandForTrees(d, x, y);
    LoneOp(d, p, x, y, op);
    EmittedAlone(DiffObjects(d, p, x, y), op);
    StatedAlone(op, p, Expand(d, x), Expand(d, y));
  }

  lemma EmittedAlone(ops: seq<FullOp>, op: DiffOp)
    requires |ops| == 1
    ensures EmittedBy(ops, op) <==> Summarise(ops[0]) == op
  {
    assert ops == [ops[0]] && ops[0] in ops;
  }

  /** Without a component in common a difference is at the node. */
  lemma StatedAlone(op: DiffOp, p: StatePath, t: Tree, u: Tree)
    requires !(t.TMap? && u.TMap?) && !(t.TList? && u.TList?)
    ensures States(op, p, t, u) <==> op.path == Print(p) && Differs(op, t, u)
  {
    if States(op, p, t, u) {
      var c := StatesWhere(op, p, t, u);
    } else if op.path == Print(p) && Differs(op, t, u) {
      StatesHere(op, p, t, u);
    }
  }

  lemma LoneOp(d: Dag, p: StatePath, x: Object, y: Object, op: DiffOp)
    requires Sound(d) && Supported(d, x) && Supported(d, y) && x != y && Expand(d, x) != Expand(d, y)
    requires !(x.MapNode? && y.MapNode?) && !(x.ListNode? && y.ListNode?) && !(x.SetNode? && y.SetNode?)
    ensures |DiffObjects(d, p, x, y)| == 1
    ensures Summarise(DiffObjects(d, p, x, y)[0]) == op <==>
      op.path == Print(p) && Differs(op, Expand(d, x), Expand(d, y))
  {
    LoneFullOp(d, p, x, y);
    if x.AtomObject? && y.AtomObject? {
      AtomsDiffer(d, x, y, op);
    } else {
      KindsDiffer(d, x, y, op);
    }
  }

  lemma LoneFullOp(d: Dag, p: StatePath, x: Object, y: Object)
    requires Acyclic(d.store) && x != y
    requires !(x.MapNode? && y.MapNode?) && !(x.ListNode? && y.ListNode?) && !(x.SetNode? && y.SetNode?)
    ensures DiffObjects(d, p, x, y) ==
      [if x.AtomObject? && y.AtomObject? then SetValue(p, Some(x), Some(y)) else ChangeType(p, Some(x), Some(y))]
  {
  }

  lemma AtomsDiffer(d: Dag, x: Object, y: Object, op: DiffOp)
    requires Sound(d) && Supported(d, x) && Supported(d, y) && x.AtomObject? && y.AtomObject?
    requires Expand(d, x) != Expand(d, y)
    ensures Differs(op, Expand(d, x), Expand(d, y)) <==>
      op.SetValueOp? && op.before == ValueOf(Some(x)) && op.after == ValueOf(Some(y))
  {
    if op.SetValueOp? {
      ShownValue(d, x, op.before);
      ShownValue(d, y, op.after);
    }
  }

  lemma KindsDiffer(d: Dag, x: Object, y: Object, op: DiffOp)
    requires Sound(d) && Supported(d, x) && Supported(d, y) && !SameKind(Expand(d, x), Expand(d, y))
    ensures Differs(op, Expand(d, x), Expand(d, y)) <==>
      op.ChangeTypeOp? && op.oldType == TypeName(x) && op.newType == TypeName(y)
  {
    if op.ChangeTypeOp? {
      NamedType(d, x, op.oldType);
      NamedType(d, y, op.newType);
    }
  }

  // ----- maps

  /** The op for a key only one map has. */
  function LoneKeyOp(d: Dag, p: StatePath, x: Object, y: Object, k: string): DiffOp
    requires x.MapNode? && y.MapNode? && (k in x.entries <==> k !in y.entries)
  {
    if k in x.entries then RemoveKeyOp(Print(p), k, ValueOf(Resolve(d, x.entries[k])))
    else AddKeyOp(Print(p), k, ValueOf(Resolve(d, y.entries[k])))
  }

  lemma LoneKeyEmitted(d: Dag, p: StatePath, x: Object, y: Object, k: string, op: DiffOp)
    requires Acyclic(d.store) && x.MapNode? && y.MapNode? && (k in x.entries <==> k !in y.entries)
    ensures EmittedBy(KeyOps(d, p, x, y, k), op) <==> op == LoneKeyOp(d, p, x, y, k)
  {
    EmittedAlone(KeyOps(d, p, x, y, k), op);
  }

  lemma LoneKeyDiffers(d: Dag, p: StatePath, x: Object, y: Object, k: string, op: DiffOp)
    requires Sound(d) && Supported(d, x) && Supported(d, y) && x.MapNode? && y.MapNode?
    requires k in x.entries <==> k !in y.entries
    ensures op == LoneKeyOp(d, p, x, y, k) <==>
      && op.path == Print(p) && Differs(op, Expand(d, x), Expand(d, y))
      && (op.AddKeyOp? || op.RemoveKeyOp?) && op.key == k
  {
    ExpandedMap(d, x);
    ExpandedMap(d, y);
    if op.AddKeyOp? && k in y.entries {
      EntryTree(d, y, k);
      ShownById(d, y.entries[k], op.value);
    }
    if op.RemoveKeyOp? && k in x.entries {
      EntryTree(d, x, k);
      ShownById(d, x.entries[k], op.value);
    }
  }

  /** A key only one map has is emitted exactly as the difference it is. */
  lemma LoneKeyEmits(d: Dag, p: StatePath, x: Object, y: Object, k: string, op: DiffOp)
    requires Sound(d) && Supported(d, x) && Supported(d, y) && x.MapNode? && y.MapNode?
    requires k in x.entries <==> k !in y.entries
    ensures EmittedBy(KeyOps(d, p, x, y, k), op) <==>
      && op.path == Print(p) && Differs(op, Expand(d, x), Expand(d, y))
      && (op.AddKeyOp? || op.RemoveKeyOp?) && op.key == k
  {
    LoneKeyEmitted(d, p, x, y, k, op);
    LoneKeyDiffers(d, p, x, y, k, op);
  }

  lemma {:induction false} SharedKeyEmits(d: Dag, p: StatePath, x: Object, y: Object, k: string, op: DiffOp)
    requires Sound(d) && Supported(d, x) && Supported(d, y) && x.MapNode? && y.MapNode?
    requires k in x.entries && k in y.entries
    ensures var t, u := ChildOf(Expand(d, x), Key(k)), ChildOf(Expand(d, y), Key(k));
      && t.Some? && u.Some?
      && (EmittedBy(KeyOps(d, p, x, y, k), op) <==> States(op, p + [Key(k)], t.value, u.value))
    decreases Height(d.store, x), 0, 0
  {
    KeyChild(d, p, x, y, k);
    ChildEntry(d, x, k);
    ChildEntry(d, y, k);
    assert x.entries[k] in Children(x);
    StoredChild(d, x, x.entries[k]);
    EmitsDifferences(d, p + [Key(k)], d.store[x.entries[k]], d.store[y.entries[k]], op);
  }

  lemma EmittedByKey(d: Dag, p: StatePath, x: Object, y: Object, op: DiffOp) returns (k: string)
    requires Acyclic(d.store) && x.MapNode? && y.MapNode? && EmittedBy(DiffMaps(d, p, x, y), op)
    ensures EmittedBy(KeyOps(d, p, x, y, k), op) && (k in x.entries || k in y.entries)
  {
    var f :| f in DiffMaps(d, p, x, y) && Summarise(f) == op;
    MapMembers(d, p, x, y, f);
    k :| OpOfKey(d, p, x, y, k, f);
  }

  lemma KeyIsEmitted(d: Dag, p: StatePath, x: Object, y: Object, k: string, op: DiffOp)
    requires Acyclic(d.store) && x.MapNode? && y.MapNode? && EmittedBy(KeyOps(d, p, x, y, k), op)
    ensures EmittedBy(DiffMaps(d, p, x, y), op)
  {
    KeyInMaps(d, p, x, y, k);
    EmittedKept(KeyOps(d, p, x, y, k), DiffMaps(d, p, x, y), op);
  }

  lemma {:induction false} MapsEmit(d: Dag, p: StatePath, x: Object, y: Object, op: DiffOp)
    requires Sound(d) && Supported(d, x) && Supported(d, y) && x.MapNode? && y.MapNode?
    ensures EmittedBy(DiffMaps(d, p, x, y), op) <==> States(op, p, Expand(d, x), Expand(d, y))
    decreases Height(d.store, x), 1
  {
    if EmittedBy(DiffMaps(d, p, x, y), op) {
      MapEmitsTruth(d, p, x, y, op);
    }
    if States(op, p, Expand(d, x), Expand(d, y)) {
      MapTruthEmitted(d, p, x, y, op);
    }
  }

  lemma {:induction false} MapEmitsTruth(d: Dag, p: StatePath, x: Object, y: Object, op: DiffOp)
    requires Sound(d) && Supported(d, x) && Supported(d, y) && x.MapNode? && y.MapNode?
    requires EmittedBy(DiffMaps(d, p, x, y), op)
    ensures States(op, p, Expand(d, x), Expand(d, y))
    decreases Height(d.store, x), 0, 1
  {
    var k := EmittedByKey(d, p, x, y, op);
    if k in x.entries && k in y.entries {
      SharedKeyEmits(d, p, x, y, k, op);
      StatesBelow(op, p, Key(k), Expand(d, x), Expand(d, y));
    } else {
      LoneKeyEmits(d, p, x, y, k, op);
      StatesHere(op, p, Expand(d, x), Expand(d, y));
    }
  }

  lemma MapDifferenceEmitted(d: Dag, p: StatePath, x: Object, y: Object, op: DiffOp)
    requires Sound(d) && Supported(d, x) && Supported(d, y) && x.MapNode? && y.MapNode?
    requires op.path == Print(p) && Differs(op, Expand(d, x), Expand(d, y))
    ensures EmittedBy(DiffMaps(d, p, x, y), op)
  {
    ExpandedMap(d, x);
    ExpandedMap(d, y);
    MapDifference(op, Expand(d, x), Expand(d, y));
    LoneKeyEmits(d, p, x, y, op.key, op);
    KeyIsEmitted(d, p, x, y, op.key, op);
  }

  lemma {:induction false} MapTruthEmitted(d: Dag, p: StatePath, x: Object, y: Object, op: DiffOp)
    requires Sound(d) && Supported(d, x) && Supported(d, y) && x.MapNode? && y.MapNode?
    requires States(op, p, Expand(d, x), Expand(d, y))
    ensures EmittedBy(DiffMaps(d, p, x, y), op)
    decreases Height(d.store, x), 0, 1
  {
    ExpandedMap(d, x);
    ExpandedMap(d, y);
    var c := StatesWhere(op, p, Expand(d, x), Expand(d, y));
    if c.None? {
      MapDifferenceEmitted(d, p, x, y, op);
    } else {
      CommonKey(Expand(d, x), Expand(d, y), c.value);
      SharedKeyEmits(d, p, x, y, c.value.key, op);
      KeyIsEmitted(d, p, x, y, c.value.key, op);
    }
  }

  lemma CommonKey(t: Tree, u: Tree, c: PathComponent)
    requires t.TMap? && u.TMap? && ChildOf(t, c).Some? && ChildOf(u, c).Some?
    ensures c.Key? && c.key in t.entries && c.key in u.entries
  {
  }

  // ----- lists

  lemma ExpandedList(d: Dag, o: Object)
    requires Readable(d) && Children(o) <= d.store.Keys && o.ListNode?
    ensures Expand(d, o).TList? && |Expand(d, o).items| == |o.items|
  {
  }

  /** Between lists a difference at the node is an element more or less. */
  lemma ListDifference(op: DiffOp, t: Tree, u: Tree)
    requires t.TList? && u.TList? && Differs(op, t, u)
    ensures op.AddElementOp? || op.RemoveElementOp?
    ensures op.index < |t.items| <==> op.index >= |u.items|
    ensures op.index < |t.items| || op.index < |u.items|
  {
  }

  lemma MapDifference(op: DiffOp, t: Tree, u: Tree)
    requires t.TMap? && u.TMap? && Differs(op, t, u)
    ensures op.AddKeyOp? || op.RemoveKeyOp?
    ensures op.key in t.entries <==> op.key !in u.entries
  {
  }

  lemma ChildItem(d: Dag, o: Object, i: nat)
    requires Readable(d) && Children(o) <= d.store.Keys && o.ListNode? && i < |o.items|
    ensures o.items[i] in d.store && ChildOf(Expand(d, o), Index(i)) == Some(ExpandId(d, o.items[i]))
  {
    ExpandedList(d, o);
    ItemTree(d, o, i);
  }

  lemma ChildEntry(d: Dag, o: Object, k: string)
    requires Readable(d) && Children(o) <= d.store.Keys && o.MapNode? && k in o.entries
    ensures o.entries[k] in d.store && ChildOf(Expand(d, o), Key(k)) == Some(ExpandId(d, o.entries[k]))
  {
    ExpandedMap(d, o);
    EntryTree(d, o, k);
  }

  lemma ItemTree(d: Dag, o: Object, i: nat)
    requires Readable(d) && Children(o) <= d.store.Keys && o.ListNode? && i < |o.items|
    ensures o.items[i] in d.store && Expand(d, o).items[i] == ExpandId(d, o.items[i])
  {
    assert o.items[i] in Children(o);
  }

  /** A position only one list has. */
  lemma LoneIndexEmits(d: Dag, p: StatePath, x: Object, y: Object, i: nat, op: DiffOp)
    requires Sound(d) && Supported(d, x) && Supported(d, y) && x.ListNode? && y.ListNode?
    requires i < |x.items| <==> i >= |y.items|
    ensures EmittedBy(IndexOps(d, p, x, y, i), op) <==>
      && op.path == Print(p) && Differs(op, Expand(d, x), Expand(d, y))
      && (op.AddElementOp? || op.RemoveElementOp?) && op.index == i
  {
    EmittedAlone(IndexOps(d, p, x, y, i), op);
    if op.AddElementOp? && i < |y.items| {
      ItemTree(d, y, i);
      ShownById(d, y.items[i], op.value);
    }
    if op.RemoveElementOp? && i < |x.items| {
      ItemTree(d, x, i);
      ShownById(d, x.items[i], op.value);
    }
  }

  lemma {:induction false} SharedIndexEmits(d: Dag, p: StatePath, x: Object, y: Object, i: nat, op: DiffOp)
    requires Sound(d) && Supported(d, x) && Supported(d, y) && x.ListNode? && y.ListNode?
    requires i < |x.items| && i < |y.items|
    ensures var t, u := ChildOf(Expand(d, x), Index(i)), ChildOf(Expand(d, y), Index(i));
      && t.Some? && u.Some?
      && (EmittedBy(IndexOps(d, p, x, y, i), op) <==> States(op, p + [Index(i)], t.value, u.value))
    decreases Height(d.store, x), 0, 0
  {
    assert x.items[i] in Children(x) && y.items[i] in Children(y);
    StoredChild(d, x, x.items[i]);
    StoredChild(d, y, y.items[i]);
    SharedIndex(d, p, x, y, i);
    ChildItem(d, x, i);
    ChildItem(d, y, i);
    EmitsDifferences(d, p + [Index(i)], d.store[x.items[i]], d.store[y.items[i]], op);
  }

  lemma EmittedByIndex(d: Dag, p: StatePath, x: Object, y: Object, n: nat, op: DiffOp) returns (i: nat)
    requires Acyclic(d.store) && x.ListNode? && y.ListNode? && EmittedBy(DiffLists(d, p, x, y, n), op)
    ensures i < n && EmittedBy(IndexOps(d, p, x, y, i), op)
  {
    var f :| f in DiffLists(d, p, x, y, n) && Summarise(f) == op;
    ListMembers(d, p, x, y, n, f);
    i :| i < n && OpOfIndex(d, p, x, y, i, f);
  }

  lemma IndexIsEmitted(d: Dag, p: StatePath, x: Object, y: Object, i: nat, n: nat, op: DiffOp)
    requires Acyclic(d.store) && x.ListNode? && y.ListNode? && i < n && EmittedBy(IndexOps(d, p, x, y, i), op)
    ensures EmittedBy(DiffLists(d, p, x, y, n), op)
  {
    var f :| f in IndexOps(d, p, x, y, i) && Summarise(f) == op;
    assert OpOfIndex(d, p, x, y, i, f);
    ListMembers(d, p, x, y, n, f);
  }

  lemma {:induction false} ListsEmit(d: Dag, p: StatePath, x: Object, y: Object, op: DiffOp)
    requires Sound(d) && Supported(d, x) && Supported(d, y) && x.ListNode? && y.ListNode?
    ensures EmittedBy(DiffLists(d, p, x, y, Max(|x.items|, |y.items|)), op) <==>
      States(op, p, Expand(d, x), Expand(d, y))
    decreases Height(d.store, x), 1
  {
    var n := Max(|x.items|, |y.items|);
    if EmittedBy(DiffLists(d, p, x, y, n), op) {
      var i := EmittedByIndex(d, p, x, y, n, op);
      if i < |x.items| && i < |y.items| {
        SharedIndexEmits(d, p, x, y, i, op);
        StatesBelow(op, p, Index(i), Expand(d, x), Expand(d, y));
      } else {
        LoneIndexEmits(d, p, x, y, i, op);
        StatesHere(op, p, Expand(d, x), Expand(d, y));
      }
    }
    if States(op, p, Expand(d, x), Expand(d, y)) {
      ListTruthEmitted(d, p, x, y, op);
    }
  }

  lemma {:induction false} ListTruthEmitted(d: Dag, p: StatePath, x: Object, y: Object, op: DiffOp)
    requires Sound(d) && Supported(d, x) && Supported(d, y) && x.ListNode? && y.ListNode?
    requires States(op, p, Expand(d, x), Expand(d, y))
    ensures EmittedBy(DiffLists(d, p, x, y, Max(|x.items|, |y.items|)), op)
    decreases Height(d.store, x), 0, 1
  {
    var n := Max(|x.items|, |y.items|);
    ExpandedList(d, x);
    ExpandedList(d, y);
    var c := StatesWhere(op, p, Expand(d, x), Expand(d, y));
    if c.None? {
      ListDifference(op, Expand(d, x), Expand(d, y));
      LoneIndexEmits(d, p, x, y, op.index, op);
      IndexIsEmitted(d, p, x, y, op.index, n, op);
    } else {
      SharedIndexEmits(d, p, x, y, c.value.index, op);
      IndexIsEmitted(d, p, x, y, c.value.index, n, op);
    }
  }

  // ----- sets

  ghost predicate PrintsOnlyIn(d: Dag, x: Object, y: Object, v: DiffValue) {
    exists i :: i in Children(x) && i !in Children(y) && ValueOf(Resolve(d, i)) == v
  }

  lemma ShownOnlyIn(d: Dag, x: Object, y: Object, v: DiffValue)
    requires Sound(d) && Supported(d, x) && Supported(d, y) && x.SetNode? && y.SetNode?
    ensures PrintsOnlyIn(d, x, y, v) <==> ShowsOnlyIn(v, Expand(d, x).members, Expand(d, y).members)
  {
    if PrintsOnlyIn(d, x, y, v) {
      var i :| i in Children(x) && i !in Children(y) && ValueOf(Resolve(d, i)) == v;
      ShownById(d, i, v);
      OnlyIn(d, x, y, ExpandId(d, i));
    }
    if ShowsOnlyIn(v, Expand(d, x).members, Expand(d, y).members) {
      var m :| m in Expand(d, x).members && m !in Expand(d, y).members && Shows(v, m);
      OnlyIn(d, x, y, m);
      var i :| i in Children(x) && i !in Children(y) && ExpandId(d, i) == m;
      ShownById(d, i, v);
    }
  }

  lemma SetEmitted(d: Dag, p: StatePath, x: Object, y: Object, op: DiffOp)
    requires x.SetNode? && y.SetNode?
    ensures EmittedBy(DiffSets(d, p, x, y), op) <==>
      && op.path == Print(p)
      && ((op.RemoveFromSetOp? && PrintsOnlyIn(d, x, y, op.value)) ||
          (op.AddToSetOp? && PrintsOnlyIn(d, y, x, op.value)))
  {
    var ops := DiffSets(d, p, x, y);
    if EmittedBy(ops, op) {
      var f :| f in ops && Summarise(f) == op;
      SetPaths(d, p, x, y, f);
      SetHere(d, p, x, y, f);
    }
    if op.path == Print(p) && op.RemoveFromSetOp? && PrintsOnlyIn(d, x, y, op.value) {
      var i :| i in Children(x) && i !in Children(y) && ValueOf(Resolve(d, i)) == op.value;
      SetHere(d, p, x, y, RemoveFromSet(p, Resolve(d, i)));
    }
    if op.path == Print(p) && op.AddToSetOp? && PrintsOnlyIn(d, y, x, op.value) {
      var i :| i in Children(y) && i !in Children(x) && ValueOf(Resolve(d, i)) == op.value;
      SetHere(d, p, x, y, AddToSet(p, Resolve(d, i)));
    }
  }

  lemma SetsEmit(d: Dag, p: StatePath, x: Object, y: Object, op: DiffOp)
    requires Sound(d) && Supported(d, x) && Supported(d, y) && x.SetNode? && y.SetNode?
    ensures EmittedBy(DiffSets(d, p, x, y), op) <==> States(op, p, Expand(d, x), Expand(d, y))
  {
    SetEmitted(d, p, x, y, op);
    if op.AddToSetOp? || op.RemoveFromSetOp? {
      ShownOnlyIn(d, x, y, op.value);
      ShownOnlyIn(d, y, x, op.value);
    }
    StatedAlone(op, p, Expand(d, x), Expand(d, y));
    SetDifference(op, Expand(d, x), Expand(d, y));
  }

  lemma SetDifference(op: DiffOp, t: Tree, u: Tree)
    requires t.TSet? && u.TSet?
    ensures Differs(op, t, u) <==>
      || (op.AddToSetOp? && ShowsOnlyIn(op.value, u.members, t.members))
      || (op.RemoveFromSetOp? && ShowsOnlyIn(op.value, t.members, u.members))
  {
  }

  // ----- the emitted diff

  /** The code emits an op exactly when it states a difference between the two trees at its path. */
  lemma EmittedExactly(d: Dag, before: ObjectId, after: ObjectId, op: DiffOp)
    requires Sound(d) && before in d.store && after in d.store
    ensures op in SummariseAll(DiffRoots(d, before, after)) <==>
      States(op, [], ExpandId(d, before), ExpandId(d, after))
  {
    var ops := DiffRoots(d, before, after);
    assert Supported(d, d.store[before]) && Supported(d, d.store[after]);
    EmitsDifferences(d, [], d.store[before], d.store[after], op);
    if op in SummariseAll(ops) {
      var i :| 0 <= i < |ops| && SummariseAll(ops)[i] == op;
      assert ops[i] in ops && Summarise(ops[i]) == op;
    }
    if EmittedBy(ops, op) {
      var f :| f in ops && Summarise(f) == op;
      var i :| 0 <= i < |ops| && ops[i] == f;
      assert SummariseAll(ops)[i] == op;
    }
  }

  // ----- objects that cannot be found

  /** A root that is missing gives no ops. */
  lemma MissingRoot(d: Dag, before: ObjectId, after: ObjectId)
    requires Acyclic(d.store) && (before !in d.store || after !in d.store)
    ensures SummariseAll(DiffRoots(d, before, after)) == []
  {
  }

  predicate Incomparable(d: Dag, x: Object, y: Object, k: string)
    requires x.MapNode? && y.MapNode?
  {
    && k in x.entries && k in y.entries && x.entries[k] != y.entries[k]
    && (x.entries[k] !in d.store || y.entries[k] !in d.store)
  }

  /** Below, a missing object prints as null: alone, or on both sides when a slot both have cannot be compared. */
  lemma MissingPrintsNull(d: Dag, p: StatePath, x: Object, y: Object, k: string, op: DiffOp)
    requires Acyclic(d.store) && x.MapNode? && y.MapNode?
    ensures k in x.entries && k !in y.entries && x.entries[k] !in d.store ==>
      (EmittedBy(KeyOps(d, p, x, y, k), op) <==> op == RemoveKeyOp(Print(p), k, DNull))
    ensures k !in x.entries && k in y.entries && y.entries[k] !in d.store ==>
      (EmittedBy(KeyOps(d, p, x, y, k), op) <==> op == AddKeyOp(Print(p), k, DNull))
    ensures Incomparable(d, x, y, k) ==>
      (EmittedBy(KeyOps(d, p, x, y, k), op) <==> op == SetValueOp(Print(p + [Key(k)]), DNull, DNull))
  {
    if |KeyOps(d, p, x, y, k)| == 1 {
      EmittedAlone(KeyOps(d, p, x, y, k), op);
    }
  }
}

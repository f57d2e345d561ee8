/**
 The structured diff of `crates/agentstategraph-core/src/diff.rs`. The functions give the
 op stream with the resolved objects themselves in place of their printable summaries;
 `Summarise` turns such an op into the one the code emits.
 */
module Diff {
  import opened Order
  import opened Objects
  import opened Dags
  import opened Paths
  import opened Merge

  datatype Op<+V> =
    | SetValue(path: StatePath, before: V, after: V)
    | AddKey(path: StatePath, key: string, value: V)
    | RemoveKey(path: StatePath, key: string, value: V)
    | AddElement(path: StatePath, index: nat, value: V)
    | RemoveElement(path: StatePath, index: nat, value: V)
    | AddToSet(path: StatePath, value: V)
    | RemoveFromSet(path: StatePath, value: V)
    | ChangeType(path: StatePath, before: V, after: V)

  /** An op carrying what each id resolved to, or `None` where it did not. */
  type FullOp = Op<Option<Object>>

  // ----- the op stream

  function DiffObjects(d: Dag, p: StatePath, x: Object, y: Object): seq<FullOp>
    requires Acyclic(d.store)
    decreases Height(d.store, x), 2, 0
  {
    if x == y then []
    else if x.AtomObject? && y.AtomObject? then [SetValue(p, Some(x), Some(y))]
    else if x.MapNode? && y.MapNode? then DiffMaps(d, p, x, y)
    else if x.ListNode? && y.ListNode? then DiffLists(d, p, x, y, Max(|x.items|, |y.items|))
    else if x.SetNode? && y.SetNode? then DiffSets(d, p, x, y)
    else [ChangeType(p, Some(x), Some(y))]
  }

  function Max(m: nat, n: nat): nat {
    if m > n then m else n
  }

  /** Removed keys, then added keys, then the keys on both sides; each in key order. */
  function DiffMaps(d: Dag, p: StatePath, x: Object, y: Object): seq<FullOp>
    requires Acyclic(d.store) && x.MapNode? && y.MapNode?
    decreases Height(d.store, x), 1, |x.entries.Keys| + |y.entries.Keys| + 1
  {
    KeysOps(d, p, x, y, SortedKeys(x.entries.Keys - y.entries.Keys)) +
    KeysOps(d, p, x, y, SortedKeys(y.entries.Keys - x.entries.Keys)) +
    KeysOps(d, p, x, y, SortedKeys(x.entries.Keys * y.entries.Keys))
  }

  function KeysOps(d: Dag, p: StatePath, x: Object, y: Object, ks: seq<string>): seq<FullOp>
    requires Acyclic(d.store) && x.MapNode? && y.MapNode?
    decreases Height(d.store, x), 1, 0, |ks|
  {
    if ks == [] then []
    else KeysOps(d, p, x, y, ks[..|ks| - 1]) + KeyOps(d, p, x, y, ks[|ks| - 1])
  }

  function KeyOps(d: Dag, p: StatePath, x: Object, y: Object, k: string): seq<FullOp>
    requires Acyclic(d.store) && x.MapNode? && y.MapNode?
    decreases Height(d.store, x), 0, 1
  {
    match (Lookup(x.entries, k), Lookup(y.entries, k))
    case (Some(i), None) => [RemoveKey(p, k, Resolve(d, i))]
    case (None, Some(j)) => [AddKey(p, k, Resolve(d, j))]
    case (Some(i), Some(j)) =>
      assert i in Children(x);
      if i == j then [] else DiffChild(d, p + [Key(k)], x, i, j)
    case (None, None) => []
  }

  /** The same slot on both sides with different ids. */
  function DiffChild(d: Dag, p: StatePath, x: Object, i: ObjectId, j: ObjectId): seq<FullOp>
    requires Acyclic(d.store) && i in Children(x)
    decreases Height(d.store, x), 0, 0
  {
    if i in d.store && j in d.store then
      ChildrenLower(d.store, x);
      DiffObjects(d, p, d.store[i], d.store[j])
    else
      [SetValue(p, None, None)]
  }

  /** The first `n` positions. */
  function DiffLists(d: Dag, p: StatePath, x: Object, y: Object, n: nat): seq<FullOp>
    requires Acyclic(d.store) && x.ListNode? && y.ListNode?
    decreases Height(d.store, x), 1, n
  {
    if n == 0 then [] else DiffLists(d, p, x, y, n - 1) + IndexOps(d, p, x, y, n - 1)
  }

  function IndexOps(d: Dag, p: StatePath, x: Object, y: Object, n: nat): seq<FullOp>
    requires Acyclic(d.store) && x.ListNode? && y.ListNode?
    decreases Height(d.store, x), 0, 1
  {
    if n < |x.items| && n < |y.items| then
      assert x.items[n] in Children(x);
      if x.items[n] == y.items[n] then [] else DiffChild(d, p + [Index(n)], x, x.items[n], y.items[n])
    else if n < |y.items| then [AddElement(p, n, Resolve(d, y.items[n]))]
    else if n < |x.items| then [RemoveElement(p, n, Resolve(d, x.items[n]))]
    else []
  }

  function DiffSets(d: Dag, p: StatePath, x: Object, y: Object): seq<FullOp>
    requires x.SetNode? && y.SetNode?
  {
    var xs, ys := Elements(x.members), Elements(y.members);
    RemovedMembers(d, p, SortedIds(xs - ys)) + AddedMembers(d, p, SortedIds(ys - xs))
  }

  function RemovedMembers(d: Dag, p: StatePath, ids: seq<ObjectId>): (r: seq<FullOp>)
    ensures |r| == |ids| && forall i :: 0 <= i < |ids| ==> r[i] == RemoveFromSet(p, Resolve(d, ids[i]))
  {
    seq(|ids|, i requires 0 <= i < |ids| => RemoveFromSet(p, Resolve(d, ids[i])))
  }

  function AddedMembers(d: Dag, p: StatePath, ids: seq<ObjectId>): (r: seq<FullOp>)
    ensures |r| == |ids| && forall i :: 0 <= i < |ids| ==> r[i] == AddToSet(p, Resolve(d, ids[i]))
  {
    seq(|ids|, i requires 0 <= i < |ids| => AddToSet(p, Resolve(d, ids[i])))
  }

  /** `diff`. */
  function DiffRoots(d: Dag, before: ObjectId, after: ObjectId): seq<FullOp>
    requires Acyclic(d.store)
  {
    if before == after then []
    else if before in d.store && after in d.store then DiffObjects(d, [], d.store[before], d.store[after])
    else []
  }

  // ----- the ops the code emits

  datatype DiffValue =
    | DNull
    | DBool(b: bool)
    | DInt(i: int)
    | DUInt(u: nat)
    | DFloat(bits: nat)
    | DString(s: string)
    | DBytes(bs: seq<byte>)
    | DComplex(s: string)

  datatype DiffOp =
    | SetValueOp(path: string, before: DiffValue, after: DiffValue)
    | AddKeyOp(path: string, key: string, value: DiffValue)
    | RemoveKeyOp(path: string, key: string, value: DiffValue)
    | AddElementOp(path: string, index: nat, value: DiffValue)
    | RemoveElementOp(path: string, index: nat, value: DiffValue)
    | AddToSetOp(path: string, value: DiffValue)
    | RemoveFromSetOp(path: string, value: DiffValue)
    | ChangeTypeOp(path: string, oldType: string, newType: string)

  function FromAtom(a: Atom): DiffValue {
    match a
    case Null => DNull
    case Bool(b) => DBool(b)
    case Int(i) => DInt(i)
    case UInt(u) => DUInt(u)
    case Float(f) => DFloat(f)
    case Str(s) => DString(s)
    case Bytes(bs) => DBytes(bs)
  }

  /** `DiffValue::from_object`, and null for what did not resolve. */
  function ValueOf(o: Option<Object>): DiffValue {
    match o
    case None => DNull
    case Some(AtomObject(a)) => FromAtom(a)
    case Some(MapNode(m)) => DComplex(MapSummary(|m|))
    case Some(ListNode(l)) => DComplex(ListSummary(|l|))
    case Some(SetNode(l)) => DComplex(SetSummary(|l|))
  }

  function TypeName(o: Object): string {
    match o
    case AtomObject(Null) => "null"
    case AtomObject(Bool(_)) => "bool"
    case AtomObject(Int(_)) => "int"
    case AtomObject(UInt(_)) => "int"
    case AtomObject(Float(_)) => "float"
    case AtomObject(Str(_)) => "string"
    case AtomObject(Bytes(_)) => "bytes"
    case MapNode(_) => "map"
    case ListNode(_) => "list"
    case SetNode(_) => "set"
  }

  function TypeOf(o: Option<Object>): string {
    if o.Some? then TypeName(o.value) else "null"
  }

  function Summarise(op: FullOp): DiffOp {
    match op
    case SetValue(p, v, w) => SetValueOp(Print(p), ValueOf(v), ValueOf(w))
    case AddKey(p, k, v) => AddKeyOp(Print(p), k, ValueOf(v))
    case RemoveKey(p, k, v) => RemoveKeyOp(Print(p), k, ValueOf(v))
    case AddElement(p, i, v) => AddElementOp(Print(p), i, ValueOf(v))
    case RemoveElement(p, i, v) => RemoveElementOp(Print(p), i, ValueOf(v))
    case AddToSet(p, v) => AddToSetOp(Print(p), ValueOf(v))
    case RemoveFromSet(p, v) => RemoveFromSetOp(Print(p), ValueOf(v))
    case ChangeType(p, v, w) => ChangeTypeOp(Print(p), TypeOf(v), TypeOf(w))
  }

  function SummariseAll(ops: seq<FullOp>): (r: seq<DiffOp>)
    ensures |r| == |ops| && forall i :: 0 <= i < |ops| ==> r[i] == Summarise(ops[i])
  {
    MapSeq(Summarise, ops)
  }
}

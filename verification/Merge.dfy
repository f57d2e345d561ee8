/**
 The merge of `crates/agentstategraph-core/src/merge.rs` as a function: what each call
 returns, what it appends to `conflicts` and `created`, and which ids it asks the
 resolver for, in order. `MergeEngine` runs the same steps imperatively.
 */
module Merge {
  import opened Order
  import opened Objects
  import opened Dags
  import opened Decimal

  datatype ConflictValue =
    | CNull
    | CBool(b: bool)
    | CInt(i: int)
    | CUInt(u: nat)
    | CFloat(bits: nat)
    | CString(s: string)
    | CComplex(s: string)

  /** `suggested_resolution` is always `None` in the source and has no field here. */
  datatype Conflict = Conflict(
    path: string,
    ours: Option<ConflictValue>,
    theirs: Option<ConflictValue>,
    base: Option<ConflictValue>)

  datatype MergeResult =
    | Success(merged: Object)
    | Conflicts(partial: Object, conflicts: seq<Conflict>)
    | FastForward(id: ObjectId)

  /** What a call produced, appended and looked up. */
  datatype Outcome = Outcome(
    obj: Object,
    conflicts: seq<Conflict>,
    created: seq<Object>,
    queries: seq<ObjectId>)

  datatype KeyOutcome = KeyOutcome(
    entry: Option<ObjectId>,
    conflicts: seq<Conflict>,
    created: seq<Object>,
    queries: seq<ObjectId>)

  datatype KeysOutcome = KeysOutcome(
    entries: map<string, ObjectId>,
    conflicts: seq<Conflict>,
    created: seq<Object>,
    queries: seq<ObjectId>)

  // ----- conflict values

  function MapSummary(n: nat): string { "{map: " + Dec(n) + " keys}" }

  function ListSummary(n: nat): string { "[list: " + Dec(n) + " items]" }

  function SetSummary(n: nat): string { "{set: " + Dec(n) + " items}" }

  function AtomValue(a: Atom): ConflictValue {
    match a
    case Null => CNull
    case Bool(b) => CBool(b)
    case Int(i) => CInt(i)
    case UInt(u) => CUInt(u)
    case Float(f) => CFloat(f)
    case Str(s) => CString(s)
    case Bytes(_) => CString("[bytes]")
  }

  function FromObject(o: Object): ConflictValue {
    match o
    case AtomObject(a) => AtomValue(a)
    case MapNode(m) => CComplex(MapSummary(|m|))
    case ListNode(l) => CComplex(ListSummary(|l|))
    case SetNode(l) => CComplex(SetSummary(|l|))
  }

  // ----- lookups

  function Summarised(d: Dag, id: ObjectId): Option<ConflictValue> {
    if id in d.store then Some(FromObject(d.store[id])) else None
  }

  function ChildPath(path: string, key: string): string {
    path + (if path == "/" then "" else "/") + key
  }

  predicate IsMap(o: Option<Object>) {
    o.Some? && o.value.MapNode?
  }

  // ----- merging

  function AllKeys(b: Object, o: Object, t: Object): set<string>
    requires b.MapNode? && o.MapNode? && t.MapNode?
  {
    b.entries.Keys + o.entries.Keys + t.entries.Keys
  }

  function MergeObjects(d: Dag, path: string, b: Object, o: Object, t: Object): Outcome
    requires Acyclic(d.store)
    decreases Height(d.store, o), 2, 0
  {
    if o == t then Outcome(o, [], [], [])
    else if b == o then Outcome(t, [], [], [])
    else if b == t then Outcome(o, [], [], [])
    else if b.MapNode? && o.MapNode? && t.MapNode? then
      var r := MergeKeys(d, path, b, o, t, SortedKeys(AllKeys(b, o, t)));
      var obj := MapNode(r.entries);
      Outcome(obj, r.conflicts, r.created + [obj], r.queries)
    else if b.ListNode? && o.ListNode? && t.ListNode? then
      Outcome(o, if o.items == t.items then [] else [ListConflict(path, b.items, o.items, t.items)], [o], [])
    else if b.SetNode? && o.SetNode? && t.SetNode? then
      var obj := MergedSet(o.members, t.members);
      Outcome(obj, [], [obj], [])
    else
      Outcome(o, [Conflict(path, Some(FromObject(o)), Some(FromObject(t)), Some(FromObject(b)))], [], [])
  }

  function ListConflict(path: string, b: seq<ObjectId>, o: seq<ObjectId>, t: seq<ObjectId>): Conflict {
    Conflict(path, Some(CComplex(ListSummary(|o|))), Some(CComplex(ListSummary(|t|))), Some(CComplex(ListSummary(|b|))))
  }

  function MergedSet(o: seq<ObjectId>, t: seq<ObjectId>): Object {
    SetNode(SortedIds(Elements(o) + Elements(t)))
  }

  /** The keys of `merge_maps` handled so far, `ks` in order. */
  function MergeKeys(d: Dag, path: string, b: Object, o: Object, t: Object, ks: seq<string>): KeysOutcome
    requires Acyclic(d.store) && b.MapNode? && o.MapNode? && t.MapNode?
    decreases Height(d.store, o), 1, |ks|
  {
    if ks == [] then KeysOutcome(map[], [], [], [])
    else
      var n := |ks| - 1;
      AddKey(MergeKeys(d, path, b, o, t, ks[..n]), ks[n], MergeKey(d, path, b, o, t, ks[n]))
  }

  function AddKey(r: KeysOutcome, k: string, x: KeyOutcome): KeysOutcome {
    KeysOutcome(
      if x.entry.Some? then r.entries[k := x.entry.value] else r.entries,
      r.conflicts + x.conflicts,
      r.created + x.created,
      r.queries + x.queries)
  }

  function MergeKey(d: Dag, path: string, b: Object, o: Object, t: Object, k: string): KeyOutcome
    requires Acyclic(d.store) && b.MapNode? && o.MapNode? && t.MapNode?
    decreases Height(d.store, o), 1, 0
  {
    var at := ChildPath(path, k);
    match (Lookup(b.entries, k), Lookup(o.entries, k), Lookup(t.entries, k))
    case (Some(x), Some(y), Some(z)) =>
      if y == z then Keep(Some(y))
      else if x == y then Keep(Some(z))
      else if x == z then Keep(Some(y))
      else MergeChild(d, at, b, o, t, k)
    case (None, Some(y), None) => Keep(Some(y))
    case (None, None, Some(z)) => Keep(Some(z))
    case (None, Some(y), Some(z)) =>
      if y == z then Keep(Some(y)) else MergeAdded(d, at, o, t, k)
    case (Some(x), None, Some(z)) =>
      if x == z then Keep(None)
      else KeyOutcome(None, [Conflict(at, None, Summarised(d, z), Summarised(d, x))], [], [z, x])
    case (Some(x), Some(y), None) =>
      if x == y then Keep(None)
      else KeyOutcome(Some(y), [Conflict(at, Summarised(d, y), None, Summarised(d, x))], [], [y, x])
    case (Some(_), None, None) => Keep(None)
    case (None, None, None) => Keep(None)
  }

  function Keep(entry: Option<ObjectId>): KeyOutcome {
    KeyOutcome(entry, [], [], [])
  }

  /** A key all three sides have, changed differently by both. */
  function MergeChild(d: Dag, at: string, b: Object, o: Object, t: Object, k: string): KeyOutcome
    requires Acyclic(d.store) && b.MapNode? && o.MapNode? && t.MapNode?
    requires k in b.entries && k in o.entries && k in t.entries
    decreases Height(d.store, o), 0
  {
    var (x, y, z) := (b.entries[k], o.entries[k], t.entries[k]);
    if x in d.store && y in d.store && z in d.store then
      ChildrenLower(d.store, o);
      assert y in Children(o);
      var r := MergeObjects(d, at, d.store[x], d.store[y], d.store[z]);
      KeyOutcome(Some(d.idOf(r.obj)), r.conflicts, r.created, [x, y, z] + r.queries)
    else
      KeyOutcome(Some(y), [Conflict(at, None, None, None)], [], [x, y, z])
  }

  /** A key both sides added with different ids: two maps merge from an empty base. */
  function MergeAdded(d: Dag, at: string, o: Object, t: Object, k: string): KeyOutcome
    requires Acyclic(d.store) && o.MapNode? && t.MapNode?
    requires k in o.entries && k in t.entries
    decreases Height(d.store, o), 0
  {
    var (y, z) := (o.entries[k], t.entries[k]);
    if IsMap(Resolve(d, y)) && IsMap(Resolve(d, z)) then
      ChildrenLower(d.store, o);
      assert y in Children(o);
      var r := MergeObjects(d, at, EmptyMap(), d.store[y], d.store[z]);
      KeyOutcome(Some(d.idOf(r.obj)), r.conflicts, r.created, [y, z] + r.queries)
    else
      KeyOutcome(Some(y), [Conflict(at, Summarised(d, y), Summarised(d, z), None)], [], [y, z, y, z])
  }

  /** The merged entries are exactly what each key decided. */
  lemma {:induction false} KeysEntries(d: Dag, path: string, b: Object, o: Object, t: Object, ks: seq<string>)
    requires Acyclic(d.store) && b.MapNode? && o.MapNode? && t.MapNode? && Distinct(ks)
    ensures forall k :: k in ks ==>
      Lookup(MergeKeys(d, path, b, o, t, ks).entries, k) == MergeKey(d, path, b, o, t, k).entry
    ensures MergeKeys(d, path, b, o, t, ks).entries.Keys <= set k | k in ks
  {
    if ks != [] {
      var n := |ks| - 1;
      KeysEntries(d, path, b, o, t, ks[..n]);
      assert ks == ks[..n] + [ks[n]];
      assert ks[n] !in ks[..n];
    }
  }

  lemma {:induction false} KeysCreated(d: Dag, path: string, b: Object, o: Object, t: Object, ks: seq<string>)
    requires Acyclic(d.store) && b.MapNode? && o.MapNode? && t.MapNode?
    ensures forall k, x :: k in ks && x in MergeKey(d, path, b, o, t, k).created ==>
      x in MergeKeys(d, path, b, o, t, ks).created
  {
    if ks != [] {
      var n := |ks| - 1;
      KeysCreated(d, path, b, o, t, ks[..n]);
      assert ks == ks[..n] + [ks[n]];
    }
  }

  // ----- the cases of the definitions, for use where their bodies are too much

  lemma AgreedOutcome(d: Dag, path: string, b: Object, o: Object, t: Object)
    requires Acyclic(d.store) && (o == t || b == o || b == t)
    ensures MergeObjects(d, path, b, o, t) == Outcome(if o == t || b == t then o else t, [], [], [])
  {
  }

  lemma ClashOutcome(d: Dag, path: string, b: Object, o: Object, t: Object)
    requires Acyclic(d.store) && o != t && b != o && b != t
    requires !(b.MapNode? && o.MapNode? && t.MapNode?) && !(b.SetNode? && o.SetNode? && t.SetNode?)
    ensures var r := MergeObjects(d, path, b, o, t);
      && r.obj == o
      && r.conflicts == [Conflict(path, Some(FromObject(o)), Some(FromObject(t)), Some(FromObject(b)))]
  {
  }

  lemma SetsOutcome(d: Dag, path: string, b: Object, o: Object, t: Object)
    requires Acyclic(d.store) && o != t && b != o && b != t && b.SetNode? && o.SetNode? && t.SetNode?
    ensures var obj := MergedSet(o.members, t.members);
      MergeObjects(d, path, b, o, t) == Outcome(obj, [], [obj], [])
  {
  }

  lemma KeyChanged(d: Dag, path: string, b: Object, o: Object, t: Object, k: string)
    requires Acyclic(d.store) && b.MapNode? && o.MapNode? && t.MapNode?
    requires Lookup(o.entries, k) != Lookup(t.entries, k)
    requires Lookup(b.entries, k) != Lookup(o.entries, k) && Lookup(b.entries, k) != Lookup(t.entries, k)
    ensures k in b.entries && k in o.entries && k in t.entries ==>
      MergeKey(d, path, b, o, t, k) == MergeChild(d, ChildPath(path, k), b, o, t, k)
    ensures k !in b.entries && k in o.entries && k in t.entries ==>
      MergeKey(d, path, b, o, t, k) == MergeAdded(d, ChildPath(path, k), o, t, k)
  {
  }

  lemma KeyDeleted(d: Dag, path: string, b: Object, o: Object, t: Object, k: string)
    requires Acyclic(d.store) && b.MapNode? && o.MapNode? && t.MapNode? && k in b.entries
    requires k in o.entries <==> k !in t.entries
    requires Lookup(b.entries, k) != Lookup(o.entries, k) && Lookup(b.entries, k) != Lookup(t.entries, k)
    ensures var x := MergeKey(d, path, b, o, t, k);
      && x.entry == Lookup(o.entries, k)
      && x.conflicts == [Conflict(ChildPath(path, k),
                                  if k in o.entries then Summarised(d, o.entries[k]) else None,
                                  if k in t.entries then Summarised(d, t.entries[k]) else None,
                                  Summarised(d, b.entries[k]))]
  {
  }

  lemma ChildOutcome(d: Dag, at: string, b: Object, o: Object, t: Object, k: string)
    requires Acyclic(d.store) && b.MapNode? && o.MapNode? && t.MapNode?
    requires k in b.entries && k in o.entries && k in t.entries
    requires b.entries[k] in d.store && o.entries[k] in d.store && t.entries[k] in d.store
    ensures var r := MergeObjects(d, at, d.store[b.entries[k]], d.store[o.entries[k]], d.store[t.entries[k]]);
      var x := MergeChild(d, at, b, o, t, k);
      x.entry == Some(d.idOf(r.obj)) && x.conflicts == r.conflicts && x.created == r.created
  {
  }

  lemma MapsOutcome(d: Dag, path: string, b: Object, o: Object, t: Object)
    requires Acyclic(d.store) && b.MapNode? && o.MapNode? && t.MapNode? && o != t && b != o && b != t
    ensures var r, q := MergeObjects(d, path, b, o, t), MergeKeys(d, path, b, o, t, SortedKeys(AllKeys(b, o, t)));
      && r.obj == MapNode(q.entries)
      && r.conflicts == q.conflicts
      && r.created == q.created + [r.obj]
      && r.queries == q.queries
  {
  }

  datatype TopOutcome = TopOutcome(result: MergeResult, created: seq<Object>, queries: seq<ObjectId>)

  /** `three_way_merge_collect`. */
  function ThreeWay(d: Dag, base: ObjectId, ours: ObjectId, theirs: ObjectId): TopOutcome
    requires Acyclic(d.store)
  {
    if base == ours then TopOutcome(FastForward(theirs), [], [])
    else if base == theirs then TopOutcome(FastForward(ours), [], [])
    else if ours == theirs then TopOutcome(FastForward(ours), [], [])
    else if base !in d.store then TopOutcome(FastForward(theirs), [], [base])
    else if ours !in d.store then TopOutcome(FastForward(theirs), [], [base, ours])
    else if theirs !in d.store then TopOutcome(FastForward(ours), [], [base, ours, theirs])
    else
      var r := MergeObjects(d, "/", d.store[base], d.store[ours], d.store[theirs]);
      TopOutcome(
        if r.conflicts == [] then Success(r.obj) else Conflicts(r.obj, r.conflicts),
        r.created,
        [base, ours, theirs] + r.queries)
  }

  /** Two of the roots are the same: the merge looks nothing up. */
  predicate SameRoots(base: ObjectId, ours: ObjectId, theirs: ObjectId) {
    base == ours || base == theirs || ours == theirs
  }

  /**
   A fast-forward is exactly two equal roots or a missing one. It creates nothing, and goes to
   the side that changed; to theirs when the base or ours is missing, to ours when theirs is.
   */
  lemma ResultKind(d: Dag, base: ObjectId, ours: ObjectId, theirs: ObjectId)
    requires Acyclic(d.store)
    ensures var r := ThreeWay(d, base, ours, theirs);
      && (r.result.FastForward? <==>
            SameRoots(base, ours, theirs) || !({base, ours, theirs} <= d.store.Keys))
      && (r.result.FastForward? ==> r.created == [] && r.result.id in {ours, theirs})
      && (SameRoots(base, ours, theirs) && r.result.FastForward? ==>
            r.result.id != base || base == ours == theirs)
      && (!SameRoots(base, ours, theirs) && r.result.FastForward? ==>
            (r.result.id == theirs <==> base !in d.store || ours !in d.store))
      && (!r.result.FastForward? ==> r.result.Success? || (r.result.Conflicts? && r.result.conflicts != []))
  {
    assert {base, ours, theirs} <= d.store.Keys <==> base in d.store && ours in d.store && theirs in d.store;
  }

  /** A key whose three objects cannot all be found keeps ours, with a bare conflict and nothing created. */
  lemma UnresolvedChild(d: Dag, path: string, b: Object, o: Object, t: Object, k: string)
    requires Acyclic(d.store) && b.MapNode? && o.MapNode? && t.MapNode?
    requires k in b.entries && k in o.entries && k in t.entries
    requires o.entries[k] != t.entries[k] && b.entries[k] != o.entries[k] && b.entries[k] != t.entries[k]
    requires !({b.entries[k], o.entries[k], t.entries[k]} <= d.store.Keys)
    ensures MergeKey(d, path, b, o, t, k).entry == Lookup(o.entries, k)
    ensures MergeKey(d, path, b, o, t, k).conflicts == [Conflict(ChildPath(path, k), None, None, None)]
    ensures MergeKey(d, path, b, o, t, k).created == []
  {
    KeyChanged(d, path, b, o, t, k);
  }

  /** So does a key both sides added unless both objects are maps; what is found is reported. */
  lemma UnresolvedAdded(d: Dag, path: string, b: Object, o: Object, t: Object, k: string)
    requires Acyclic(d.store) && b.MapNode? && o.MapNode? && t.MapNode?
    requires k !in b.entries && k in o.entries && k in t.entries && o.entries[k] != t.entries[k]
    requires o.entries[k] !in d.store || t.entries[k] !in d.store
    ensures var x := MergeKey(d, path, b, o, t, k);
      && x.entry == Lookup(o.entries, k) && x.created == [] && |x.conflicts| == 1
      && (x.conflicts[0].ours.Some? <==> o.entries[k] in d.store)
      && (x.conflicts[0].theirs.Some? <==> t.entries[k] in d.store)
      && x.conflicts[0].base == None
  {
    KeyChanged(d, path, b, o, t, k);
  }
}

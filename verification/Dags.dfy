/**
 The Merkle DAG the algorithms walk: objects found by id in a store. `idOf` stands
 for the hash of the canonical bytes and is left abstract; no statement assumes it
 injective beyond the objects it names.
 */
module Dags {
  import opened Order
  import opened Objects

  type Store = map<ObjectId, Object>

  datatype Dag = Dag(idOf: Object -> ObjectId, store: Store)

  // ----- lookups

  function Resolve(d: Dag, id: ObjectId): Option<Object> {
    if id in d.store then Some(d.store[id]) else None
  }

  function Lookup(m: map<string, ObjectId>, k: string): Option<ObjectId> {
    if k in m then Some(m[k]) else None
  }

  // ----- ranks

  ghost predicate WellRanked(s: Store, rank: ObjectId -> nat) {
    forall i, c :: i in s && c in Children(s[i]) ==> rank(c) < rank(i)
  }

  /** No object is below itself. Content addressing gives this; see `BuiltStoreIsSound`. */
  ghost predicate Acyclic(s: Store) {
    exists rank: ObjectId -> nat :: WellRanked(s, rank)
  }

  ghost function RankOf(s: Store): (rank: ObjectId -> nat)
    requires Acyclic(s)
    ensures WellRanked(s, rank)
  {
    var rank: ObjectId -> nat :| WellRanked(s, rank);
    rank
  }

  ghost function MaxRank(rank: ObjectId -> nat, ids: set<ObjectId>): (n: nat)
    ensures forall c :: c in ids ==> rank(c) < n
    ensures ids == {} ==> n == 0
    ensures ids != {} ==> exists c :: c in ids && n == rank(c) + 1
  {
    if ids == {} then 0
    else
      var c :| c in ids;
      var m := MaxRank(rank, ids - {c});
      if m > rank(c) then m else rank(c) + 1
  }

  /** How far an object (in the store or not) is above the deepest id below it. */
  ghost function Height(s: Store, o: Object): nat
    requires Acyclic(s)
  {
    MaxRank(RankOf(s), Children(o))
  }

  lemma ChildrenLower(s: Store, o: Object)
    requires Acyclic(s)
    ensures forall c :: c in Children(o) && c in s ==> Height(s, s[c]) < Height(s, o)
  {
  }

  // ----- sound stores

  ghost predicate Closed(s: Store) {
    forall i, c :: i in s && c in Children(s[i]) ==> c in s
  }

  /** Every object sits under its own id. */
  ghost predicate Addressed(d: Dag) {
    forall i {:trigger d.idOf(d.store[i])} :: i in d.store ==> d.idOf(d.store[i]) == i
  }

  ghost predicate Sound(d: Dag) {
    && Acyclic(d.store)
    && Closed(d.store)
    && Addressed(d)
    && forall i {:trigger Canonical(d.store[i])} :: i in d.store ==> Canonical(d.store[i])
  }

  /** An object, stored or not yet, whose children are all stored. */
  ghost predicate Supported(d: Dag, o: Object) {
    Children(o) <= d.store.Keys && Canonical(o)
  }

  ghost predicate Extends(d: Dag, e: Dag) {
    && e.idOf == d.idOf
    && forall i :: i in d.store ==> i in e.store && e.store[i] == d.store[i]
  }

  /** `o` can be read back from the store by its id. */
  ghost predicate Stored(d: Dag, o: Object) {
    d.idOf(o) in d.store && d.store[d.idOf(o)] == o
  }

  function Put(d: Dag, o: Object): Dag {
    d.(store := d.store[d.idOf(o) := o])
  }

  /** One write after the other, in list order. */
  function PutAll(d: Dag, os: seq<Object>): Dag {
    if os == [] then d else Put(PutAll(d, os[..|os| - 1]), os[|os| - 1])
  }

  /** No two different objects among the store's and `os` share an id. */
  ghost predicate CollisionFree(d: Dag, os: seq<Object>) {
    && (forall x :: x in os && d.idOf(x) in d.store ==> d.store[d.idOf(x)] == x)
    && (forall x, y :: x in os && y in os && d.idOf(x) == d.idOf(y) ==> x == y)
  }

  ghost predicate Held(d: Dag, os: seq<Object>, c: ObjectId) {
    c in d.store || exists j :: 0 <= j < |os| && d.idOf(os[j]) == c
  }

  /** Every object's children are in the store or earlier in the list. */
  ghost predicate ChildFirst(d: Dag, os: seq<Object>) {
    forall i :: 0 <= i < |os| ==>
      Canonical(os[i]) && forall c :: c in Children(os[i]) ==> Held(d, os[..i], c)
  }

  lemma PutSound(d: Dag, o: Object)
    requires Sound(d) && Supported(d, o)
    requires d.idOf(o) in d.store ==> d.store[d.idOf(o)] == o
    ensures Sound(Put(d, o)) && Extends(d, Put(d, o)) && Stored(Put(d, o), o)
  {
    var e, id := Put(d, o), d.idOf(o);
    if id in d.store {
      assert e.store == d.store;
    } else {
      PutAcyclic(d.store, id, o);
    }
  }

  lemma PutAcyclic(s: Store, id: ObjectId, o: Object)
    requires Acyclic(s) && Closed(s) && id !in s && Children(o) <= s.Keys
    ensures Acyclic(s[id := o])
  {
    var rank := RankOf(s);
    var top := MaxRank(rank, Children(o));
    var rank': ObjectId -> nat := i => if i == id then top else rank(i);
    assert WellRanked(s[id := o], rank');
  }

  /** `e` is `d` with the objects `os` written, and nothing else. */
  ghost predicate Written(d: Dag, e: Dag, os: seq<Object>) {
    && Extends(d, e)
    && (forall o :: o in os ==> Stored(e, o))
    && (forall i :: i in e.store ==> Held(d, os, i))
  }

  lemma HeldIsStored(d: Dag, e: Dag, os: seq<Object>, c: ObjectId)
    requires Written(d, e, os) && Held(d, os, c)
    ensures c in e.store
  {
    if c !in d.store {
      var j :| 0 <= j < |os| && d.idOf(os[j]) == c;
      assert Stored(e, os[j]);
    }
  }

  lemma NotOverwritten(d: Dag, e: Dag, os: seq<Object>, o: Object)
    requires Written(d, e, os) && CollisionFree(d, os + [o]) && d.idOf(o) in e.store
    ensures e.store[d.idOf(o)] == o
  {
    var all, id := os + [o], d.idOf(o);
    assert all[|os|] == o;
    assert Held(d, os, id);
    if id !in d.store {
      var j :| 0 <= j < |os| && d.idOf(os[j]) == id;
      assert all[j] == os[j];
      assert os[j] in all && Stored(e, os[j]);
    }
  }

  lemma WrittenNext(d: Dag, e: Dag, os: seq<Object>, o: Object)
    requires Written(d, e, os) && Extends(e, Put(e, o))
    ensures Written(d, Put(e, o), os + [o])
  {
    var f, all := Put(e, o), os + [o];
    forall x | x in all ensures Stored(f, x) {
      if x in os { assert Stored(e, x); }
    }
    forall i | i in f.store ensures Held(d, all, i) {
      if i == d.idOf(o) {
        assert d.idOf(all[|os|]) == i;
      } else {
        HeldMore(d, os, [o], i);
      }
    }
  }

  /** Writing a child-first list keeps the store sound after every single write. */
  lemma {:induction false} PutAllSound(d: Dag, os: seq<Object>)
    requires Sound(d) && ChildFirst(d, os) && CollisionFree(d, os)
    ensures Sound(PutAll(d, os)) && Written(d, PutAll(d, os), os)
  {
    if os != [] {
      var n := |os| - 1;
      var init, o := os[..n], os[n];
      assert forall i :: 0 <= i < n ==> init[..i] == os[..i];
      PutAllSound(d, init);
      var e := PutAll(d, init);
      forall c | c in Children(o) ensures c in e.store {
        HeldIsStored(d, e, init, c);
      }
      assert os == init + [o];
      if d.idOf(o) in e.store { NotOverwritten(d, e, init, o); }
      PutSound(e, o);
      WrittenNext(d, e, init, o);
    }
  }

  /** A store filled from nothing, children before parents, is sound. */
  lemma BuiltStoreIsSound(idOf: Object -> ObjectId, log: seq<Object>)
    requires ChildFirst(Dag(idOf, map[]), log) && CollisionFree(Dag(idOf, map[]), log)
    ensures Sound(PutAll(Dag(idOf, map[]), log))
  {
    var empty := Dag(idOf, map[]);
    assert WellRanked(empty.store, (i: ObjectId) => 0);
    PutAllSound(empty, log);
  }

  /** Objects may be missing: a part of an acyclic store is acyclic. */
  lemma PartIsAcyclic(s: Store, part: Store)
    requires Acyclic(s)
    requires forall i :: i in part ==> i in s && s[i] == part[i]
    ensures Acyclic(part)
  {
    assert WellRanked(part, RankOf(s));
  }

  lemma StoredChild(d: Dag, o: Object, c: ObjectId)
    requires Sound(d) && Supported(d, o) && c in Children(o)
    ensures c in d.store && d.idOf(d.store[c]) == c
    ensures Supported(d, d.store[c]) && Stored(d, d.store[c])
    ensures Height(d.store, d.store[c]) < Height(d.store, o)
  {
    ChildrenLower(d.store, o);
  }

  /** `id` is reached from `o` by following one child id or more. */
  ghost predicate Below(d: Dag, o: Object, id: ObjectId)
    requires Acyclic(d.store)
    decreases Height(d.store, o)
  {
    ChildrenLower(d.store, o);
    id in Children(o) || exists c :: c in Children(o) && c in d.store && Below(d, d.store[c], id)
  }

  /** `id` is `root` or reached from it. */
  ghost predicate Reachable(d: Dag, root: ObjectId, id: ObjectId)
    requires Acyclic(d.store)
  {
    id == root || (root in d.store && Below(d, d.store[root], id))
  }

  lemma BelowVia(d: Dag, o: Object, c: ObjectId, id: ObjectId)
    requires Acyclic(d.store) && c in Children(o) && Reachable(d, c, id)
    ensures Below(d, o, id)
  {
  }

  lemma {:induction false} BelowIsStored(d: Dag, o: Object, id: ObjectId)
    requires Acyclic(d.store) && Closed(d.store) && Children(o) <= d.store.Keys && Below(d, o, id)
    ensures id in d.store
    decreases Height(d.store, o)
  {
    ChildrenLower(d.store, o);
    if id !in Children(o) {
      var c :| c in Children(o) && c in d.store && Below(d, d.store[c], id);
      BelowIsStored(d, d.store[c], id);
    }
  }

  lemma ChildFirstConcat(d: Dag, xs: seq<Object>, ys: seq<Object>)
    requires ChildFirst(d, xs) && ChildFirst(d, ys)
    ensures ChildFirst(d, xs + ys)
  {
    var zs := xs + ys;
    forall i, c | 0 <= i < |zs| && c in Children(zs[i]) ensures Held(d, zs[..i], c) {
      if i < |xs| {
        assert Held(d, xs[..i], c) && zs[..i] == xs[..i];
      } else {
        HeldMore(d, xs, ys[..i - |xs|], c);
        assert zs[..i] == xs + ys[..i - |xs|];
      }
    }
  }

  lemma HeldMore(d: Dag, xs: seq<Object>, ys: seq<Object>, c: ObjectId)
    requires Held(d, xs, c) || Held(d, ys, c)
    ensures Held(d, xs + ys, c)
  {
    if c !in d.store {
      if Held(d, xs, c) {
        var j :| 0 <= j < |xs| && d.idOf(xs[j]) == c;
        assert d.idOf((xs + ys)[j]) == c;
      } else {
        var j :| 0 <= j < |ys| && d.idOf(ys[j]) == c;
        assert d.idOf((xs + ys)[|xs| + j]) == c;
      }
    }
  }
}

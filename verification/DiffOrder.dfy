/**
 The order of the ops, one node at a time: in a map removed keys, then added keys, then the
 keys both sides have, each in key order; in a list by position; in a set removed members, then
 added ones, each in id order.
 */
module DiffOrder {
  import opened Order
  import opened Objects
  import opened Dags
  import opened Paths
  import opened Diff
  import DiffPatch
  import opened DiffMerge
  import opened DiffDistinct

  /** Any two ops, in the order of the stream. */
  ghost predicate Ordered(ops: seq<FullOp>, before: (FullOp, FullOp) -> bool) {
    forall i, j :: 0 <= i < j < |ops| ==> before(ops[i], ops[j])
  }

  lemma OrderedConcat(a: seq<FullOp>, b: seq<FullOp>, before: (FullOp, FullOp) -> bool)
    requires Ordered(a, before) && Ordered(b, before) && forall x, y :: x in a && y in b ==> before(x, y)
    ensures Ordered(a + b, before)
  {
    var c := a + b;
    forall i, j | 0 <= i < j < |c| ensures before(c[i], c[j]) {
      if i < |a| <= j {
        assert a[i] in a && b[j - |a|] in b;
      }
    }
  }

  // ----- maps

  function Stage(op: FullOp, p: StatePath): nat {
    if op.path != p then 2 else if op.RemoveKey? then 0 else 1
  }

  /** The key of the node at `p` that an op is about. */
  function KeyOf(op: FullOp, p: StatePath): string {
    var at := Location(op);
    if |at| > |p| && at[|p|].Key? then at[|p|].key else ""
  }

  function ByKey(p: StatePath): (FullOp, FullOp) -> bool {
    (a: FullOp, b: FullOp) =>
      Stage(a, p) < Stage(b, p) || (Stage(a, p) == Stage(b, p) && StringLeq(KeyOf(a, p), KeyOf(b, p)))
  }

  /** What a key's presence says about the stage of its ops. */
  function StageOf(x: Object, y: Object, k: string): nat
    requires x.MapNode? && y.MapNode?
  {
    if k !in y.entries then 0 else if k !in x.entries then 1 else 2
  }

  lemma OpsOfKey(d: Dag, p: StatePath, x: Object, y: Object, k: string)
    requires Acyclic(d.store) && x.MapNode? && y.MapNode?
    ensures forall op :: op in KeyOps(d, p, x, y, k) ==> KeyOf(op, p) == k && Stage(op, p) == StageOf(x, y, k)
  {
    KeyLocations(d, p, x, y, k);
    DiffPatch.KeyUnder(d, p, x, y, k);
    forall op | op in KeyOps(d, p, x, y, k) ensures KeyOf(op, p) == k && Stage(op, p) == StageOf(x, y, k) {
      assert (p + [Key(k)])[|p|] == Key(k);
      if k in x.entries && k in y.entries {
        assert p + [Key(k)] <= op.path && |op.path| > |p|;
      }
    }
  }

  lemma {:induction false} KeysOrdered(d: Dag, p: StatePath, x: Object, y: Object, ks: seq<string>, stage: nat)
    requires Acyclic(d.store) && x.MapNode? && y.MapNode? && StrictlySorted(ks, StringLeq)
    requires forall k :: k in ks ==> StageOf(x, y, k) == stage
    ensures Ordered(KeysOps(d, p, x, y, ks), ByKey(p))
    ensures forall op :: op in KeysOps(d, p, x, y, ks) ==> Stage(op, p) == stage && KeyOf(op, p) in ks
  {
    if ks != [] {
      var n := |ks| - 1;
      var a, b := KeysOps(d, p, x, y, ks[..n]), KeyOps(d, p, x, y, ks[n]);
      KeysOrdered(d, p, x, y, ks[..n], stage);
      OpsOfKey(d, p, x, y, ks[n]);
      StringOrder();
      forall v, w | v in a && w in b ensures ByKey(p)(v, w) {
        var i :| 0 <= i < n && ks[i] == KeyOf(v, p);
        assert StringLeq(ks[i], ks[n]);
      }
      OrderedConcat(a, b, ByKey(p));
      assert ks == ks[..n] + [ks[n]];
    }
  }

  /** The ops of two maps, stage by stage and key by key. */
  lemma MapsInOrder(d: Dag, p: StatePath, x: Object, y: Object)
    requires Acyclic(d.store) && x.MapNode? && y.MapNode?
    ensures Ordered(DiffMaps(d, p, x, y), ByKey(p))
  {
    var xk, yk := x.entries.Keys, y.entries.Keys;
    var gone, came, both := SortedKeys(xk - yk), SortedKeys(yk - xk), SortedKeys(xk * yk);
    SortedKeysAscend(xk - yk);
    SortedKeysAscend(yk - xk);
    SortedKeysAscend(xk * yk);
    KeysOrdered(d, p, x, y, gone, 0);
    KeysOrdered(d, p, x, y, came, 1);
    KeysOrdered(d, p, x, y, both, 2);
    OrderedConcat(KeysOps(d, p, x, y, gone), KeysOps(d, p, x, y, came), ByKey(p));
    OrderedConcat(
      KeysOps(d, p, x, y, gone) + KeysOps(d, p, x, y, came), KeysOps(d, p, x, y, both), ByKey(p));
  }

  // ----- lists

  /** The position of the node at `p` that an op is about. */
  function IndexOf(op: FullOp, p: StatePath): nat {
    var at := Location(op);
    if |at| > |p| && at[|p|].Index? then at[|p|].index else 0
  }

  function ByIndex(p: StatePath): (FullOp, FullOp) -> bool {
    (a: FullOp, b: FullOp) => IndexOf(a, p) <= IndexOf(b, p)
  }

  lemma OpsOfIndex(d: Dag, p: StatePath, x: Object, y: Object, n: nat)
    requires Acyclic(d.store) && x.ListNode? && y.ListNode?
    ensures AllAt(IndexOps(d, p, x, y, n), p, n)
  {
    IndexLocations(d, p, x, y, n);
    forall op | op in IndexOps(d, p, x, y, n) ensures IndexOf(op, p) == n {
      assert About(op, p, Index(n)) && (p + [Index(n)])[|p|] == Index(n);
    }
  }

  ghost predicate AllBefore(ops: seq<FullOp>, p: StatePath, n: nat) {
    forall op :: op in ops ==> IndexOf(op, p) < n
  }

  ghost predicate AllAt(ops: seq<FullOp>, p: StatePath, n: nat) {
    forall op :: op in ops ==> IndexOf(op, p) == n
  }

  lemma IndexConcat(a: seq<FullOp>, b: seq<FullOp>, p: StatePath, n: nat)
    requires Ordered(a, ByIndex(p)) && AllBefore(a, p, n) && AllAt(b, p, n)
    ensures Ordered(a + b, ByIndex(p)) && AllBefore(a + b, p, n + 1)
  {
    forall i, j | 0 <= i < j < |b| ensures ByIndex(p)(b[i], b[j]) {
      assert b[i] in b && b[j] in b;
    }
    OrderedConcat(a, b, ByIndex(p));
  }

  lemma OneMoreIndex(d: Dag, p: StatePath, x: Object, y: Object, n: nat)
    requires Acyclic(d.store) && x.ListNode? && y.ListNode?
    ensures DiffLists(d, p, x, y, n + 1) == DiffLists(d, p, x, y, n) + IndexOps(d, p, x, y, n)
  {
  }

  ghost predicate InIndexOrder(ops: seq<FullOp>, p: StatePath, n: nat) {
    Ordered(ops, ByIndex(p)) && AllBefore(ops, p, n)
  }

  lemma NextIndex(d: Dag, p: StatePath, x: Object, y: Object, n: nat)
    requires Acyclic(d.store) && x.ListNode? && y.ListNode? && n > 0
    requires InIndexOrder(DiffLists(d, p, x, y, n - 1), p, n - 1)
    ensures InIndexOrder(DiffLists(d, p, x, y, n), p, n)
  {
    OpsOfIndex(d, p, x, y, n - 1);
    IndexConcat(DiffLists(d, p, x, y, n - 1), IndexOps(d, p, x, y, n - 1), p, n - 1);
    OneMoreIndex(d, p, x, y, n - 1);
  }

  lemma NoIndex(d: Dag, p: StatePath, x: Object, y: Object)
    requires Acyclic(d.store) && x.ListNode? && y.ListNode?
    ensures InIndexOrder(DiffLists(d, p, x, y, 0), p, 0)
  {
  }

  lemma {:induction false} ListsInOrder(d: Dag, p: StatePath, x: Object, y: Object, n: nat)
    requires Acyclic(d.store) && x.ListNode? && y.ListNode?
    ensures InIndexOrder(DiffLists(d, p, x, y, n), p, n)
  {
    if n == 0 {
      NoIndex(d, p, x, y);
    } else {
      ListsInOrder(d, p, x, y, n - 1);
      NextIndex(d, p, x, y, n);
    }
  }

  // ----- sets

  function ById(d: Dag): (FullOp, FullOp) -> bool {
    (a: FullOp, b: FullOp) =>
      || (a.RemoveFromSet? && b.AddToSet?)
      || (a.RemoveFromSet? && b.RemoveFromSet? && InIdOrder(d, a.value, b.value))
      || (a.AddToSet? && b.AddToSet? && InIdOrder(d, a.value, b.value))
  }

  predicate InIdOrder(d: Dag, a: Option<Object>, b: Option<Object>) {
    a.Some? && b.Some? && IdLeq(d.idOf(a.value), d.idOf(b.value))
  }

  lemma ResolvedInOrder(d: Dag, ids: seq<ObjectId>)
    requires Addressed(d) && StrictlySorted(ids, IdLeq) && forall i :: i in ids ==> i in d.store
    ensures forall i, j :: 0 <= i < j < |ids| ==> InIdOrder(d, Resolve(d, ids[i]), Resolve(d, ids[j]))
  {
    forall i, j | 0 <= i < j < |ids| ensures InIdOrder(d, Resolve(d, ids[i]), Resolve(d, ids[j])) {
      assert ids[i] in ids && ids[j] in ids;
      assert d.idOf(d.store[ids[i]]) == ids[i] && d.idOf(d.store[ids[j]]) == ids[j];
    }
  }

  lemma SetsInOrder(d: Dag, p: StatePath, x: Object, y: Object)
    requires Sound(d) && Supported(d, x) && Supported(d, y) && x.SetNode? && y.SetNode?
    ensures Ordered(DiffSets(d, p, x, y), ById(d))
  {
    var xs, ys := Elements(x.members), Elements(y.members);
    var gone, came := SortedIds(xs - ys), SortedIds(ys - xs);
    SortedIdsAscend(xs - ys);
    SortedIdsAscend(ys - xs);
    assert xs == Children(x) && ys == Children(y);
    ResolvedInOrder(d, gone);
    ResolvedInOrder(d, came);
    OrderedConcat(RemovedMembers(d, p, gone), AddedMembers(d, p, came), ById(d));
  }
}

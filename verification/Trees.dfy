/** The values a DAG stands for: every id replaced by what it names, all the way down. */
module Trees {
  import opened Order
  import opened Objects
  import opened Dags

  datatype Tree =
    | Leaf(atom: Atom)
    | TMap(entries: map<string, Tree>)
    | TList(items: seq<Tree>)
    | TSet(members: set<Tree>)

  ghost predicate Readable(d: Dag) {
    Acyclic(d.store) && Closed(d.store)
  }

  ghost function Expand(d: Dag, o: Object): (t: Tree)
    requires Readable(d) && Children(o) <= d.store.Keys
    decreases Height(d.store, o)
  {
    ChildrenLower(d.store, o);
    match o
    case AtomObject(a) => Leaf(a)
    case MapNode(m) => TMap(map k | k in m :: assert m[k] in Children(o); Expand(d, d.store[m[k]]))
    case ListNode(l) => TList(seq(|l|, i requires 0 <= i < |l| => assert l[i] in Children(o); Expand(d, d.store[l[i]])))
    case SetNode(l) => TSet(set i | 0 <= i < |l| :: assert l[i] in Children(o); Expand(d, d.store[l[i]]))
  }

  ghost function ExpandId(d: Dag, id: ObjectId): Tree
    requires Readable(d) && id in d.store
  {
    Expand(d, d.store[id])
  }

  lemma ExpandedMap(d: Dag, o: Object)
    requires Readable(d) && Children(o) <= d.store.Keys && o.MapNode?
    ensures Expand(d, o).TMap? && Expand(d, o).entries.Keys == o.entries.Keys
  {
  }

  /** Reading a value is unaffected by objects added beside it. */
  lemma {:induction false} ExpandExtends(d: Dag, e: Dag, o: Object)
    requires Readable(d) && Readable(e) && Extends(d, e) && Children(o) <= d.store.Keys
    ensures Children(o) <= e.store.Keys && Expand(d, o) == Expand(e, o)
    decreases Height(d.store, o)
  {
    ChildrenLower(d.store, o);
    forall c | c in Children(o) ensures ExpandId(d, c) == ExpandId(e, c) {
      ExpandExtends(d, e, d.store[c]);
    }
    match o
    case AtomObject(_) =>
    case MapNode(_) => SameMapTree(d, e, o);
    case ListNode(_) => SameListTree(d, e, o);
    case SetNode(_) => SameSetTree(d, e, o);
  }

  ghost predicate SameChildren(d: Dag, e: Dag, o: Object) {
    && Readable(d) && Readable(e)
    && Children(o) <= d.store.Keys && Children(o) <= e.store.Keys
    && forall c :: c in Children(o) ==> ExpandId(d, c) == ExpandId(e, c)
  }

  lemma SameMapTree(d: Dag, e: Dag, o: Object)
    requires SameChildren(d, e, o) && o.MapNode?
    ensures Expand(d, o) == Expand(e, o)
  {
    assert forall k :: k in o.entries ==> o.entries[k] in Children(o);
    assert Expand(d, o).entries == Expand(e, o).entries;
  }

  lemma SameListTree(d: Dag, e: Dag, o: Object)
    requires SameChildren(d, e, o) && o.ListNode?
    ensures Expand(d, o) == Expand(e, o)
  {
    assert forall i :: 0 <= i < |o.items| ==> o.items[i] in Children(o);
    assert Expand(d, o).items == Expand(e, o).items;
  }

  lemma SameSetTree(d: Dag, e: Dag, o: Object)
    requires SameChildren(d, e, o) && o.SetNode?
    ensures Expand(d, o) == Expand(e, o)
  {
    assert forall i :: 0 <= i < |o.members| ==> o.members[i] in Children(o);
    assert Expand(d, o).members == Expand(e, o).members;
  }

  /** In a sound store an object is determined by the tree it expands to. */
  lemma {:induction false} ObjectsStandForTrees(d: Dag, x: Object, y: Object)
    requires Sound(d) && Supported(d, x) && Supported(d, y)
    ensures Expand(d, x) == Expand(d, y) <==> x == y
    decreases Height(d.store, x)
  {
    if Expand(d, x) == Expand(d, y) {
      ChildrenLower(d.store, x);
      forall c, c' | c in Children(x) && c' in Children(y) && ExpandId(d, c) == ExpandId(d, c') ensures c == c' {
        ObjectsStandForTrees(d, d.store[c], d.store[c']);
        assert d.idOf(d.store[c]) == c && d.idOf(d.store[c']) == c';
      }
      match x
      case AtomObject(_) =>
      case MapNode(m) => MapsAgree(d, x, y);
      case ListNode(l) => ListsAgree(d, x, y);
      case SetNode(l) => SetsAgree(d, x, y);
    }
  }

  ghost predicate ChildrenStandForTrees(d: Dag, x: Object, y: Object)
    requires Readable(d) && Children(x) <= d.store.Keys && Children(y) <= d.store.Keys
  {
    forall c, c' :: c in Children(x) && c' in Children(y) && ExpandId(d, c) == ExpandId(d, c') ==> c == c'
  }

  lemma MapsAgree(d: Dag, x: Object, y: Object)
    requires Sound(d) && Supported(d, x) && Supported(d, y) && x.MapNode? && y.MapNode?
    requires Expand(d, x) == Expand(d, y) && ChildrenStandForTrees(d, x, y)
    ensures x == y
  {
    var m, n := x.entries, y.entries;
    assert m.Keys == Expand(d, x).entries.Keys == n.Keys;
    forall k | k in m ensures m[k] == n[k] {
      assert m[k] in Children(x) && n[k] in Children(y);
      assert ExpandId(d, m[k]) == Expand(d, x).entries[k];
      assert ExpandId(d, n[k]) == Expand(d, y).entries[k];
    }
    assert m == n;
  }

  lemma ListsAgree(d: Dag, x: Object, y: Object)
    requires Sound(d) && Supported(d, x) && Supported(d, y) && x.ListNode? && y.ListNode?
    requires Expand(d, x) == Expand(d, y) && ChildrenStandForTrees(d, x, y)
    ensures x == y
  {
    var l, n := x.items, y.items;
    assert |l| == |Expand(d, x).items| == |n|;
    forall i | 0 <= i < |l| ensures l[i] == n[i] {
      assert l[i] in Children(x) && n[i] in Children(y);
      assert ExpandId(d, l[i]) == Expand(d, x).items[i];
      assert ExpandId(d, n[i]) == Expand(d, y).items[i];
    }
  }

  lemma SetsAgree(d: Dag, x: Object, y: Object)
    requires Sound(d) && Supported(d, x) && Supported(d, y) && x.SetNode? && y.SetNode?
    requires Expand(d, x) == Expand(d, y) && ChildrenStandForTrees(d, x, y)
    ensures x == y
  {
    assert Children(x) == Children(y) by {
      MembersFound(d, x, y);
      assert ChildrenStandForTrees(d, y, x);
      MembersFound(d, y, x);
    }
    CanonicalSetUnique(x, y);
  }

  lemma MembersFound(d: Dag, x: Object, y: Object)
    requires Sound(d) && Supported(d, x) && Supported(d, y) && x.SetNode? && y.SetNode?
    requires Expand(d, x) == Expand(d, y) && ChildrenStandForTrees(d, x, y)
    ensures Children(x) <= Children(y)
  {
    forall c | c in Children(x) ensures c in Children(y) {
      assert ExpandId(d, c) in Expand(d, x).members;
      var j :| 0 <= j < |y.members| && ExpandId(d, y.members[j]) == ExpandId(d, c);
      assert y.members[j] in Children(y);
    }
  }

  /** Two ids are equal exactly when they name equal trees. */
  lemma IdsStandForTrees(d: Dag, i: ObjectId, j: ObjectId)
    requires Sound(d) && i in d.store && j in d.store
    ensures i == j <==> ExpandId(d, i) == ExpandId(d, j)
  {
    ObjectsStandForTrees(d, d.store[i], d.store[j]);
    assert d.idOf(d.store[i]) == i && d.idOf(d.store[j]) == j;
  }

  lemma MemberOf(d: Dag, o: Object, x: Tree)
    requires Readable(d) && Children(o) <= d.store.Keys && o.SetNode?
    ensures x in Expand(d, o).members <==> exists c :: c in Children(o) && ExpandId(d, c) == x
  {
    if x in Expand(d, o).members {
      var i :| 0 <= i < |o.members| && ExpandId(d, o.members[i]) == x;
      assert o.members[i] in Children(o);
    }
  }

  /** The trees one set has and the other lacks are those of the ids it has and the other lacks. */
  lemma OnlyIn(d: Dag, x: Object, y: Object, t: Tree)
    requires Sound(d) && Supported(d, x) && Supported(d, y) && x.SetNode? && y.SetNode?
    ensures t in Expand(d, x).members - Expand(d, y).members <==>
      exists i :: i in Children(x) && i !in Children(y) && ExpandId(d, i) == t
  {
    MemberOf(d, x, t);
    MemberOf(d, y, t);
    if i :| i in Children(x) && i !in Children(y) && ExpandId(d, i) == t {
      forall c | c in Children(y) ensures ExpandId(d, c) != t {
        IdsStandForTrees(d, i, c);
      }
    }
  }

  /** A set node lists as many ids as its tree has members. */
  lemma SetSize(d: Dag, o: Object)
    requires Sound(d) && Supported(d, o) && o.SetNode?
    ensures |Expand(d, o).members| == |o.members|
  {
    SetSizePrefix(d, o, |o.members|);
    assert Expand(d, o).members == MembersUpTo(d, o, |o.members|);
  }

  ghost function MembersUpTo(d: Dag, o: Object, n: nat): set<Tree>
    requires Readable(d) && Children(o) <= d.store.Keys && o.SetNode? && n <= |o.members|
  {
    set i | 0 <= i < n :: assert o.members[i] in Children(o); ExpandId(d, o.members[i])
  }

  lemma MembersDistinct(o: Object)
    requires o.SetNode? && Canonical(o)
    ensures Distinct(o.members)
  {
    AscendingIdsAreSorted(o.members);
  }

  lemma {:induction false} SetSizePrefix(d: Dag, o: Object, n: nat)
    requires Sound(d) && Supported(d, o) && o.SetNode? && n <= |o.members|
    ensures |MembersUpTo(d, o, n)| == n
  {
    if n > 0 {
      SetSizePrefix(d, o, n - 1);
      MembersDistinct(o);
      NotRepeated(d, o, n - 1);
      OneMoreMember(d, o, n - 1);
      OneLarger(MembersUpTo(d, o, n - 1), ExpandId(d, o.members[n - 1]));
    }
  }

  lemma OneLarger(s: set<Tree>, x: Tree)
    requires x !in s
    ensures |s + {x}| == |s| + 1
  {
  }

  lemma OneMoreMember(d: Dag, o: Object, n: nat)
    requires Readable(d) && Children(o) <= d.store.Keys && o.SetNode? && n < |o.members|
    ensures o.members[n] in d.store
    ensures MembersUpTo(d, o, n + 1) == MembersUpTo(d, o, n) + {ExpandId(d, o.members[n])}
  {
    assert o.members[n] in Children(o);
  }

  lemma NotRepeated(d: Dag, o: Object, n: nat)
    requires Sound(d) && Supported(d, o) && o.SetNode? && n < |o.members| && Distinct(o.members)
    ensures o.members[n] in d.store && ExpandId(d, o.members[n]) !in MembersUpTo(d, o, n)
  {
    assert o.members[n] in Children(o);
    forall i | 0 <= i < n ensures o.members[i] in d.store && ExpandId(d, o.members[i]) != ExpandId(d, o.members[n]) {
      assert o.members[i] in Children(o);
      IdsStandForTrees(d, o.members[i], o.members[n]);
    }
  }
}

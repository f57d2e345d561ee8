/** Content-addressed objects: `crates/agentstategraph-core/src/object.rs`. */
module Objects {
  import opened Order

  type byte = x: int | 0 <= x < 256

  /** A content hash. The source fixes it at 32 bytes; only its text form depends on that. */
  datatype ObjectId = ObjectId(bytes: seq<byte>)

  /** A float is its bit pattern: two floats are equal when they are the same pattern. */
  datatype Atom =
    | Null
    | Bool(b: bool)
    | Int(i: int)
    | Float(bits: nat)
    | Str(s: string)
    | Bytes(bs: seq<byte>)
    | UInt(u: nat)

  /** `Object::Atom` and the three `Object::Node` forms; containers hold their children by id. */
  datatype Object =
    | AtomObject(atom: Atom)
    | MapNode(entries: map<string, ObjectId>)
    | ListNode(items: seq<ObjectId>)
    | SetNode(members: seq<ObjectId>)

  function EmptyMap(): Object {
    MapNode(map[])
  }

  function Children(o: Object): set<ObjectId> {
    match o
    case AtomObject(_) => {}
    case MapNode(m) => set k | k in m :: m[k]
    case ListNode(l) => set i | 0 <= i < |l| :: l[i]
    case SetNode(l) => set i | 0 <= i < |l| :: l[i]
  }

  // ----- the order of ids, and `Object::set`

  predicate IdLeq(a: ObjectId, b: ObjectId) {
    LexLeq(a.bytes, b.bytes)
  }

  lemma IdOrder()
    ensures TotalOrder(IdLeq)
  {
    forall x: ObjectId, y: ObjectId ensures IdLeq(x, y) || IdLeq(y, x) {
      LexTotal(x.bytes, y.bytes);
    }
    forall x: ObjectId, y: ObjectId | IdLeq(x, y) && IdLeq(y, x) ensures x == y {
      LexAntisymmetric(x.bytes, y.bytes);
    }
    forall x: ObjectId, y: ObjectId, z: ObjectId | IdLeq(x, y) && IdLeq(y, z) ensures IdLeq(x, z) {
      LexTransitive(x.bytes, y.bytes, z.bytes);
    }
  }

  /** The iteration order of a `BTreeSet<ObjectId>`. */
  function SortedIds(s: set<ObjectId>): (r: seq<ObjectId>)
    ensures forall i :: i in r <==> i in s
  {
    IdOrder();
    SortSet(s, IdLeq)
  }

  lemma SortedIdsAscend(s: set<ObjectId>)
    ensures StrictlySorted(SortedIds(s), IdLeq)
    ensures Distinct(SortedIds(s))
  {
    IdOrder();
    SortSetAscends(s, IdLeq);
  }

  function Elements(items: seq<ObjectId>): set<ObjectId> {
    set i | 0 <= i < |items| :: items[i]
  }

  ghost predicate AscendingIds(s: seq<ObjectId>) {
    |s| <= 1 || (IdLeq(s[0], s[1]) && s[0] != s[1] && AscendingIds(s[1..]))
  }

  lemma {:induction false} AscendingIdsAreSorted(s: seq<ObjectId>)
    ensures AscendingIds(s) <==> StrictlySorted(s, IdLeq)
  {
    if |s| > 1 {
      AscendingIdsAreSorted(s[1..]);
      if AscendingIds(s) {
        forall i, j | 0 <= i < j < |s| ensures IdLeq(s[i], s[j]) && s[i] != s[j] {
          if i > 0 {
            assert s[i] == s[1..][i - 1] && s[j] == s[1..][j - 1];
          } else if j > 1 {
            assert s[1] == s[1..][0] && s[j] == s[1..][j - 1];
            LexTransitive(s[0].bytes, s[1].bytes, s[j].bytes);
            if s[0] == s[j] { LexAntisymmetric(s[0].bytes, s[1].bytes); }
          }
        }
      }
      if StrictlySorted(s, IdLeq) {
        assert forall i :: 0 <= i < |s| - 1 ==> s[1..][i] == s[i + 1];
      }
    }
  }

  /** Set nodes as `Object::set` leaves them: ascending, without repetition. */
  ghost predicate Canonical(o: Object) {
    o.SetNode? ==> AscendingIds(o.members)
  }

  /**
   `Object::set`: whatever order and repetition the ids come in, the node is the
   one ascending listing of their set.
   */
  method MakeSet(items: seq<ObjectId>) returns (o: Object)
    ensures o == SetNode(SortedIds(Elements(items)))
    ensures Canonical(o) && Children(o) == Elements(items)
    ensures StrictlySorted(o.members, IdLeq)
  {
    IdOrder();
    var sorted := Sort(items, IdLeq);
    var kept := Dedup(sorted, IdLeq);
    o := SetNode(kept);
    forall x ensures x in kept <==> x in SortedIds(Elements(items)) {
      assert x in Elements(items) <==> x in items;
      assert x in multiset(sorted) <==> x in multiset(items);
    }
    SortedIdsAscend(Elements(items));
    SortedUnique(kept, SortedIds(Elements(items)), IdLeq);
    AscendingIdsAreSorted(kept);
    assert Elements(kept) == Elements(items);
  }

  /** Two canonical set nodes with the same members are the same object. */
  lemma CanonicalSetUnique(a: Object, b: Object)
    requires a.SetNode? && b.SetNode? && Canonical(a) && Canonical(b)
    requires Children(a) == Children(b)
    ensures a == b
  {
    AscendingIdsAreSorted(a.members);
    AscendingIdsAreSorted(b.members);
    IdOrder();
    forall x ensures x in a.members <==> x in b.members {
      assert x in a.members <==> x in Children(a);
      assert x in b.members <==> x in Children(b);
    }
    SortedUnique(a.members, b.members, IdLeq);
  }
}

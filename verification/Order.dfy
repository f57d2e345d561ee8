/**
 Orders behind the source's sorted containers. `BTreeMap<String, _>` and
 `BTreeSet<ObjectId>` iterate in byte order; for UTF-8 strings that is the
 order of the code points.
 */
module Order {

  datatype Option<+T> = None | Some(value: T)

  ghost predicate TotalOrder<T(!new)>(leq: (T, T) -> bool) {
    && (forall x, y :: leq(x, y) || leq(y, x))
    && (forall x, y :: leq(x, y) && leq(y, x) ==> x == y)
    && (forall x, y, z :: leq(x, y) && leq(y, z) ==> leq(x, z))
  }

  /** Comparing by a field: ties are allowed. */
  ghost predicate TotalPreorder<T(!new)>(leq: (T, T) -> bool) {
    && (forall x, y :: leq(x, y) || leq(y, x))
    && (forall x, y, z :: leq(x, y) && leq(y, z) ==> leq(x, z))
  }

  /** Ascending without repetition. */
  ghost predicate StrictlySorted<T(!new)>(s: seq<T>, leq: (T, T) -> bool) {
    forall i, j :: 0 <= i < j < |s| ==> leq(s[i], s[j]) && s[i] != s[j]
  }

  // ----- lexicographic order

  predicate LexLeq(a: seq<int>, b: seq<int>) {
    if a == [] then true
    else if b == [] then false
    else if a[0] != b[0] then a[0] < b[0]
    else LexLeq(a[1..], b[1..])
  }

  lemma {:induction false} LexTotal(a: seq<int>, b: seq<int>)
    ensures LexLeq(a, b) || LexLeq(b, a)
  {
    if a != [] && b != [] && a[0] == b[0] {
      LexTotal(a[1..], b[1..]);
    }
  }

  lemma {:induction false} LexAntisymmetric(a: seq<int>, b: seq<int>)
    requires LexLeq(a, b) && LexLeq(b, a)
    ensures a == b
  {
    if a != [] && b != [] {
      LexAntisymmetric(a[1..], b[1..]);
      assert a == [a[0]] + a[1..] && b == [b[0]] + b[1..];
    }
  }

  lemma {:induction false} LexTransitive(a: seq<int>, b: seq<int>, c: seq<int>)
    requires LexLeq(a, b) && LexLeq(b, c)
    ensures LexLeq(a, c)
  {
    if a != [] && b != [] && c != [] && a[0] == b[0] == c[0] {
      LexTransitive(a[1..], b[1..], c[1..]);
    }
  }

  /** `a` and `b` agree up to position `n`, where `a` has the smaller number. */
  ghost predicate SmallerAt(a: seq<int>, b: seq<int>, n: nat) {
    n < |a| && n < |b| && a[..n] == b[..n] && a[n] < b[n]
  }

  /** Dictionary order: a prefix first, otherwise the smaller number at the first difference. */
  lemma {:induction false} LexMeaning(a: seq<int>, b: seq<int>)
    ensures LexLeq(a, b) <==> a <= b || exists n: nat :: SmallerAt(a, b, n)
  {
    if a != [] && b != [] {
      if a[0] == b[0] {
        LexMeaning(a[1..], b[1..]);
        assert a == [a[0]] + a[1..] && b == [b[0]] + b[1..];
        assert a <= b <==> a[1..] <= b[1..];
        if n: nat :| SmallerAt(a[1..], b[1..], n) {
          assert a[..n + 1] == [a[0]] + a[1..][..n] && b[..n + 1] == [b[0]] + b[1..][..n];
          assert SmallerAt(a, b, n + 1);
        }
        if n: nat :| SmallerAt(a, b, n) {
          assert n > 0 && a[..n][1..] == a[1..][..n - 1] && b[..n][1..] == b[1..][..n - 1];
          assert SmallerAt(a[1..], b[1..], n - 1);
        }
      } else {
        LexFirst(a, b);
      }
    }
  }

  lemma LexFirst(a: seq<int>, b: seq<int>)
    requires a != [] && b != [] && a[0] != b[0]
    ensures (exists n: nat :: SmallerAt(a, b, n)) <==> a[0] < b[0]
  {
    if a[0] < b[0] {
      assert SmallerAt(a, b, 0);
    }
    if n: nat :| SmallerAt(a, b, n) {
      if n > 0 {
        assert a[..n][0] == a[0] && b[..n][0] == b[0];
      }
    }
  }

  /** Between sequences of one length the last number decides only when the rest is equal. */
  lemma {:induction false} LexLast(a: seq<int>, b: seq<int>, x: int, y: int)
    requires |a| == |b|
    ensures LexLeq(a + [x], b + [y]) <==> if a == b then x <= y else LexLeq(a, b)
  {
    if a != [] {
      assert (a + [x])[1..] == a[1..] + [x] && (b + [y])[1..] == b[1..] + [y];
      LexLast(a[1..], b[1..], x, y);
      assert a == [a[0]] + a[1..] && b == [b[0]] + b[1..];
    }
  }

  function Codes(s: string): (r: seq<int>)
    ensures |r| == |s| && forall i :: 0 <= i < |s| ==> r[i] == s[i] as int
  {
    seq(|s|, i requires 0 <= i < |s| => s[i] as int)
  }

  predicate StringLeq(a: string, b: string) {
    LexLeq(Codes(a), Codes(b))
  }

  lemma StringOrder()
    ensures TotalOrder(StringLeq)
  {
    forall x: string, y: string ensures StringLeq(x, y) || StringLeq(y, x) {
      LexTotal(Codes(x), Codes(y));
    }
    forall x: string, y: string | StringLeq(x, y) && StringLeq(y, x) ensures x == y {
      LexAntisymmetric(Codes(x), Codes(y));
      assert forall i :: 0 <= i < |x| ==> Codes(x)[i] == Codes(y)[i];
    }
    forall x: string, y: string, z: string | StringLeq(x, y) && StringLeq(y, z) ensures StringLeq(x, z) {
      LexTransitive(Codes(x), Codes(y), Codes(z));
    }
  }

  // ----- listing a finite set in order

  lemma {:induction false} LeastExists<T(!new)>(s: set<T>, leq: (T, T) -> bool) returns (m: T)
    requires TotalOrder(leq) && s != {}
    ensures m in s && forall y :: y in s ==> leq(m, y)
  {
    var x :| x in s;
    if s == {x} {
      m := x;
    } else {
      var rest := s - {x};
      assert s == rest + {x};
      var n := LeastExists(rest, leq);
      m := if leq(x, n) then x else n;
      assert forall y :: y in s ==> y == x || y in rest;
    }
  }

  function SortSet<T(!new, ==)>(s: set<T>, leq: (T, T) -> bool): (r: seq<T>)
    requires TotalOrder(leq)
    ensures forall x :: x in r <==> x in s
  {
    if s == {} then []
    else
      assert exists m :: m in s && forall y :: y in s ==> leq(m, y) by {
        var w := LeastExists(s, leq);
      }
      var m :| m in s && forall y :: y in s ==> leq(m, y);
      [m] + SortSet(s - {m}, leq)
  }

  lemma {:induction false} SortSetAscends<T(!new)>(s: set<T>, leq: (T, T) -> bool)
    requires TotalOrder(leq)
    ensures StrictlySorted(SortSet(s, leq), leq)
  {
    if s != {} {
      var r := SortSet(s, leq);
      var rest := r[1..];
      assert r[0] in s && rest == SortSet(s - {r[0]}, leq);
      SortSetAscends(s - {r[0]}, leq);
      forall i, j | 0 <= i < j < |r| ensures leq(r[i], r[j]) && r[i] != r[j] {
        assert r[j] == rest[j - 1] && rest[j - 1] in rest;
        if i > 0 { assert r[i] == rest[i - 1]; }
      }
    }
  }

  lemma TailMembers<T(!new)>(a: seq<T>, leq: (T, T) -> bool)
    requires a != [] && StrictlySorted(a, leq)
    ensures forall x :: x in a[1..] <==> x in a && x != a[0]
  {
    assert a == [a[0]] + a[1..];
    assert forall i :: 0 <= i < |a| - 1 ==> a[1..][i] == a[i + 1];
  }

  /** A set has one ascending listing. */
  lemma {:induction false} SortedUnique<T(!new)>(a: seq<T>, b: seq<T>, leq: (T, T) -> bool)
    requires TotalOrder(leq) && StrictlySorted(a, leq) && StrictlySorted(b, leq)
    requires forall x :: x in a <==> x in b
    ensures a == b
  {
    if a == [] {
      assert forall x :: x in multiset(b) ==> x in b;
      assert multiset(b) == multiset{} && |multiset(b)| == |b|;
    } else {
      assert a[0] in b && b != [];
      assert b[0] in a;
      var i :| 0 <= i < |b| && b[i] == a[0];
      var j :| 0 <= j < |a| && a[j] == b[0];
      assert a[0] == b[0];
      TailMembers(a, leq);
      TailMembers(b, leq);
      SortedUnique(a[1..], b[1..], leq);
      assert a == [a[0]] + a[1..] && b == [b[0]] + b[1..];
    }
  }

  // ----- `sort` and `dedup`

  ghost predicate Ascending<T(!new)>(s: seq<T>, leq: (T, T) -> bool) {
    forall i, j :: 0 <= i < j < |s| ==> leq(s[i], s[j])
  }

  function InsertAt<T>(s: seq<T>, at: nat, x: T): (r: seq<T>)
    requires at <= |s|
    ensures multiset(r) == multiset(s) + multiset{x}
    ensures |r| == |s| + 1
    ensures forall i :: 0 <= i < |r| ==> r[i] == if i < at then s[i] else if i == at then x else s[i - 1]
  {
    assert s == s[..at] + s[at..];
    s[..at] + [x] + s[at..]
  }

  lemma InsertMembers<T>(s: seq<T>, at: nat, x: T)
    requires at <= |s|
    ensures forall y :: y in InsertAt(s, at, x) <==> y in s || y == x
  {
    var r := InsertAt(s, at, x);
    forall y ensures y in r <==> y in s || y == x {
      assert y in r <==> y in multiset(r);
      assert y in s <==> y in multiset(s);
    }
  }

  lemma InsertAscending<T(!new)>(s: seq<T>, at: nat, x: T, leq: (T, T) -> bool)
    requires Ascending(s, leq) && at <= |s|
    requires forall x, y, z :: leq(x, y) && leq(y, z) ==> leq(x, z)
    requires at > 0 ==> leq(s[at - 1], x)
    requires forall j :: at <= j < |s| ==> leq(x, s[j])
    ensures Ascending(InsertAt(s, at, x), leq)
  {
    forall i | 0 <= i < at ensures leq(s[i], x) {
      if i < at - 1 { assert leq(s[i], s[at - 1]); }
    }
  }

  /** Insertion into an ascending sequence. */
  method Sort<T(!new)>(items: seq<T>, leq: (T, T) -> bool) returns (sorted: seq<T>)
    requires TotalPreorder(leq)
    ensures multiset(sorted) == multiset(items)
    ensures Ascending(sorted, leq)
  {
    sorted := [];
    for n := 0 to |items|
      invariant multiset(sorted) == multiset(items[..n])
      invariant Ascending(sorted, leq)
    {
      var at := |sorted|;
      while at > 0 && !leq(sorted[at - 1], items[n])
        invariant 0 <= at <= |sorted|
        invariant forall j :: at <= j < |sorted| ==> leq(items[n], sorted[j])
      {
        at := at - 1;
      }
      InsertAscending(sorted, at, items[n], leq);
      assert items[..n + 1] == items[..n] + [items[n]];
      sorted := InsertAt(sorted, at, items[n]);
    }
    assert items[..|items|] == items;
  }

  /** Drop an element equal to the one kept last. */
  method Dedup<T(!new, ==)>(sorted: seq<T>, leq: (T, T) -> bool) returns (kept: seq<T>)
    requires TotalOrder(leq) && Ascending(sorted, leq)
    ensures StrictlySorted(kept, leq)
    ensures forall x :: x in kept <==> x in sorted
  {
    kept := [];
    for n := 0 to |sorted|
      invariant StrictlySorted(kept, leq)
      invariant forall x :: x in kept <==> x in sorted[..n]
      invariant n > 0 ==> |kept| > 0 && kept[|kept| - 1] == sorted[n - 1]
      invariant n == 0 ==> kept == []
    {
      assert sorted[..n + 1] == sorted[..n] + [sorted[n]];
      if n == 0 || sorted[n] != kept[|kept| - 1] {
        assert n > 0 ==> leq(sorted[n - 1], sorted[n]);
        kept := kept + [sorted[n]];
      }
    }
    assert sorted[..|sorted|] == sorted;
  }

  ghost predicate Distinct<T>(s: seq<T>) {
    forall i, j :: 0 <= i < j < |s| ==> s[i] != s[j]
  }

  lemma DistinctConcat<T>(a: seq<T>, b: seq<T>)
    requires Distinct(a) && Distinct(b) && forall x :: x in a ==> x !in b
    ensures Distinct(a + b)
  {
    var c := a + b;
    forall i, j | 0 <= i < j < |c| ensures c[i] != c[j] {
      if i < |a| <= j {
        assert a[i] in a && b[j - |a|] in b;
      }
    }
  }

  lemma Assoc<T>(a: seq<T>, b: seq<T>, c: seq<T>)
    ensures a + b + c == a + (b + c)
  {
  }

  /** The iteration order of a `BTreeSet<String>`. */
  function SortedKeys(s: set<string>): (r: seq<string>)
    ensures forall k :: k in r <==> k in s
  {
    StringOrder();
    SortSet(s, StringLeq)
  }

  lemma SortedKeysAscend(s: set<string>)
    ensures StrictlySorted(SortedKeys(s), StringLeq)
    ensures Distinct(SortedKeys(s))
  {
    StringOrder();
    SortSetAscends(s, StringLeq);
  }

  // ----- mapping a sequence

  function MapSeq<A, B>(f: A -> B, s: seq<A>): (r: seq<B>)
    ensures |r| == |s| && forall i :: 0 <= i < |s| ==> r[i] == f(s[i])
  {
    seq(|s|, i requires 0 <= i < |s| => f(s[i]))
  }

  lemma MapConcat<A, B>(f: A -> B, a: seq<A>, b: seq<A>)
    ensures MapSeq(f, a + b) == MapSeq(f, a) + MapSeq(f, b)
  {
  }

  function DropAt<A>(s: seq<A>, j: nat): (r: seq<A>)
    requires j < |s|
    ensures |r| == |s| - 1
  {
    s[..j] + s[j + 1..]
  }

  lemma DropAtMultiset<A>(s: seq<A>, j: nat)
    requires j < |s|
    ensures multiset(s) == multiset(DropAt(s, j)) + multiset{s[j]}
  {
    assert s == s[..j] + [s[j]] + s[j + 1..];
  }

  lemma MapDropAt<A, B>(f: A -> B, s: seq<A>, j: nat)
    requires j < |s|
    ensures MapSeq(f, DropAt(s, j)) == DropAt(MapSeq(f, s), j)
  {
  }

  /** The same elements in another order map to the same images in another order. */
  lemma {:induction false} MapPermuted<A, B>(f: A -> B, a: seq<A>, b: seq<A>)
    requires multiset(a) == multiset(b)
    ensures multiset(MapSeq(f, a)) == multiset(MapSeq(f, b))
    decreases |a|
  {
    assert |a| == |multiset(a)| == |multiset(b)| == |b|;
    if a != [] {
      assert a[0] in multiset(b);
      var j :| 0 <= j < |b| && b[j] == a[0];
      DropAtMultiset(a, 0);
      DropAtMultiset(b, j);
      SameRest(multiset(DropAt(a, 0)), multiset(DropAt(b, j)), a[0]);
      MapPermuted(f, DropAt(a, 0), DropAt(b, j));
      MapDropAt(f, a, 0);
      MapDropAt(f, b, j);
      DropAtMultiset(MapSeq(f, a), 0);
      DropAtMultiset(MapSeq(f, b), j);
    }
  }

  lemma SameRest<A>(m: multiset<A>, n: multiset<A>, x: A)
    requires m + multiset{x} == n + multiset{x}
    ensures m == n
  {
    assert m == m + multiset{x} - multiset{x};
    assert n == n + multiset{x} - multiset{x};
  }
}

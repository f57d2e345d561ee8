/**
 The conflict list is exact: settling any of the reported places in favour of ours, on
 their side, and merging again leaves exactly the other conflicts and the same tree.
 */
module MergeResolve {
  import opened Order
  import opened Trees
  import opened TreeMerge
  import opened MergeLaws

  type Places = set<seq<string>>

  /** The places of `p` under key `k`, seen from there. */
  ghost function Under(p: Places, k: string): Places {
    set q | q in p && |q| > 0 && q[0] == k :: q[1..]
  }

  /** Their side with ours put at the given places: replaced, added, or deleted where ours has nothing. */
  ghost function Adopt(o: Option<Tree>, t: Option<Tree>, p: Places): Option<Tree>
    decreases o.Some?, TreeOr(o)
  {
    if [] in p then o
    else if o.Some? && o.value.TMap? && t.Some? && t.value.TMap? then
      var om, tm := o.value.entries, t.value.entries;
      Some(TMap(map k | k in om.Keys + tm.Keys && Adopt(Get(om, k), Get(tm, k), Under(p, k)).Some? ::
        Adopt(Get(om, k), Get(tm, k), Under(p, k)).value))
    else t
  }

  function Remaining(cs: seq<Clash>, p: Places): seq<Clash> {
    if cs == [] then []
    else
      var rest := Remaining(cs[..|cs| - 1], p);
      if cs[|cs| - 1].place in p then rest else rest + [cs[|cs| - 1]]
  }

  ghost predicate PlacesOf(cs: seq<Clash>, p: Places) {
    forall q :: q in p ==> exists c :: c in cs && c.place == q
  }

  lemma AdoptedEntry(o: Tree, t: Tree, p: Places, k: string)
    requires o.TMap? && t.TMap? && [] !in p
    ensures var a := Adopt(Some(o), Some(t), p);
      && a.Some? && a.value.TMap?
      && a.value.entries.Keys <= o.entries.Keys + t.entries.Keys
      && (k in o.entries.Keys + t.entries.Keys ==>
          Get(a.value.entries, k) == Adopt(Get(o.entries, k), Get(t.entries, k), Under(p, k)))
  {
  }

  lemma {:induction false} AdoptNothing(o: Option<Tree>, t: Option<Tree>)
    ensures Adopt(o, t, {}) == t
    decreases o.Some?, TreeOr(o)
  {
    if o.Some? && o.value.TMap? && t.Some? && t.value.TMap? {
      var a := Adopt(o, t, {}).value.entries;
      forall k ensures Get(a, k) == Get(t.value.entries, k) {
        AdoptedEntry(o.value, t.value, {}, k);
        AdoptNothing(Get(o.value.entries, k), Get(t.value.entries, k));
        assert Under({}, k) == {};
      }
      SameEntries(a, t.value.entries);
    }
  }

  lemma {:induction false} RemainingConcat(xs: seq<Clash>, ys: seq<Clash>, p: Places)
    ensures Remaining(xs + ys, p) == Remaining(xs, p) + Remaining(ys, p)
  {
    if ys == [] {
      assert xs + ys == xs;
    } else {
      var n := |ys| - 1;
      assert (xs + ys)[..|xs| + n] == xs + ys[..n];
      RemainingConcat(xs, ys[..n], p);
    }
  }

  lemma {:induction false} RemainingNested(k: string, cs: seq<Clash>, p: Places)
    ensures Remaining(Nest(k, cs), p) == Nest(k, Remaining(cs, Under(p, k)))
  {
    if cs != [] {
      var n := |cs| - 1;
      RemainingNested(k, cs[..n], p);
      assert Nest(k, cs)[..n] == Nest(k, cs[..n]);
      var q := cs[n].place;
      assert [k] + q in p <==> q in Under(p, k) by {
        assert ([k] + q)[1..] == q;
        if q in Under(p, k) {
          var r :| r in p && |r| > 0 && r[0] == k && r[1..] == q;
          assert r == [k] + q;
        }
      }
    }
  }

  ghost predicate Settles(b: Option<Tree>, o: Option<Tree>, t: Option<Tree>, p: Places) {
    var m := MergeSlot(b, o, t);
    MergeSlot(b, o, Adopt(o, t, p)) == Merged(m.value, Remaining(m.clashes, p))
  }

  lemma {:induction false} SettlingIsExact(b: Option<Tree>, o: Option<Tree>, t: Option<Tree>, p: Places)
    requires PlacesOf(MergeSlot(b, o, t).clashes, p)
    ensures Settles(b, o, t, p)
    decreases o.Some?, TreeOr(o)
  {
    var m := MergeSlot(b, o, t);
    if o == t || b == o || b == t || MergesAsSets(b, o, t) {
      NoPlaces(m.clashes, p);
      AdoptNothing(o, t);
    } else if MergesAsMaps(b, o, t) {
      var bm, om, tm := BaseEntries(b), o.value.entries, t.value.entries;
      SlotOfMaps(b, o, t);
      MapPlaces(bm, o.value, tm, p);
      forall k ensures KeySettles(bm, o.value, t.value, p, k) {
        KeyPlaces(bm, o.value, tm, p, k);
        SettlingIsExact(Get(bm, k), Get(om, k), Get(tm, k), Under(p, k));
        AdoptedEntry(o.value, t.value, p, k);
      }
      MapsSettle(b, o.value, t.value, p);
    } else {
      SlotOfClash(b, o, t);
      if [] !in p {
        OnlyRootPlace(m.clashes, p);
        AdoptNothing(o, t);
      }
    }
  }

  lemma NoPlaces(cs: seq<Clash>, p: Places)
    requires cs == [] && PlacesOf(cs, p)
    ensures p == {}
  {
    assert forall q :: q !in p;
  }

  lemma OnlyRootPlace(cs: seq<Clash>, p: Places)
    requires |cs| == 1 && cs[0].place == [] && PlacesOf(cs, p) && [] !in p
    ensures p == {} && Remaining(cs, p) == cs
  {
    assert forall q :: q !in p;
    assert cs[..0] == [] && cs == [cs[0]];
  }

  /** Merging against the adopted side at key `k` leaves what the places under `k` leave. */
  ghost predicate KeySettles(bm: map<string, Tree>, o: Tree, t: Tree, p: Places, k: string)
    requires o.TMap? && t.TMap? && [] !in p
  {
    var a, m := Adopt(Some(o), Some(t), p).value.entries, MergeAt(bm, o, t.entries, k);
    MergeAt(bm, o, a, k) == Merged(m.value, Remaining(m.clashes, Under(p, k)))
  }

  lemma MapPlaces(bm: map<string, Tree>, o: Tree, tm: map<string, Tree>, p: Places)
    requires o.TMap? && PlacesOf(MergeEntries(bm, o, tm).clashes, p)
    ensures [] !in p
  {
    if [] in p {
      var c :| c in MergeEntries(bm, o, tm).clashes && c.place == [];
      var k, inner := ClashFromKey(bm, o, tm, SortedKeys(bm.Keys + o.entries.Keys + tm.Keys), c);
      assert false;
    }
  }

  lemma KeyPlaces(bm: map<string, Tree>, o: Tree, tm: map<string, Tree>, p: Places, k: string)
    requires o.TMap? && PlacesOf(MergeEntries(bm, o, tm).clashes, p)
    ensures PlacesOf(MergeAt(bm, o, tm, k).clashes, Under(p, k))
  {
    forall q | q in Under(p, k) ensures exists c :: c in MergeAt(bm, o, tm, k).clashes && c.place == q {
      var r :| r in p && |r| > 0 && r[0] == k && r[1..] == q;
      var c :| c in MergeEntries(bm, o, tm).clashes && c.place == r;
      var k', inner := ClashFromKey(bm, o, tm, SortedKeys(bm.Keys + o.entries.Keys + tm.Keys), c);
      assert ([k'] + inner.place)[0] == k' && ([k'] + inner.place)[1..] == inner.place;
    }
  }

  lemma MapsSettle(b: Option<Tree>, o: Tree, t: Tree, p: Places)
    requires o.TMap? && t.TMap? && [] !in p && MergesAsMaps(b, Some(o), Some(t))
    requires forall k :: KeySettles(BaseEntries(b), o, t, p, k)
    ensures Settles(b, Some(o), Some(t), p)
  {
    var bm, tm := BaseEntries(b), t.entries;
    AdoptedEntry(o, t, p, "");
    var a := Adopt(Some(o), Some(t), p).value.entries;
    MapsAlwaysMerge(b, Some(o), Some(t));
    MapsAlwaysMerge(b, Some(o), Some(TMap(a)));
    EntriesSettle(bm, o, t, p);
  }

  lemma EntriesSettle(bm: map<string, Tree>, o: Tree, t: Tree, p: Places)
    requires o.TMap? && t.TMap? && [] !in p && forall k :: KeySettles(bm, o, t, p, k)
    ensures var m := MergeEntries(bm, o, t.entries);
      MergeEntries(bm, o, Adopt(Some(o), Some(t), p).value.entries) == Merged(m.value, Remaining(m.clashes, p))
  {
    var a, tm := Adopt(Some(o), Some(t), p).value.entries, t.entries;
    SameKeys(bm, o, t, p);
    var keys := bm.Keys + o.entries.Keys + tm.Keys;
    MergedEntries(bm, o, tm);
    MergedEntries(bm, o, a);
    ClashesSettle(bm, o, t, p, SortedKeys(keys));
    var m, n := MergeEntries(bm, o, tm).value.value.entries, MergeEntries(bm, o, a).value.value.entries;
    forall k ensures Get(m, k) == Get(n, k) {
      assert KeySettles(bm, o, t, p, k);
    }
    SameEntries(m, n);
  }

  lemma SameKeys(bm: map<string, Tree>, o: Tree, t: Tree, p: Places)
    requires o.TMap? && t.TMap? && [] !in p && forall k :: KeySettles(bm, o, t, p, k)
    ensures var a := Adopt(Some(o), Some(t), p).value.entries;
      bm.Keys + o.entries.Keys + a.Keys == bm.Keys + o.entries.Keys + t.entries.Keys
  {
    var a := Adopt(Some(o), Some(t), p).value.entries;
    AdoptedEntry(o, t, p, "");
    forall k | k in t.entries && k !in bm && k !in o.entries ensures k in a {
      assert KeySettles(bm, o, t, p, k);
      OnlyTheirs(bm, o, t.entries, k);
      OnlyTheirs(bm, o, a, k);
    }
    UnionKeys(bm.Keys + o.entries.Keys, a.Keys, t.entries.Keys, o.entries.Keys);
  }

  lemma OnlyTheirs(bm: map<string, Tree>, o: Tree, tm: map<string, Tree>, k: string)
    requires o.TMap? && k !in bm && k !in o.entries
    ensures MergeAt(bm, o, tm, k).value == Get(tm, k)
  {
  }

  lemma UnionKeys(x: set<string>, a: set<string>, t: set<string>, o: set<string>)
    requires o <= x && a <= o + t && forall k :: k in t && k !in x ==> k in a
    ensures x + a == x + t
  {
  }

  lemma {:induction false} ClashesSettle(bm: map<string, Tree>, o: Tree, t: Tree, p: Places, ks: seq<string>)
    requires o.TMap? && t.TMap? && [] !in p && forall k :: KeySettles(bm, o, t, p, k)
    ensures var a := Adopt(Some(o), Some(t), p).value.entries;
      ClashesAt(bm, o, a, ks) == Remaining(ClashesAt(bm, o, t.entries, ks), p)
  {
    if ks != [] {
      var n := |ks| - 1;
      var k := ks[n];
      ClashesSettle(bm, o, t, p, ks[..n]);
      assert KeySettles(bm, o, t, p, k);
      RemainingNested(k, MergeAt(bm, o, t.entries, k).clashes, p);
      RemainingConcat(ClashesAt(bm, o, t.entries, ks[..n]), Nest(k, MergeAt(bm, o, t.entries, k).clashes), p);
    }
  }
}

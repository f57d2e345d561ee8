/** Laws of the merge of trees: symmetry, exact conflicts, and where the conflicts lie. */
module MergeLaws {
  import opened Order
  import opened Trees
  import opened TreeMerge

  // ----- symmetry

  function Flip(c: Clash): Clash {
    c.(ours := c.theirs, theirs := c.ours)
  }

  function FlipAll(cs: seq<Clash>): (r: seq<Clash>)
    ensures |r| == |cs| && forall i :: 0 <= i < |cs| ==> r[i] == Flip(cs[i])
  {
    seq(|cs|, i requires 0 <= i < |cs| => Flip(cs[i]))
  }

  /** Swapped sides give mirrored clashes, and the same tree when there are none. */
  ghost predicate Mirrored(m: Merged, n: Merged) {
    && n.clashes == FlipAll(m.clashes)
    && (m.clashes == [] ==> n.value == m.value)
  }

  lemma {:induction false} MergeIsSymmetric(b: Option<Tree>, o: Option<Tree>, t: Option<Tree>)
    ensures Mirrored(MergeSlot(b, o, t), MergeSlot(b, t, o))
    decreases o.Some?, TreeOr(o)
  {
    if o == t || b == o || b == t {
    } else if MergesAsMaps(b, o, t) {
      var bm, om, tm := BaseEntries(b), o.value.entries, t.value.entries;
      forall k ensures Mirrored(MergeAt(bm, o.value, tm, k), MergeAt(bm, t.value, om, k)) {
        MergeIsSymmetric(Get(bm, k), Get(om, k), Get(tm, k));
      }
      EntriesMirrored(bm, o.value, t.value);
      SlotOfMaps(b, o, t);
      SlotOfMaps(b, t, o);
    } else if MergesAsSets(b, o, t) {
      assert o.value.members + t.value.members == t.value.members + o.value.members;
    } else {
      SlotOfClash(b, o, t);
      SlotOfClash(b, t, o);
    }
  }

  ghost predicate KeysMirrored(bm: map<string, Tree>, o: Tree, t: Tree)
    requires o.TMap? && t.TMap?
  {
    forall k :: Mirrored(MergeAt(bm, o, t.entries, k), MergeAt(bm, t, o.entries, k))
  }

  lemma EntriesMirrored(bm: map<string, Tree>, o: Tree, t: Tree)
    requires o.TMap? && t.TMap? && KeysMirrored(bm, o, t)
    ensures Mirrored(MergeEntries(bm, o, t.entries), MergeEntries(bm, t, o.entries))
  {
    var keys := bm.Keys + o.entries.Keys + t.entries.Keys;
    assert keys == bm.Keys + t.entries.Keys + o.entries.Keys;
    ClashesMirrored(bm, o, t, SortedKeys(keys));
    MergedEntries(bm, o, t.entries);
    MergedEntries(bm, t, o.entries);
    NoClashesAt(bm, o, t.entries, SortedKeys(keys));
    var m, n := MergeEntries(bm, o, t.entries), MergeEntries(bm, t, o.entries);
    if m.clashes == [] {
      forall k ensures Get(m.value.value.entries, k) == Get(n.value.value.entries, k) {
        assert Mirrored(MergeAt(bm, o, t.entries, k), MergeAt(bm, t, o.entries, k));
        assert k in keys ==> CleanAt(bm, o, t.entries, k);
      }
      SameEntries(m.value.value.entries, n.value.value.entries);
    }
  }

  lemma {:induction false} ClashesMirrored(bm: map<string, Tree>, o: Tree, t: Tree, ks: seq<string>)
    requires o.TMap? && t.TMap? && KeysMirrored(bm, o, t)
    ensures ClashesAt(bm, t, o.entries, ks) == FlipAll(ClashesAt(bm, o, t.entries, ks))
  {
    if ks != [] {
      var n := |ks| - 1;
      ClashesMirrored(bm, o, t, ks[..n]);
      assert Mirrored(MergeAt(bm, o, t.entries, ks[n]), MergeAt(bm, t, o.entries, ks[n]));
    }
  }

  // ----- where clashes lie and what they report

  /** The subtree a sequence of map keys leads to. */
  ghost function AtPlace(t: Option<Tree>, place: seq<string>): Option<Tree>
    decreases |place|
  {
    if place == [] then t
    else if t.Some? && t.value.TMap? && place[0] in t.value.entries then
      AtPlace(Some(t.value.entries[place[0]]), place[1..])
    else None
  }

  /**
   A clash shows the three subtrees at its place, all different from one another, and the
   partial result has ours there.
   */
  ghost predicate Truthful(b: Option<Tree>, o: Option<Tree>, t: Option<Tree>, value: Option<Tree>, c: Clash) {
    && c.base == AtPlace(b, c.place)
    && c.ours == AtPlace(o, c.place)
    && c.theirs == AtPlace(t, c.place)
    && AtPlace(value, c.place) == c.ours
    && c.ours != c.theirs && c.base != c.ours && c.base != c.theirs
  }

  lemma {:induction false} ClashesAreTruthful(b: Option<Tree>, o: Option<Tree>, t: Option<Tree>)
    ensures var m := MergeSlot(b, o, t); forall c :: c in m.clashes ==> Truthful(b, o, t, m.value, c)
    decreases o.Some?, TreeOr(o)
  {
    var m := MergeSlot(b, o, t);
    if o != t && b != o && b != t && MergesAsMaps(b, o, t) {
      var bm, om, tm := BaseEntries(b), o.value.entries, t.value.entries;
      SlotOfMaps(b, o, t);
      MergedEntries(bm, o.value, tm);
      forall c | c in m.clashes ensures Truthful(b, o, t, m.value, c) {
        var k, inner := ClashFromKey(bm, o.value, tm, SortedKeys(bm.Keys + om.Keys + tm.Keys), c);
        MergeIsTruthfulAt(bm, o.value, tm, k, inner);
        assert c.place[0] == k && c.place[1..] == inner.place;
        assert Get(m.value.value.entries, k) == MergeAt(bm, o.value, tm, k).value;
      }
    }
  }

  lemma {:induction false} MergeIsTruthfulAt(bm: map<string, Tree>, o: Tree, tm: map<string, Tree>, k: string, c: Clash)
    requires o.TMap? && c in MergeAt(bm, o, tm, k).clashes
    ensures Truthful(Get(bm, k), Get(o.entries, k), Get(tm, k), MergeAt(bm, o, tm, k).value, c)
    decreases true, o, 0
  {
    ClashesAreTruthful(Get(bm, k), Get(o.entries, k), Get(tm, k));
    assert MergeAt(bm, o, tm, k) == MergeSlot(Get(bm, k), Get(o.entries, k), Get(tm, k));
  }

  /** A clash of merged maps is a clash of one of their keys, one level down. */
  lemma {:induction false} ClashFromKey(
    bm: map<string, Tree>, o: Tree, tm: map<string, Tree>, ks: seq<string>, c: Clash)
    returns (k: string, inner: Clash)
    requires o.TMap? && c in ClashesAt(bm, o, tm, ks)
    ensures k in ks && inner in MergeAt(bm, o, tm, k).clashes && c == inner.(place := [k] + inner.place)
  {
    var n := |ks| - 1;
    if c in ClashesAt(bm, o, tm, ks[..n]) {
      k, inner := ClashFromKey(bm, o, tm, ks[..n], c);
    } else {
      k := ks[n];
      var cs := MergeAt(bm, o, tm, k).clashes;
      var i :| 0 <= i < |Nest(k, cs)| && Nest(k, cs)[i] == c;
      inner := cs[i];
    }
  }

  // ----- clash places are pairwise apart

  ghost predicate Antichain(cs: seq<Clash>) {
    forall i, j :: 0 <= i < |cs| && 0 <= j < |cs| && i != j ==> !(cs[i].place <= cs[j].place)
  }

  lemma {:induction false} ClashesFormAntichain(b: Option<Tree>, o: Option<Tree>, t: Option<Tree>)
    ensures Antichain(MergeSlot(b, o, t).clashes)
    decreases o.Some?, TreeOr(o)
  {
    if o != t && b != o && b != t && MergesAsMaps(b, o, t) {
      var bm, om, tm := BaseEntries(b), o.value.entries, t.value.entries;
      SlotOfMaps(b, o, t);
      forall k ensures Antichain(MergeAt(bm, o.value, tm, k).clashes) {
        ClashesFormAntichain(Get(bm, k), Get(om, k), Get(tm, k));
      }
      SortedKeysAscend(bm.Keys + om.Keys + tm.Keys);
      KeysFormAntichain(bm, o.value, tm, SortedKeys(bm.Keys + om.Keys + tm.Keys));
    }
  }

  lemma {:induction false} KeysFormAntichain(bm: map<string, Tree>, o: Tree, tm: map<string, Tree>, ks: seq<string>)
    requires o.TMap? && Distinct(ks) && forall k :: Antichain(MergeAt(bm, o, tm, k).clashes)
    ensures Antichain(ClashesAt(bm, o, tm, ks))
    ensures forall c :: c in ClashesAt(bm, o, tm, ks) ==> |c.place| > 0 && c.place[0] in ks
  {
    if ks != [] {
      var n := |ks| - 1;
      KeysFormAntichain(bm, o, tm, ks[..n]);
      assert ks[n] !in ks[..n];
      NestAntichain(ks[n], MergeAt(bm, o, tm, ks[n]).clashes);
      ApartAntichain(ks[..n], ks[n], ClashesAt(bm, o, tm, ks[..n]), Nest(ks[n], MergeAt(bm, o, tm, ks[n]).clashes));
    }
  }

  lemma NestAntichain(k: string, cs: seq<Clash>)
    requires Antichain(cs)
    ensures Antichain(Nest(k, cs))
  {
    var r := Nest(k, cs);
    forall i, j | 0 <= i < |r| && 0 <= j < |r| && i != j ensures !(r[i].place <= r[j].place) {
      NestedPrefix(k, cs[i].place, cs[j].place);
    }
  }

  lemma NestedPrefix(k: string, p: seq<string>, q: seq<string>)
    ensures [k] + p <= [k] + q <==> p <= q
  {
    assert ([k] + p)[1..] == p && ([k] + q)[1..] == q;
    if p <= q {
      assert forall i :: 0 <= i < |p| ==> p[i] == q[i];
    }
  }

  lemma ApartAntichain(ks: seq<string>, k: string, xs: seq<Clash>, ys: seq<Clash>)
    requires Antichain(xs) && Antichain(ys) && k !in ks
    requires forall c :: c in xs ==> |c.place| > 0 && c.place[0] in ks
    requires forall c :: c in ys ==> |c.place| > 0 && c.place[0] == k
    ensures Antichain(xs + ys)
  {
    forall x, y | x in xs && y in ys ensures !(x.place <= y.place) && !(y.place <= x.place) {
      assert x.place[0] != y.place[0];
    }
  }
}

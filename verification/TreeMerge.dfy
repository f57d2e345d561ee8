/**
 Three-way merge stated on whole trees: the reference the id-based merge is held to.
 A slot (the root, or a key of a map) is present on some of the three sides. Where one
 side kept the base, or both agree, the slot takes the changed side; where both changed
 it differently, maps are merged key by key, sets are united, and anything else clashes
 and keeps ours. A clash records its place and the whole subtrees involved.
 */
module TreeMerge {
  import opened Order
  import opened Trees

  datatype Clash = Clash(place: seq<string>, ours: Option<Tree>, theirs: Option<Tree>, base: Option<Tree>)

  datatype Merged = Merged(value: Option<Tree>, clashes: seq<Clash>)

  function Get<V>(m: map<string, V>, k: string): Option<V> {
    if k in m then Some(m[k]) else None
  }

  function Nest(k: string, cs: seq<Clash>): (r: seq<Clash>)
    ensures |r| == |cs|
    ensures forall i :: 0 <= i < |cs| ==> r[i] == cs[i].(place := [k] + cs[i].place)
  {
    seq(|cs|, i requires 0 <= i < |cs| => cs[i].(place := [k] + cs[i].place))
  }

  /** The keys both sides' maps are merged against: an absent base counts as an empty map. */
  function BaseEntries(b: Option<Tree>): map<string, Tree> {
    if b.Some? && b.value.TMap? then b.value.entries else map[]
  }

  predicate MergesAsMaps(b: Option<Tree>, o: Option<Tree>, t: Option<Tree>) {
    && o.Some? && o.value.TMap?
    && t.Some? && t.value.TMap?
    && (b.Some? ==> b.value.TMap?)
  }

  predicate MergesAsSets(b: Option<Tree>, o: Option<Tree>, t: Option<Tree>) {
    && b.Some? && b.value.TSet?
    && o.Some? && o.value.TSet?
    && t.Some? && t.value.TSet?
  }

  ghost function TreeOr(o: Option<Tree>): Tree {
    if o.Some? then o.value else TMap(map[])
  }

  ghost function MergeSlot(b: Option<Tree>, o: Option<Tree>, t: Option<Tree>): Merged
    decreases o.Some?, TreeOr(o), 2, 0
  {
    if o == t then Merged(o, [])
    else if b == o then Merged(t, [])
    else if b == t then Merged(o, [])
    else if MergesAsMaps(b, o, t) then
      MergeEntries(BaseEntries(b), o.value, t.value.entries)
    else if MergesAsSets(b, o, t) then
      Merged(Some(TSet(o.value.members + t.value.members)), [])
    else
      Merged(o, [Clash([], o, t, b)])
  }

  ghost function MergeEntries(bm: map<string, Tree>, o: Tree, tm: map<string, Tree>): Merged
    requires o.TMap?
    decreases true, o, 1, 0
  {
    var keys := bm.Keys + o.entries.Keys + tm.Keys;
    Merged(Some(TMap(map k | k in keys && MergeAt(bm, o, tm, k).value.Some? :: MergeAt(bm, o, tm, k).value.value)),
           ClashesAt(bm, o, tm, SortedKeys(keys)))
  }

  ghost function MergeAt(bm: map<string, Tree>, o: Tree, tm: map<string, Tree>, k: string): Merged
    requires o.TMap?
    decreases true, o, 0, 0
  {
    MergeSlot(Get(bm, k), Get(o.entries, k), Get(tm, k))
  }

  ghost function ClashesAt(bm: map<string, Tree>, o: Tree, tm: map<string, Tree>, ks: seq<string>): seq<Clash>
    requires o.TMap?
    decreases true, o, 0, |ks| + 1
  {
    if ks == [] then []
    else
      var n := |ks| - 1;
      ClashesAt(bm, o, tm, ks[..n]) + Nest(ks[n], MergeAt(bm, o, tm, ks[n]).clashes)
  }

  lemma SlotOfAgreed(b: Option<Tree>, o: Option<Tree>, t: Option<Tree>)
    requires o == t || b == o || b == t
    ensures MergeSlot(b, o, t) == Merged(if o == t || b == t then o else t, [])
  {
  }

  lemma SlotOfMaps(b: Option<Tree>, o: Option<Tree>, t: Option<Tree>)
    requires o != t && b != o && b != t && MergesAsMaps(b, o, t)
    ensures MergeSlot(b, o, t) == MergeEntries(BaseEntries(b), o.value, t.value.entries)
  {
  }

  lemma SlotOfClash(b: Option<Tree>, o: Option<Tree>, t: Option<Tree>)
    requires o != t && b != o && b != t && !MergesAsMaps(b, o, t) && !MergesAsSets(b, o, t)
    ensures MergeSlot(b, o, t) == Merged(o, [Clash([], o, t, b)])
  {
  }

  lemma MergedEntries(bm: map<string, Tree>, o: Tree, tm: map<string, Tree>)
    requires o.TMap?
    ensures var m := MergeEntries(bm, o, tm);
      var keys := bm.Keys + o.entries.Keys + tm.Keys;
      && m.value.Some? && m.value.value.TMap?
      && m.value.value.entries.Keys <= keys
      && (forall k :: k in keys ==> Get(m.value.value.entries, k) == MergeAt(bm, o, tm, k).value)
      && m.clashes == ClashesAt(bm, o, tm, SortedKeys(keys))
  {
  }

  ghost predicate CleanAt(bm: map<string, Tree>, o: Tree, tm: map<string, Tree>, k: string)
    requires o.TMap?
  {
    MergeAt(bm, o, tm, k).clashes == []
  }

  lemma {:induction false} NoClashesAt(bm: map<string, Tree>, o: Tree, tm: map<string, Tree>, ks: seq<string>)
    requires o.TMap?
    ensures ClashesAt(bm, o, tm, ks) == [] <==> forall k :: k in ks ==> CleanAt(bm, o, tm, k)
  {
    if ks != [] {
      var n := |ks| - 1;
      NoClashesAt(bm, o, tm, ks[..n]);
      assert ClashesAt(bm, o, tm, ks) == [] <==> ClashesAt(bm, o, tm, ks[..n]) == [] && CleanAt(bm, o, tm, ks[n]);
      assert forall k :: k in ks <==> k in ks[..n] || k == ks[n] by {
        assert ks == ks[..n] + [ks[n]];
      }
    }
  }

  lemma SameEntries<V>(m: map<string, V>, n: map<string, V>)
    requires forall k :: Get(m, k) == Get(n, k)
    ensures m == n
  {
    forall k ensures k in m <==> k in n {
      assert Get(m, k) == Get(n, k);
    }
    forall k | k in m ensures m[k] == n[k] {
      assert Get(m, k) == Get(n, k);
    }
  }

  ghost predicate EveryKeyTakes(bm: map<string, Tree>, o: Tree, tm: map<string, Tree>, side: map<string, Tree>)
    requires o.TMap?
  {
    forall k :: MergeAt(bm, o, tm, k) == Merged(Get(side, k), [])
  }

  lemma TakesSide(bm: map<string, Tree>, o: Tree, tm: map<string, Tree>, side: map<string, Tree>)
    requires o.TMap? && side.Keys <= bm.Keys + o.entries.Keys + tm.Keys
    requires EveryKeyTakes(bm, o, tm, side)
    ensures MergeEntries(bm, o, tm) == Merged(Some(TMap(side)), [])
  {
    MergedEntries(bm, o, tm);
    forall k ensures CleanAt(bm, o, tm, k) {
      assert MergeAt(bm, o, tm, k) == Merged(Get(side, k), []);
    }
    NoClashesAt(bm, o, tm, SortedKeys(bm.Keys + o.entries.Keys + tm.Keys));
    var entries := MergeEntries(bm, o, tm).value.value.entries;
    forall k ensures Get(entries, k) == Get(side, k) {
      assert MergeAt(bm, o, tm, k) == Merged(Get(side, k), []);
    }
    SameEntries(entries, side);
  }

  /** The shortcuts on equal maps agree with merging key by key. */
  lemma MapsAlwaysMerge(b: Option<Tree>, o: Option<Tree>, t: Option<Tree>)
    requires MergesAsMaps(b, o, t)
    ensures MergeSlot(b, o, t) == MergeEntries(BaseEntries(b), o.value, t.value.entries)
  {
    var bm, om, tm := BaseEntries(b), o.value.entries, t.value.entries;
    if o == t {
      assert EveryKeyTakes(bm, o.value, tm, om);
      TakesSide(bm, o.value, tm, om);
    } else if b == o {
      assert EveryKeyTakes(bm, o.value, tm, tm);
      TakesSide(bm, o.value, tm, tm);
    } else if b == t {
      assert EveryKeyTakes(bm, o.value, tm, om);
      TakesSide(bm, o.value, tm, om);
    } else {
      SlotOfMaps(b, o, t);
    }
  }
}

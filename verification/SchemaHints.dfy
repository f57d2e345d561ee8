/**
 The flat index of merge hints: `crates/agentstategraph-core/src/schema.rs`, lines 78-155.
 It is compared with walking the schema along `properties` and `items`.
 */
module SchemaHints {
  import opened Order
  import opened Json
  import Paths

  datatype MergeHint =
    | LastWriterWins
    | UnionById(field: string)
    | Union
    | Sum
    | Max
    | Min
    | Concat
    | Manual
    | Custom(name: string)

  type HintMap = map<string, MergeHint>

  // ----- the index

  /** The keyword a hint is written with. */
  function HintName(hint: MergeHint): string {
    match hint
    case LastWriterWins => "last-writer-wins"
    case UnionById(_) => "union-by-id"
    case Union => "union"
    case Sum => "sum"
    case Max => "max"
    case Min => "min"
    case Concat => "concat"
    case Manual => "manual"
    case Custom(name) => name
  }

  const HINT_KEYWORDS: set<string> :=
    {"last-writer-wins", "union-by-id", "union", "sum", "max", "min", "concat", "manual"}

  /** Reading a keyword loses nothing: the hint is written with that keyword again. */
  function HintNamed(name: string, idField: string): (hint: MergeHint)
    ensures HintName(hint) == name
    ensures hint.UnionById? ==> hint.field == idField
    ensures hint.Custom? <==> name !in HINT_KEYWORDS
  {
    if name == "last-writer-wins" then LastWriterWins
    else if name == "union-by-id" then UnionById(idField)
    else if name == "union" then Union
    else if name == "sum" then Sum
    else if name == "max" then Max
    else if name == "min" then Min
    else if name == "concat" then Concat
    else if name == "manual" then Manual
    else Custom(name)
  }

  /** The hint a schema carries itself. */
  function OwnHint(schema: Json): Option<MergeHint> {
    match GetStr(schema, "x-agentstategraph-merge")
    case None => None
    case Some(name) =>
      var idField := GetStr(schema, "x-agentstategraph-id-field");
      Some(HintNamed(name, if idField.Some? then idField.value else "id"))
  }

  /** A schema without the annotation, or with one that is not a string, has no hint. */
  lemma NoHint(schema: Json)
    requires schema.Obj? && "x-agentstategraph-merge" in schema.fields ==>
      !schema.fields["x-agentstategraph-merge"].Str?
    ensures OwnHint(schema) == None
  {
  }

  /** With it, the hint is the one written with that keyword; the id field is `id` unless it is given. */
  lemma HintAsWritten(fields: map<string, Json>, keyword: string)
    requires "x-agentstategraph-merge" in fields && fields["x-agentstategraph-merge"] == Str(keyword)
    ensures OwnHint(Obj(fields)).Some? && HintName(OwnHint(Obj(fields)).value) == keyword
    ensures keyword == "union-by-id" && "x-agentstategraph-id-field" !in fields ==>
      OwnHint(Obj(fields)) == Some(UnionById("id"))
    ensures forall f :: keyword == "union-by-id" && Get(Obj(fields), "x-agentstategraph-id-field") == Some(Str(f)) ==>
      OwnHint(Obj(fields)) == Some(UnionById(f))
  {
  }

  function OwnEntry(schema: Json, path: string): HintMap {
    match OwnHint(schema)
    case None => map[]
    case Some(h) => map[path := h]
  }

  /** Later entries replace earlier ones under the same path. */
  function HintIndex(schema: Json, path: string): HintMap
    decreases schema, 1
  {
    var props := GetObject(schema, "properties");
    OwnEntry(schema, path) + PropertyHints(schema, SortedKeys(props.Keys), path) + ItemHints(schema, path)
  }

  function PropertyHints(schema: Json, keys: seq<string>, path: string): HintMap
    requires forall k :: k in keys ==> k in GetObject(schema, "properties")
    decreases schema, 0, |keys| + 1
  {
    if keys == [] then map[]
    else
      var n := |keys| - 1;
      PropertyHints(schema, keys[..n], path) + OneProperty(schema, keys[n], path)
  }

  function OneProperty(schema: Json, key: string, path: string): HintMap
    requires key in GetObject(schema, "properties")
    decreases schema, 0, 0
  {
    HintIndex(GetObject(schema, "properties")[key], path + "/" + key)
  }

  function ItemHints(schema: Json, path: string): HintMap
    decreases schema, 0, 0
  {
    match Get(schema, "items")
    case None => map[]
    case Some(items) => HintIndex(items, path + "/*")
  }

  function ChildPath(path: string, key: string): (r: string)
    ensures r == path + "/" + key
  {
    if path == "" then "/" + key else path + "/" + key
  }

  lemma NextProperty(schema: Json, keys: seq<string>, i: nat, path: string, own: HintMap)
    requires i < |keys| && forall k :: k in keys ==> k in GetObject(schema, "properties")
    ensures own + PropertyHints(schema, keys[..i], path) + OneProperty(schema, keys[i], path)
      == own + PropertyHints(schema, keys[..i + 1], path)
  {
    assert keys[..i + 1][..i] == keys[..i];
    Extend(own, PropertyHints(schema, keys[..i], path), OneProperty(schema, keys[i], path));
  }

  lemma Extend(a: HintMap, b: HintMap, c: HintMap)
    ensures a + b + c == a + (b + c)
  {
  }

  /** `extract_merge_hints`: one map, extended part by part. */
  method ExtractMergeHints(schema: Json, path: string) returns (hints: HintMap)
    ensures hints == HintIndex(schema, path)
    decreases schema, 1
  {
    hints := map[];
    var own := OwnHint(schema);
    if own.Some? {
      hints := hints[path := own.value];
    }
    assert hints == OwnEntry(schema, path);
    hints := ExtractProperties(schema, path, hints);
    hints := ExtractItems(schema, path, hints);
  }

  /** Its part for array items. */
  method ExtractItems(schema: Json, path: string, before: HintMap) returns (hints: HintMap)
    ensures hints == before + ItemHints(schema, path)
    decreases schema, 0
  {
    hints := before;
    var items := Get(schema, "items");
    if items.Some? {
      var below := ExtractMergeHints(items.value, path + "/*");
      hints := hints + below;
    }
  }

  method ExtractProperty(schema: Json, path: string, key: string) returns (below: HintMap)
    requires key in GetObject(schema, "properties")
    ensures below == OneProperty(schema, key, path)
    decreases schema, 0, 0
  {
    below := ExtractMergeHints(GetObject(schema, "properties")[key], ChildPath(path, key));
  }

  /** Its loop over the properties. */
  method ExtractProperties(schema: Json, path: string, own: HintMap) returns (hints: HintMap)
    ensures hints == own + PropertyHints(schema, SortedKeys(GetObject(schema, "properties").Keys), path)
    decreases schema, 0, 1
  {
    hints := own;
    var keys := SortedKeys(GetObject(schema, "properties").Keys);
    for i := 0 to |keys|
      invariant hints == own + PropertyHints(schema, keys[..i], path)
    {
      var below := ExtractProperty(schema, path, keys[i]);
      NextProperty(schema, keys, i, path, own);
      hints := hints + below;
    }
    assert keys[..|keys|] == keys;
  }

  /** `Schema::merge_hint_for` on its index. */
  function Lookup(hints: HintMap, path: string): Option<MergeHint> {
    if path in hints then Some(hints[path]) else None
  }

  datatype Schema = Schema(document: Json, mergeHints: HintMap)

  /** `Schema::from_json_schema`: every lookup agrees with the document. */
  method FromJsonSchema(document: Json) returns (schema: Schema)
    ensures schema.document == document
    ensures PlainNames(document) ==> forall path :: Lookup(schema.mergeHints, path) == HintAt(document, path)
  {
    var hints := ExtractMergeHints(document, "");
    if PlainNames(document) {
      forall path ensures Lookup(hints, path) == HintAt(document, path) {
        IndexAgreesWithSchema(document, path);
      }
    }
    schema := Schema(document, hints);
  }

  // ----- walking the schema

  datatype Step = Property(name: string) | Items

  function StepText(step: Step): string {
    match step
    case Property(name) => name
    case Items => "*"
  }

  function Down(schema: Json, step: Step): (r: Option<Json>)
    ensures r.Some? ==> r.value < schema
  {
    match step
    case Property(name) =>
      var props := GetObject(schema, "properties");
      if name in props then Some(props[name]) else None
    case Items => Get(schema, "items")
  }

  function Walk(schema: Json, steps: seq<Step>): Option<Json>
    decreases |steps|
  {
    if steps == [] then Some(schema)
    else
      match Down(schema, steps[0])
      case None => None
      case Some(below) => Walk(below, steps[1..])
  }

  function HintAlong(schema: Json, steps: seq<Step>): Option<MergeHint> {
    match Walk(schema, steps)
    case None => None
    case Some(s) => OwnHint(s)
  }

  function Render(path: string, steps: seq<Step>): string
    decreases |steps|
  {
    if steps == [] then path else Render(path + "/" + StepText(steps[0]), steps[1..])
  }

  function StepOf(segment: string): Step {
    if segment == "*" then Items else Property(segment)
  }

  /** What a path string leads to, read segment by segment. */
  function HintAt(schema: Json, path: string): Option<MergeHint> {
    if path == "" then OwnHint(schema)
    else if path[0] != '/' then None
    else HintAlong(schema, MapSeq(StepOf, Paths.Split(path[1..])))
  }

  predicate PlainStep(step: Step) {
    step.Property? ==> '/' !in step.name && step.name != "*"
  }

  /** The property names the schema reaches can be told apart in a path. */
  ghost predicate PlainNames(schema: Json) {
    forall steps: seq<Step>, i | Walk(schema, steps).Some? && 0 <= i < |steps| :: PlainStep(steps[i])
  }

  // ----- the index holds walks, and every walk

  lemma WalkDown(schema: Json, step: Step, rest: seq<Step>, path: string)
    requires Down(schema, step).Some?
    ensures Walk(schema, [step] + rest) == Walk(Down(schema, step).value, rest)
    ensures Render(path, [step] + rest) == Render(path + "/" + StepText(step), rest)
  {
    assert ([step] + rest)[1..] == rest;
  }

  lemma {:induction false} PropertyEntry(schema: Json, keys: seq<string>, path: string, p: string) returns (k: string)
    requires forall k :: k in keys ==> k in GetObject(schema, "properties")
    requires p in PropertyHints(schema, keys, path)
    ensures k in keys
    ensures var below := OneProperty(schema, k, path);
      p in below && below[p] == PropertyHints(schema, keys, path)[p]
    decreases |keys|
  {
    var n := |keys| - 1;
    if p in OneProperty(schema, keys[n], path) {
      k := keys[n];
    } else {
      k := PropertyEntry(schema, keys[..n], path, p);
    }
  }

  /** Every entry is the hint of some walk whose steps spell its path. */
  lemma {:induction false} EntryIsWalk(schema: Json, path: string, p: string) returns (steps: seq<Step>)
    requires p in HintIndex(schema, path)
    ensures Render(path, steps) == p && HintAlong(schema, steps) == Some(HintIndex(schema, path)[p])
    decreases schema
  {
    var props := GetObject(schema, "properties");
    var keys := SortedKeys(props.Keys);
    if p in ItemHints(schema, path) {
      assert path + "/*" == path + "/" + "*";
      var rest := EntryIsWalk(Get(schema, "items").value, path + "/*", p);
      WalkDown(schema, Items, rest, path);
      steps := [Items] + rest;
    } else if p in PropertyHints(schema, keys, path) {
      var k := PropertyEntry(schema, keys, path, p);
      var rest := EntryIsWalk(props[k], path + "/" + k, p);
      WalkDown(schema, Property(k), rest, path);
      steps := [Property(k)] + rest;
    } else {
      steps := [];
    }
  }

  lemma {:induction false} PropertyHintsHold(schema: Json, keys: seq<string>, path: string, k: string, p: string)
    requires forall k :: k in keys ==> k in GetObject(schema, "properties")
    requires k in keys && p in OneProperty(schema, k, path)
    ensures p in PropertyHints(schema, keys, path)
    decreases |keys|
  {
    var n := |keys| - 1;
    if k != keys[n] {
      PropertyHintsHold(schema, keys[..n], path, k, p);
    }
  }

  lemma {:induction false} WalkIsEntry(schema: Json, path: string, steps: seq<Step>)
    requires HintAlong(schema, steps).Some?
    ensures Render(path, steps) in HintIndex(schema, path)
    decreases |steps|
  {
    if steps != [] {
      var step := steps[0];
      var below := Down(schema, step).value;
      WalkIsEntry(below, path + "/" + StepText(step), steps[1..]);
      assert path + "/*" == path + "/" + "*";
      if step.Property? {
        var keys := SortedKeys(GetObject(schema, "properties").Keys);
        PropertyHintsHold(schema, keys, path, step.name, Render(path, steps));
      }
    }
  }

  // ----- when the index is unambiguous

  /** Two hinted walks that spell the same path carry the same hint. */
  ghost predicate Unambiguous(schema: Json) {
    forall a, b | HintAlong(schema, a).Some? && HintAlong(schema, b).Some? && Render("", a) == Render("", b) ::
      HintAlong(schema, a) == HintAlong(schema, b)
  }

  ghost predicate AnswersWalk(schema: Json, steps: seq<Step>) {
    HintAlong(schema, steps).Some? ==> Lookup(HintIndex(schema, ""), Render("", steps)) == HintAlong(schema, steps)
  }

  /** The index answers every hinted walk exactly when no two of them clash. */
  lemma IndexAnswersWalks(schema: Json)
    ensures (forall steps :: AnswersWalk(schema, steps)) <==> Unambiguous(schema)
  {
    if forall steps :: AnswersWalk(schema, steps) {
      forall a, b | HintAlong(schema, a).Some? && HintAlong(schema, b).Some? && Render("", a) == Render("", b)
        ensures HintAlong(schema, a) == HintAlong(schema, b)
      {
        assert AnswersWalk(schema, a) && AnswersWalk(schema, b);
      }
    }
    if Unambiguous(schema) {
      forall steps ensures AnswersWalk(schema, steps) {
        if HintAlong(schema, steps).Some? {
          WalkIsEntry(schema, "", steps);
          var found := EntryIsWalk(schema, "", Render("", steps));
        }
      }
    }
  }

  // ----- spelling

  lemma {:induction false} RenderPrefix(path: string, steps: seq<Step>)
    ensures Render(path, steps) == path + Render("", steps)
    decreases |steps|
  {
    if steps != [] {
      var here := "/" + StepText(steps[0]);
      RenderPrefix(path + "/" + StepText(steps[0]), steps[1..]);
      RenderPrefix("" + "/" + StepText(steps[0]), steps[1..]);
      assert "" + "/" + StepText(steps[0]) == here;
      assert path + "/" + StepText(steps[0]) == path + here;
      assert path + here + Render("", steps[1..]) == path + (here + Render("", steps[1..]));
    }
  }

  lemma RenderFirst(steps: seq<Step>)
    requires steps != []
    ensures Render("", steps) == "/" + (StepText(steps[0]) + Render("", steps[1..]))
  {
    RenderPrefix("" + "/" + StepText(steps[0]), steps[1..]);
    AfterSlash(StepText(steps[0]), Render("", steps[1..]));
  }

  lemma AfterSlash(a: string, b: string)
    ensures "" + "/" + a + b == "/" + (a + b)
  {
  }

  function Join(segments: seq<string>): string {
    if segments == [] then "" else "/" + (segments[0] + Join(segments[1..]))
  }

  lemma {:induction false} RenderIsJoin(steps: seq<Step>)
    ensures Render("", steps) == Join(MapSeq(StepText, steps))
  {
    if steps != [] {
      RenderFirst(steps);
      RenderIsJoin(steps[1..]);
      assert MapSeq(StepText, steps)[1..] == MapSeq(StepText, steps[1..]);
    }
  }

  lemma {:induction false} JoinSplit(q: string)
    ensures Join(Paths.Split(q)) == "/" + q
  {
    if q != "" {
      var rest := Paths.Split(q[1..]);
      JoinSplit(q[1..]);
      assert q == [q[0]] + q[1..];
      if q[0] == '/' {
        assert ([""] + rest)[1..] == rest;
      } else {
        JoinLonger(q[0], rest);
        assert ("/" + q[1..])[1..] == q[1..];
      }
    }
  }

  lemma JoinLonger(c: char, segments: seq<string>)
    requires segments != []
    ensures Join([[c] + segments[0]] + segments[1..]) == "/" + ([c] + Join(segments)[1..])
  {
    assert ([[c] + segments[0]] + segments[1..])[1..] == segments[1..];
  }

  lemma {:induction false} SplitJoin(segments: seq<string>)
    requires segments != [] && forall i :: 0 <= i < |segments| ==> '/' !in segments[i]
    ensures Join(segments) != "" && Join(segments)[0] == '/' && Paths.Split(Join(segments)[1..]) == segments
  {
    var text, rest := segments[0], segments[1..];
    Paths.SplitClean(text);
    assert segments == [text] + rest;
    if rest == [] {
      assert Join(segments)[1..] == text;
    } else {
      SplitJoin(rest);
      var q := Join(rest)[1..];
      assert Join(rest) == "/" + q;
      assert Join(segments)[1..] == text + "/" + q;
      Paths.SplitAtSlash(text, q);
    }
  }

  /** The spelling of plain steps reads back as those steps. */
  lemma SpellingReadsBack(steps: seq<Step>)
    requires steps != [] && forall i :: 0 <= i < |steps| ==> PlainStep(steps[i])
    ensures var p := Render("", steps);
      p != "" && p[0] == '/' && MapSeq(StepOf, Paths.Split(p[1..])) == steps
  {
    var texts := MapSeq(StepText, steps);
    forall i | 0 <= i < |steps| ensures '/' !in texts[i] && StepOf(texts[i]) == steps[i] {
      assert PlainStep(steps[i]);
    }
    RenderIsJoin(steps);
    SplitJoin(texts);
  }

  /** Reading a path as steps and spelling them gives the path. */
  lemma ReadingSpellsBack(q: string)
    ensures Render("", MapSeq(StepOf, Paths.Split(q))) == "/" + q
  {
    var segments := Paths.Split(q);
    RenderIsJoin(MapSeq(StepOf, segments));
    assert MapSeq(StepText, MapSeq(StepOf, segments)) == segments;
    JoinSplit(q);
  }

  /** For every path, the flat index gives what walking the schema finds. */
  lemma IndexAgreesWithSchema(schema: Json, path: string)
    requires PlainNames(schema)
    ensures Lookup(HintIndex(schema, ""), path) == HintAt(schema, path)
  {
    if path in HintIndex(schema, "") {
      var steps := EntryIsWalk(schema, "", path);
      forall i | 0 <= i < |steps| ensures PlainStep(steps[i]) {
      }
      if steps != [] {
        SpellingReadsBack(steps);
      }
    } else if HintAt(schema, path).Some? {
      var steps := if path == "" then [] else MapSeq(StepOf, Paths.Split(path[1..]));
      if path != "" {
        ReadingSpellsBack(path[1..]);
        assert path == "/" + path[1..];
      }
      WalkIsEntry(schema, "", steps);
    }
  }

  /** Plain names rule the clashes out. */
  lemma PlainIsUnambiguous(schema: Json)
    requires PlainNames(schema)
    ensures Unambiguous(schema)
  {
    forall a, b | HintAlong(schema, a).Some? && HintAlong(schema, b).Some? && Render("", a) == Render("", b)
      ensures HintAlong(schema, a) == HintAlong(schema, b)
    {
      assert forall i :: 0 <= i < |a| ==> PlainStep(a[i]);
      assert forall i :: 0 <= i < |b| ==> PlainStep(b[i]);
      if a != [] { SpellingReadsBack(a); }
      if b != [] { SpellingReadsBack(b); }
    }
  }

  /** With a property called "*" beside `items` the index keeps only the hint of `items`. */
  lemma StarPropertyIsShadowed(property: Json, items: Json)
    requires OwnHint(property).Some? && OwnHint(items).Some? && OwnHint(property) != OwnHint(items)
    ensures var schema := Obj(map["properties" := Obj(map["*" := property]), "items" := items]);
      && !Unambiguous(schema)
      && HintAlong(schema, [Property("*")]) == OwnHint(property)
      && Lookup(HintIndex(schema, ""), "/*") == OwnHint(items)
  {
    var schema := Obj(map["properties" := Obj(map["*" := property]), "items" := items]);
    WalkDown(schema, Property("*"), [], "");
    WalkDown(schema, Items, [], "");
    var a, b := [Property("*")], [Items];
    assert a == [Property("*")] + [] && b == [Items] + [];
    assert HintAlong(schema, a) == OwnHint(property) && HintAlong(schema, b) == OwnHint(items);
    assert Render("", a) == Render("", b);
    assert Lookup(HintIndex(schema, ""), "/*") == OwnHint(items) by {
      assert Get(schema, "items") == Some(items);
      OwnHintAtRoot(items, "" + "/*");
      assert "" + "/*" == "/*";
    }
  }

  /** An entry at the index's own root comes from the schema itself: every other one is longer. */
  lemma OwnHintAtRoot(schema: Json, path: string)
    requires OwnHint(schema).Some?
    ensures Lookup(HintIndex(schema, path), path) == OwnHint(schema)
  {
    WalkIsEntry(schema, path, []);
    var steps := EntryIsWalk(schema, path, path);
    RenderPrefix(path, steps);
    if steps != [] {
      RenderFirst(steps);
    }
  }
}

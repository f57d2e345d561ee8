/** The validator: `crates/agentstategraph-core/src/schema.rs`, lines 92-105 and 157-251. */
module SchemaValidation {
  import opened Order
  import opened Json
  import opened Paths
  import Decimal

  /** The rule a value breaks, with what the error reports as expected and actual. */
  datatype Breach =
    | WrongType(expected: string, actual: string)
    | Missing(key: string)
    | NotInEnum(allowed: seq<Json>, found: Json)

  datatype ValidationError = ValidationError(path: string, breach: Breach)

  /** Which values have the type a schema names. 42 is an integer and not a number. */
  predicate HasType(name: string, value: Json) {
    || (name == "null" && value.Null?)
    || (name == "boolean" && value.Bool?)
    || (name == "integer" && value.Integer?)
    || (name == "number" && value.Float?)
    || (name == "string" && value.Str?)
    || (name == "array" && value.Arr?)
    || (name == "object" && value.Obj?)
  }

  /** `json_type_name`: the one type name the value has. */
  function TypeName(value: Json): (name: string)
    ensures forall n :: HasType(n, value) <==> n == name
  {
    match value
    case Null => "null"
    case Bool(_) => "boolean"
    case Integer(_) => "integer"
    case Float(_) => "number"
    case Str(_) => "string"
    case Arr(_) => "array"
    case Obj(_) => "object"
  }

  // ----- the error list

  predicate TypeMatches(schema: Json, value: Json) {
    GetStr(schema, "type").Some? ==> GetStr(schema, "type").value == TypeName(value)
  }

  function Required(schema: Json): seq<Json> {
    var r := GetArray(schema, "required");
    if r.Some? then r.value else []
  }

  function MissingErrors(required: seq<Json>, fields: map<string, Json>, path: string): seq<ValidationError> {
    if required == [] then []
    else
      var n := |required| - 1;
      MissingErrors(required[..n], fields, path)
      + (if required[n].Str? && required[n].text !in fields
         then [ValidationError(path + "/" + required[n].text, Missing(required[n].text))] else [])
  }

  function EnumErrors(schema: Json, value: Json, path: string): seq<ValidationError> {
    match GetArray(schema, "enum")
    case None => []
    case Some(allowed) =>
      if value in allowed then [] else [ValidationError(path, NotInEnum(allowed, value))]
  }

  function OwnErrors(schema: Json, value: Json, path: string): seq<ValidationError> {
    (if value.Obj? then MissingErrors(Required(schema), value.fields, path) else [])
    + EnumErrors(schema, value, path)
  }

  /** The errors in the order `validate_recursive` pushes them. */
  function Errors(schema: Json, value: Json, path: string): seq<ValidationError>
    decreases schema, 2
  {
    if !TypeMatches(schema, value)
    then [ValidationError(path, WrongType(GetStr(schema, "type").value, TypeName(value)))]
    else
      OwnErrors(schema, value, path) + ErrorsInFields(schema, value, path) + ErrorsInElements(schema, value, path)
  }

  function ErrorsInFields(schema: Json, value: Json, path: string): seq<ValidationError>
    decreases schema, 1
  {
    if !value.Obj? then []
    else FieldErrors(schema, SortedKeys(GetObject(schema, "properties").Keys), value.fields, path)
  }

  function ErrorsInElements(schema: Json, value: Json, path: string): seq<ValidationError>
    decreases schema, 1
  {
    if !value.Arr? then [] else ElementErrors(schema, value.elements, path)
  }

  function FieldErrors(schema: Json, keys: seq<string>, fields: map<string, Json>, path: string): seq<ValidationError>
    requires forall k :: k in keys ==> k in GetObject(schema, "properties")
    decreases schema, 0, |keys|
  {
    if keys == [] then []
    else
      var n := |keys| - 1;
      var k := keys[n];
      FieldErrors(schema, keys[..n], fields, path)
      + (if k in fields then Errors(GetObject(schema, "properties")[k], fields[k], path + "/" + k) else [])
  }

  function ElementErrors(schema: Json, elements: seq<Json>, path: string): seq<ValidationError>
    decreases schema, 0, |elements|
  {
    if elements == [] || Get(schema, "items").None? then []
    else
      var n := |elements| - 1;
      ElementErrors(schema, elements[..n], path)
      + Errors(Get(schema, "items").value, elements[n], path + "/" + Decimal.Dec(n))
  }

  // ----- the loops that push them

  class ErrorLog {
    var errors: seq<ValidationError>

    constructor ()
      ensures errors == []
    {
      errors := [];
    }
  }

  lemma NextField(schema: Json, keys: seq<string>, i: nat, fields: map<string, Json>, path: string)
    requires i < |keys| && forall k :: k in keys ==> k in GetObject(schema, "properties")
    ensures FieldErrors(schema, keys[..i + 1], fields, path)
      == FieldErrors(schema, keys[..i], fields, path)
         + (if keys[i] in fields
            then Errors(GetObject(schema, "properties")[keys[i]], fields[keys[i]], path + "/" + keys[i]) else [])
  {
    assert keys[..i + 1][..i] == keys[..i];
  }

  lemma NextElement(schema: Json, elements: seq<Json>, i: nat, path: string)
    requires i < |elements| && Get(schema, "items").Some?
    ensures ElementErrors(schema, elements[..i + 1], path)
      == ElementErrors(schema, elements[..i], path)
         + Errors(Get(schema, "items").value, elements[i], path + "/" + Decimal.Dec(i))
  {
    assert elements[..i + 1][..i] == elements[..i];
  }

  method CheckRequired(schema: Json, fields: map<string, Json>, path: string, log: ErrorLog)
    modifies log
    ensures log.errors == old(log.errors) + MissingErrors(Required(schema), fields, path)
  {
    var required := Required(schema);
    for i := 0 to |required|
      invariant log.errors == old(log.errors) + MissingErrors(required[..i], fields, path)
    {
      assert required[..i + 1][..i] == required[..i];
      if required[i].Str? && required[i].text !in fields {
        log.errors := log.errors + [ValidationError(path + "/" + required[i].text, Missing(required[i].text))];
      }
    }
    assert required[..|required|] == required;
  }

  /** The required and enum rules at one position. */
  method CheckOwn(schema: Json, value: Json, path: string, log: ErrorLog)
    modifies log
    ensures log.errors == old(log.errors) + OwnErrors(schema, value, path)
  {
    if value.Obj? {
      CheckRequired(schema, value.fields, path, log);
    }
    var allowed := GetArray(schema, "enum");
    if allowed.Some? && value !in allowed.value {
      log.errors := log.errors + [ValidationError(path, NotInEnum(allowed.value, value))];
    }
  }

  method ValidateFields(schema: Json, fields: map<string, Json>, path: string, log: ErrorLog)
    modifies log
    ensures log.errors == old(log.errors)
      + FieldErrors(schema, SortedKeys(GetObject(schema, "properties").Keys), fields, path)
    decreases schema, 0
  {
    var props := GetObject(schema, "properties");
    var keys := SortedKeys(props.Keys);
    for i := 0 to |keys|
      invariant log.errors == old(log.errors) + FieldErrors(schema, keys[..i], fields, path)
    {
      NextField(schema, keys, i, fields, path);
      if keys[i] in fields {
        ValidateRecursive(props[keys[i]], fields[keys[i]], path + "/" + keys[i], log);
        Assoc(old(log.errors), FieldErrors(schema, keys[..i], fields, path),
          Errors(props[keys[i]], fields[keys[i]], path + "/" + keys[i]));
      }
    }
    assert keys[..|keys|] == keys;
  }

  method ValidateElements(schema: Json, elements: seq<Json>, path: string, log: ErrorLog)
    modifies log
    ensures log.errors == old(log.errors) + ElementErrors(schema, elements, path)
    decreases schema, 0
  {
    var items := Get(schema, "items");
    if items.Some? {
      for i := 0 to |elements|
        invariant log.errors == old(log.errors) + ElementErrors(schema, elements[..i], path)
      {
        NextElement(schema, elements, i, path);
        ValidateRecursive(items.value, elements[i], path + "/" + Decimal.Dec(i), log);
        Assoc(old(log.errors), ElementErrors(schema, elements[..i], path),
          Errors(items.value, elements[i], path + "/" + Decimal.Dec(i)));
      }
      assert elements[..|elements|] == elements;
    }
  }

  /** `validate_recursive`. */
  method ValidateRecursive(schema: Json, value: Json, path: string, log: ErrorLog)
    modifies log
    ensures log.errors == old(log.errors) + Errors(schema, value, path)
    decreases schema, 1
  {
    var expected := GetStr(schema, "type");
    if expected.Some? && expected.value != TypeName(value) {
      log.errors := log.errors + [ValidationError(path, WrongType(expected.value, TypeName(value)))];
      return;
    }
    CheckOwn(schema, value, path, log);
    ghost var own, inFields, inElements :=
      OwnErrors(schema, value, path), ErrorsInFields(schema, value, path), ErrorsInElements(schema, value, path);
    if value.Obj? {
      ValidateFields(schema, value.fields, path, log);
    }
    assert log.errors == old(log.errors) + own + inFields;
    if value.Arr? {
      ValidateElements(schema, value.elements, path, log);
    }
    assert log.errors == old(log.errors) + own + inFields + inElements;
    Assoc(old(log.errors), own, inFields);
    Assoc(old(log.errors), own + inFields, inElements);
  }

  /** `Schema::validate`: valid exactly when the value satisfies the schema. */
  method Validate(schema: Json, value: Json) returns (valid: bool, errors: seq<ValidationError>)
    ensures valid <==> Satisfies(schema, value)
    ensures forall e :: e in errors <==> Reports(schema, value, e)
  {
    var log := new ErrorLog();
    ValidateRecursive(schema, value, "", log);
    errors := log.errors;
    valid := errors == [];
    ValidIffSatisfies(schema, value);
    forall e ensures e in errors <==> Reports(schema, value, e) {
      ErrorsAreExact(schema, value, e);
    }
  }

  // ----- the rules, position by position

  datatype Position = Position(schema: Json, value: Json)

  /** One component down: the subschema that speaks about a field or an element. */
  function Descend(at: Position, c: PathComponent): (r: Option<Position>)
    ensures r.Some? ==> r.value.schema < at.schema
  {
    match c
    case Key(k) =>
      var props := GetObject(at.schema, "properties");
      if at.value.Obj? && k in at.value.fields && k in props
      then Some(Position(props[k], at.value.fields[k])) else None
    case Index(i) =>
      if at.value.Arr? && i < |at.value.elements| && Get(at.schema, "items").Some?
      then Some(Position(Get(at.schema, "items").value, at.value.elements[i])) else None
  }

  function Reach(at: Position, p: StatePath): Option<Position>
    decreases |p|
  {
    if p == [] then Some(at)
    else
      match Descend(at, p[0])
      case None => None
      case Some(below) => Reach(below, p[1..])
  }

  predicate Breaks(at: Position, b: Breach) {
    match b
    case WrongType(expected, actual) =>
      Get(at.schema, "type") == Some(Str(expected)) && !HasType(expected, at.value) && HasType(actual, at.value)
    case Missing(key) =>
      && at.value.Obj? && key !in at.value.fields
      && Get(at.schema, "required").Some? && Get(at.schema, "required").value.Arr?
      && Str(key) in Get(at.schema, "required").value.elements
    case NotInEnum(allowed, found) =>
      Get(at.schema, "enum") == Some(Arr(allowed)) && found == at.value && found !in allowed
  }

  /** The schema at the position names no type, or one the value has. */
  predicate RightType(at: Position) {
    match Get(at.schema, "type")
    case Some(Str(name)) => HasType(name, at.value)
    case _ => true
  }

  lemma RightTypeMatches(at: Position)
    ensures RightType(at) <==> TypeMatches(at.schema, at.value)
  {
    if GetStr(at.schema, "type").Some? {
      assert HasType(GetStr(at.schema, "type").value, at.value) <==>
        GetStr(at.schema, "type").value == TypeName(at.value);
    }
  }

  predicate TypedAt(at: Position, p: StatePath) {
    Reach(at, p).Some? && RightType(Reach(at, p).value)
  }

  ghost predicate BreaksAt(at: Position, p: StatePath, b: Breach) {
    Reach(at, p).Some? && Breaks(Reach(at, p).value, b)
  }

  /** The value obeys the type, required and enum rules at every position the schema reaches. */
  ghost predicate Satisfies(schema: Json, value: Json) {
    forall p, b :: !BreaksAt(Position(schema, value), p, b)
  }

  /** Where the error for a breach at `p` points: a missing field is named itself. */
  function ErrorPath(p: StatePath, b: Breach): string {
    if b.Missing? then Components(p) + "/" + b.key else Components(p)
  }

  /** The breach is found: nothing on the way down stopped the descent. */
  ghost predicate Found(at: Position, p: StatePath, b: Breach) {
    && BreaksAt(at, p, b)
    && (forall n :: 0 <= n < |p| ==> TypedAt(at, p[..n]))
    && (b.WrongType? || TypedAt(at, p))
  }

  ghost predicate Emits(at: Position, path: string, e: ValidationError, p: StatePath) {
    Found(at, p, e.breach) && e.path == path + ErrorPath(p, e.breach)
  }

  /** An error some position accounts for. */
  ghost predicate Reports(schema: Json, value: Json, e: ValidationError) {
    exists p :: Emits(Position(schema, value), "", e, p)
  }

  // ----- what one position contributes

  lemma {:induction false} MissingListed(
    required: seq<Json>, fields: map<string, Json>, path: string, e: ValidationError)
    ensures e in MissingErrors(required, fields, path) <==>
      && e.breach.Missing? && Str(e.breach.key) in required && e.breach.key !in fields
      && e.path == path + "/" + e.breach.key
  {
    if required != [] {
      var n := |required| - 1;
      MissingListed(required[..n], fields, path, e);
      assert required == required[..n] + [required[n]];
    }
  }

  lemma ErrorPathHere(path: string, b: Breach)
    ensures path + ErrorPath([], b) == if b.Missing? then path + "/" + b.key else path
  {
  }

  lemma OwnErrorsListed(at: Position, path: string, e: ValidationError)
    ensures e in OwnErrors(at.schema, at.value, path) <==>
      !e.breach.WrongType? && Breaks(at, e.breach) && e.path == path + ErrorPath([], e.breach)
  {
    if at.value.Obj? {
      MissingListed(Required(at.schema), at.value.fields, path, e);
    }
    ErrorPathHere(path, e.breach);
  }

  /** An error one component below. */
  ghost predicate ErrorBelow(at: Position, path: string, e: ValidationError, c: PathComponent) {
    Descend(at, c).Some? &&
    e in Errors(Descend(at, c).value.schema, Descend(at, c).value.value, path + "/" + Segment(c))
  }

  lemma {:induction false} FieldErrorsListed(at: Position, keys: seq<string>, path: string, e: ValidationError)
    requires at.value.Obj? && forall k :: k in keys ==> k in GetObject(at.schema, "properties")
    ensures e in FieldErrors(at.schema, keys, at.value.fields, path) <==>
      exists k :: k in keys && ErrorBelow(at, path, e, Key(k))
    decreases |keys|
  {
    if keys != [] {
      var n := |keys| - 1;
      FieldErrorsListed(at, keys[..n], path, e);
      assert keys == keys[..n] + [keys[n]];
      assert e in FieldErrors(at.schema, keys, at.value.fields, path) <==>
        e in FieldErrors(at.schema, keys[..n], at.value.fields, path) || ErrorBelow(at, path, e, Key(keys[n]));
    }
  }

  lemma ElementErrorsStep(at: Position, n: nat, path: string, e: ValidationError)
    requires at.value.Arr? && n < |at.value.elements|
    ensures e in ElementErrors(at.schema, at.value.elements[..n + 1], path) <==>
      e in ElementErrors(at.schema, at.value.elements[..n], path) || ErrorBelow(at, path, e, Index(n))
  {
    if Get(at.schema, "items").Some? {
      NextElement(at.schema, at.value.elements, n, path);
    }
  }

  ghost predicate ElementErrorBefore(at: Position, n: nat, path: string, e: ValidationError) {
    exists i :: 0 <= i < n && ErrorBelow(at, path, e, Index(i))
  }

  lemma OneMoreElement(at: Position, n: nat, path: string, e: ValidationError)
    ensures ElementErrorBefore(at, n + 1, path, e) <==>
      ElementErrorBefore(at, n, path, e) || ErrorBelow(at, path, e, Index(n))
  {
  }

  lemma {:induction false} ElementErrorsListed(at: Position, n: nat, path: string, e: ValidationError)
    requires at.value.Arr? && n <= |at.value.elements|
    ensures e in ElementErrors(at.schema, at.value.elements[..n], path) <==> ElementErrorBefore(at, n, path, e)
    decreases n
  {
    if n == 0 {
      assert at.value.elements[..0] == [];
    } else {
      ElementErrorsListed(at, n - 1, path, e);
      ElementErrorsStep(at, n - 1, path, e);
      OneMoreElement(at, n - 1, path, e);
    }
  }

  /** Own errors and those one component below, when the type fits. */
  lemma ErrorsListed(at: Position, path: string, e: ValidationError)
    requires TypeMatches(at.schema, at.value)
    ensures e in Errors(at.schema, at.value, path) <==>
      e in OwnErrors(at.schema, at.value, path) || exists c :: ErrorBelow(at, path, e, c)
  {
    if at.value.Obj? {
      var keys := SortedKeys(GetObject(at.schema, "properties").Keys);
      FieldErrorsListed(at, keys, path, e);
      if c :| ErrorBelow(at, path, e, c) {
        assert c.Key? && c.key in keys;
      }
    }
    if at.value.Arr? {
      var n := |at.value.elements|;
      ElementErrorsListed(at, n, path, e);
      assert at.value.elements[..n] == at.value.elements;
      if c :| ErrorBelow(at, path, e, c) {
        assert c.Index? && c.index < n;
      }
    }
  }

  // ----- descending

  lemma {:induction false} ComponentsFirst(c: PathComponent, rest: StatePath)
    ensures Components([c] + rest) == "/" + Segment(c) + Components(rest)
  {
    var p := [c] + rest;
    if rest == [] {
      assert p[..0] == [] && Components(p[..0]) == "";
    } else {
      var n := |rest| - 1;
      ComponentsFirst(c, rest[..n]);
      assert p[..|p| - 1] == [c] + rest[..n] && p[|p| - 1] == rest[n];
      Append("/" + Segment(c), Components(rest[..n]), Segment(rest[n]));
    }
  }

  lemma ErrorPathFirst(path: string, c: PathComponent, rest: StatePath, b: Breach)
    ensures path + ErrorPath([c] + rest, b) == path + "/" + Segment(c) + ErrorPath(rest, b)
  {
    ComponentsFirst(c, rest);
    if b.Missing? {
      Append("/" + Segment(c), Components(rest), b.key);
    }
    Prepend(path, Segment(c), ErrorPath(rest, b));
  }

  lemma Append(a: string, b: string, last: string)
    ensures a + b + "/" + last == a + (b + "/" + last)
  {
  }

  lemma Prepend(path: string, a: string, b: string)
    ensures path + ("/" + a + b) == path + "/" + a + b
  {
  }

  lemma TypedBelow(at: Position, c: PathComponent, rest: StatePath)
    requires Descend(at, c).Some?
    ensures Reach(at, [c] + rest) == Reach(Descend(at, c).value, rest)
    ensures TypedAt(at, [c] + rest) <==> TypedAt(Descend(at, c).value, rest)
  {
    assert ([c] + rest)[1..] == rest;
  }

  lemma FoundBelow(at: Position, c: PathComponent, rest: StatePath, b: Breach)
    requires Descend(at, c).Some?
    ensures Found(at, [c] + rest, b) <==> RightType(at) && Found(Descend(at, c).value, rest, b)
  {
    var p, below := [c] + rest, Descend(at, c).value;
    TypedBelow(at, c, rest);
    assert TypedAt(at, p[..0]) <==> RightType(at);
    forall n | 0 <= n < |rest| ensures TypedAt(at, p[..n + 1]) <==> TypedAt(below, rest[..n]) {
      assert p[..n + 1] == [c] + rest[..n];
      TypedBelow(at, c, rest[..n]);
    }
    if Found(at, p, b) {
      forall n | 0 <= n < |rest| ensures TypedAt(below, rest[..n]) {
        assert TypedAt(at, p[..n + 1]);
      }
    }
    if RightType(at) && Found(below, rest, b) {
      forall n | 0 <= n < |p| ensures TypedAt(at, p[..n]) {
        if n > 0 { assert TypedAt(below, rest[..n - 1]); }
      }
    }
  }

  lemma EmitsBelow(at: Position, path: string, e: ValidationError, c: PathComponent, rest: StatePath)
    requires Descend(at, c).Some?
    ensures Emits(at, path, e, [c] + rest) <==>
      RightType(at) && Emits(Descend(at, c).value, path + "/" + Segment(c), e, rest)
  {
    FoundBelow(at, c, rest, e.breach);
    ErrorPathFirst(path, c, rest, e.breach);
  }

  // ----- the error list is exact

  /** Every error comes from a position breaking its own rule. */
  lemma {:induction false} ErrorIsEmitted(at: Position, path: string, e: ValidationError) returns (p: StatePath)
    requires e in Errors(at.schema, at.value, path)
    ensures Emits(at, path, e, p)
    decreases at.schema
  {
    RightTypeMatches(at);
    if !TypeMatches(at.schema, at.value) {
      p := [];
    } else {
      ErrorsListed(at, path, e);
      OwnErrorsListed(at, path, e);
      if e in OwnErrors(at.schema, at.value, path) {
        p := [];
      } else {
        var c :| ErrorBelow(at, path, e, c);
        var rest := ErrorIsEmitted(Descend(at, c).value, path + "/" + Segment(c), e);
        EmitsBelow(at, path, e, c, rest);
        p := [c] + rest;
      }
    }
  }

  lemma {:induction false} EmittedIsListed(at: Position, path: string, e: ValidationError, p: StatePath)
    requires Emits(at, path, e, p)
    ensures e in Errors(at.schema, at.value, path)
    decreases |p|
  {
    RightTypeMatches(at);
    if p == [] {
      ErrorPathHere(path, e.breach);
      OwnErrorsListed(at, path, e);
      if !e.breach.WrongType? {
        ErrorsListed(at, path, e);
      }
    } else {
      var c, rest := p[0], p[1..];
      assert p == [c] + rest;
      EmitsBelow(at, path, e, c, rest);
      EmittedIsListed(Descend(at, c).value, path + "/" + Segment(c), e, rest);
      assert ErrorBelow(at, path, e, c);
      ErrorsListed(at, path, e);
    }
  }

  /** The errors are exactly the breaches that no wrong type above them hides. */
  lemma ErrorsAreExact(schema: Json, value: Json, e: ValidationError)
    ensures e in Errors(schema, value, "") <==> Reports(schema, value, e)
  {
    var at := Position(schema, value);
    if e in Errors(schema, value, "") {
      var p := ErrorIsEmitted(at, "", e);
    }
    if Reports(schema, value, e) {
      var p :| Emits(at, "", e, p);
      EmittedIsListed(at, "", e, p);
    }
  }

  lemma {:induction false} ReachPrefix(at: Position, p: StatePath, n: nat)
    requires Reach(at, p).Some? && n <= |p|
    ensures Reach(at, p[..n]).Some?
    decreases n
  {
    if n > 0 {
      ReachPrefix(Descend(at, p[0]).value, p[1..], n - 1);
      assert p[..n][1..] == p[1..][..n - 1];
    }
  }

  /** If some position breaks a rule, then some breach is found: this one, or a wrong type on the way. */
  lemma {:induction false} SomeBreachIsFound(at: Position, p: StatePath, b: Breach, n: nat)
    returns (q: StatePath, c: Breach)
    requires BreaksAt(at, p, b) && n <= |p| && forall m :: 0 <= m < n ==> TypedAt(at, p[..m])
    ensures Found(at, q, c)
    decreases |p| - n
  {
    ReachPrefix(at, p, n);
    if !TypedAt(at, p[..n]) {
      var here := Reach(at, p[..n]).value;
      q, c := p[..n], WrongType(GetStr(here.schema, "type").value, TypeName(here.value));
      forall m | 0 <= m < |q| ensures TypedAt(at, q[..m]) {
        assert q[..m] == p[..m];
      }
    } else if n == |p| {
      assert p[..n] == p;
      q, c := p, b;
    } else {
      q, c := SomeBreachIsFound(at, p, b, n + 1);
    }
  }

  /** No errors exactly when every rule holds everywhere, early return or not. */
  lemma ValidIffSatisfies(schema: Json, value: Json)
    ensures Errors(schema, value, "") == [] <==> Satisfies(schema, value)
  {
    var at, errors := Position(schema, value), Errors(schema, value, "");
    if errors != [] {
      var p := ErrorIsEmitted(at, "", errors[0]);
      assert BreaksAt(at, p, errors[0].breach);
    }
    if !Satisfies(schema, value) {
      var p, b :| BreaksAt(at, p, b);
      var q, c := SomeBreachIsFound(at, p, b, 0);
      var e := ValidationError("" + ErrorPath(q, c), c);
      assert Emits(at, "", e, q);
      EmittedIsListed(at, "", e, q);
    }
  }

  // ----- the type rule alone

  /** A schema that only names a type is satisfied by the values of that type. */
  lemma TypeRule(name: string, v: Json)
    ensures Satisfies(Obj(map["type" := Str(name)]), v) <==> HasType(name, v)
  {
    var schema := Obj(map["type" := Str(name)]);
    var at := Position(schema, v);
    if HasType(name, v) {
      forall p, b ensures !BreaksAt(at, p, b) {
        if p != [] { assert Descend(at, p[0]).None?; }
      }
    } else {
      assert HasType(TypeName(v), v);
      assert BreaksAt(at, [], WrongType(name, TypeName(v)));
    }
  }

  ghost predicate OfType(name: string, v: Json) {
    Satisfies(Obj(map["type" := Str(name)]), v)
  }

  /** The seven type names, each with its values. */
  lemma TypeTable(v: Json)
    ensures OfType("null", v) <==> v.Null?
    ensures OfType("boolean", v) <==> v.Bool?
    ensures OfType("integer", v) <==> v.Integer?
    ensures OfType("number", v) <==> v.Float?
    ensures OfType("string", v) <==> v.Str?
    ensures OfType("array", v) <==> v.Arr?
    ensures OfType("object", v) <==> v.Obj?
  {
    TypeRule("null", v);
    TypeRule("boolean", v);
    TypeRule("integer", v);
    TypeRule("number", v);
    TypeRule("string", v);
    TypeRule("array", v);
    TypeRule("object", v);
  }

  lemma NoOtherType(name: string, v: Json)
    requires name !in {"null", "boolean", "integer", "number", "string", "array", "object"}
    ensures !OfType(name, v)
  {
    TypeRule(name, v);
  }
}

/** JSON documents as `serde_json::Value` holds them; its objects iterate in key order. */
module Json {
  import opened Order

  datatype Json =
    | Null
    | Bool(flag: bool)
    | Integer(n: int)
    | Float(bits: nat)
    | Str(text: string)
    | Arr(elements: seq<Json>)
    | Obj(fields: map<string, Json>)

  /** `Value::get` with a string index: only objects have members. */
  function Get(j: Json, name: string): (r: Option<Json>)
    ensures r.Some? <==> j.Obj? && name in j.fields
    ensures r.Some? ==> r.value == j.fields[name] && r.value < j
  {
    if j.Obj? && name in j.fields then Some(j.fields[name]) else None
  }

  function GetStr(j: Json, name: string): (r: Option<string>)
    ensures forall s :: r == Some(s) <==> Get(j, name) == Some(Str(s))
  {
    match Get(j, name)
    case Some(Str(s)) => Some(s)
    case _ => None
  }

  function GetObject(j: Json, name: string): (r: map<string, Json>)
    ensures forall k :: k in r ==> r[k] < j
    ensures forall fields :: Get(j, name) == Some(Obj(fields)) ==> r == fields
    ensures r != map[] ==> Get(j, name) == Some(Obj(r))
  {
    match Get(j, name)
    case Some(Obj(fields)) => fields
    case _ => map[]
  }

  function GetArray(j: Json, name: string): (r: Option<seq<Json>>)
    ensures forall elements :: r == Some(elements) <==> Get(j, name) == Some(Arr(elements))
  {
    match Get(j, name)
    case Some(Arr(elements)) => Some(elements)
    case _ => None
  }
}

/** Decoded JSON values as the Python services see them after `json.loads` / `resp.json()`. */
module Json {
  import opened Wrappers
  import opened OrderedMap

  /** A decoded JSON value. Object fields keep their order; Python's decoder keeps the last
      of duplicated keys. */
  datatype Value =
    | JNull
    | JBool(b: bool)
    | JInt(i: int)
    | JNum(r: real)
    | JStr(s: string)
    | JList(items: seq<Value>)
    | JObject(fields: seq<Entry<string, Value>>)

  /** The name of the Python type a decoded JSON value has, as error messages print it. */
  function TypeName(v: Value): (r: string)
    ensures r != ""
  {
    match v
    case JNull => "NoneType"
    case JBool(_) => "bool"
    case JInt(_) => "int"
    case JNum(_) => "float"
    case JStr(_) => "str"
    case JList(_) => "list"
    case JObject(_) => "dict"
  }

  /** `entry.get(key)` with JSON null read as Python None. */
  function Field(fields: seq<Entry<string, Value>>, key: string): (r: Option<Value>)
    ensures r.Some? ==> r.value != JNull
  {
    match LastFor(fields, key)
    case Some(v) => if v.JNull? then None else Some(v)
    case None => None
  }

  /** Python truthiness: null, false, zero and empty strings, lists and objects are false. */
  predicate Truthy(v: Value) {
    match v
    case JNull => false
    case JBool(b) => b
    case JInt(i) => i != 0
    case JNum(x) => x != 0.0
    case JStr(s) => s != ""
    case JList(xs) => xs != []
    case JObject(fs) => fs != []
  }

  /** JavaScript `typeof v === "number"` on a parsed JSON value: integers and decimals are
      both numbers, and the number is the value they write. */
  function NumberOf(v: Option<Value>): (r: Option<real>)
    ensures r.Some? <==> v.Some? && (v.value.JInt? || v.value.JNum?)
    ensures r.Some? && v.value.JInt? ==> r.value == v.value.i as real
    ensures r.Some? && v.value.JNum? ==> r.value == v.value.r
  {
    match v
    case Some(JInt(i)) => Some(i as real)
    case Some(JNum(x)) => Some(x)
    case _ => None
  }

  /** With distinct keys, a field reads the value stored under it (null reading as absent). */
  lemma FieldOfUnique(fields: seq<Entry<string, Value>>, i: int)
    requires KeysUnique(fields) && 0 <= i < |fields|
    ensures Field(fields, fields[i].key) == if fields[i].val.JNull? then None else Some(fields[i].val)
  {
    LastForUnique(fields, i);
  }
}

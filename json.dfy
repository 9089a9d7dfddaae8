/**
 * JSON values as the Python and JavaScript code sees them after decoding:
 * `None`/`null` is `JNull`, integers are unbounded, an object is a map from
 * keys to values. The JSON library itself (`json.loads`, `JSON.parse`) is not
 * modelled: it is an oracle passed in as a `Codec`.
 */
module Json {
  import opened Wrappers

  datatype JsonValue =
    | JNull
    | JBool(b: bool)
    | JNum(n: int)
    | JStr(s: string)
    | JArr(items: seq<JsonValue>)
    | JObj(fields: map<string, JsonValue>)

  /** A JSON decoder: `None` when decoding raises. */
  datatype Codec = Codec(loads: string -> Option<JsonValue>)

  /** Python truthiness of a decoded value (`bool(v)`). */
  predicate Truthy(v: JsonValue) {
    match v
    case JNull => false
    case JBool(b) => b
    case JNum(n) => n != 0
    case JStr(s) => s != ""
    case JArr(a) => a != []
    case JObj(m) => m != map[]
  }

  /** JavaScript truthiness: arrays and objects are truthy even when empty. */
  predicate JsTruthy(v: JsonValue) {
    match v
    case JNull => false
    case JBool(b) => b
    case JNum(n) => n != 0
    case JStr(s) => s != ""
    case JArr(_) => true
    case JObj(_) => true
  }

  /** `d.get(key)` on a Python dict: `None` for a missing key. */
  function Get(m: map<string, JsonValue>, key: string): (r: JsonValue)
    ensures key !in m ==> r == JNull
    ensures key in m ==> r == m[key]
  {
    if key in m then m[key] else JNull
  }

  /** Python's `a or b`: the first operand when it is truthy, else the second. */
  function Or(a: JsonValue, b: JsonValue): (r: JsonValue)
    ensures Truthy(r) <==> Truthy(a) || Truthy(b)
    ensures Truthy(a) ==> r == a
    ensures !Truthy(a) ==> r == b
  {
    if Truthy(a) then a else b
  }

  predicate IsDict(v: JsonValue) {
    v.JObj?
  }

  /**
   * Whether a Python `for item in v` loop can iterate over `v`: lists,
   * strings and dicts can; None, numbers and booleans raise a TypeError.
   */
  predicate Iterable(v: JsonValue) {
    v.JArr? || v.JStr? || v.JObj?
  }

  /**
   * The elements such a loop visits that can be dicts. A string yields its
   * characters and a dict its keys, none of which is a dict, so for a loop
   * that keeps only dict items those contribute nothing.
   */
  function DictCandidates(v: JsonValue): (r: seq<JsonValue>)
    ensures v.JArr? ==> r == v.items
    ensures !v.JArr? ==> r == []
  {
    if v.JArr? then v.items else []
  }
}

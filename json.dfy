/** Decoded JSON values, as `json.loads` hands them to the processor.
    Floating-point numbers are not modelled. */
module JsonValues {

  import opened Wrappers

  datatype Json =
    | JNull
    | JBool(b: bool)
    | JInt(i: int)
    | JStr(s: string)
    | JArr(elems: seq<Json>)
    | JObj(fields: map<string, Json>)

  /** The empty object `{}`, the default of every `.get(key, {})`. */
  const EmptyObject: Json := JObj(map[])

  /** Python's `d.get(key, default)`: the default stands in only for an
      ABSENT key; a key present with value null yields null. */
  function Get(d: map<string, Json>, key: string, default: Json): Json {
    if key in d then d[key] else default
  }

  /** Python truthiness of a decoded value (`if message.value:`):
      null, false, 0, "", [] and {} are false, everything else is true. */
  predicate Truthy(j: Json) {
    match j
    case JNull => false
    case JBool(b) => b
    case JInt(n) => n != 0
    case JStr(s) => s != ""
    case JArr(a) => a != []
    case JObj(m) => m != map[]
  }

  /** The integer Python computes with when `x + 1` is evaluated: an int
      is itself and a bool is 0 or 1 (bool is a subclass of int); for
      null, strings, arrays and objects `+ 1` raises TypeError (None). */
  function IntValue(j: Json): Option<int> {
    match j
    case JInt(n) => Some(n)
    case JBool(b) => Some(if b then 1 else 0)
    case _ => None
  }
}

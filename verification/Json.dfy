/** Parsed JSON, as validators meet it; a field that is absent reads as null. */
module Json {
  datatype Json =
    | Null
    | Bool(bit: bool)
    | Num(value: real)
    | Str(text: string)
    | Arr(items: seq<Json>)
    | Obj(fields: map<string, Json>)

  function Get(j: Json, key: string): Json {
    if j.Obj? && key in j.fields then j.fields[key] else Null
  }

  predicate IsInteger(j: Json) {
    j.Num? && j.value.Floor as real == j.value
  }

  const FORBIDDEN_KEYS: set<string> := {"__proto__", "constructor", "prototype"}

  /** A forbidden key anywhere in the structure.  A forbidden word as a value is no offence. */
  predicate Polluted(j: Json) {
    match j
    case Arr(items) => exists i :: 0 <= i < |items| && Polluted(items[i])
    case Obj(fields) => exists key | key in fields :: key in FORBIDDEN_KEYS || Polluted(fields[key])
    case _ => false
  }
}

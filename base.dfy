/** Values shared by every module: optional values and decoded JSON. */
module Base {
  datatype Option<T> = None | Some(value: T)
  {
    function GetOr(default: T): T {
      if Some? then value else default
    }
  }

  /** The outcome of an operation that can fail (a thrown error). */
  datatype Result<T, E> = Ok(value: T) | Err(error: E)

  /** A JSON value as the TypeScript code sees it after `JSON.parse` or a
      database read. Numbers are integers; of an object only its keys, in
      order, are kept. */
  datatype Json =
    | JNull
    | JBool(b: bool)
    | JNum(n: int)
    | JStr(s: string)
    | JArr(items: seq<Json>)
    | JObj(keys: seq<string>)

  /** JavaScript truthiness of a JSON value. */
  predicate Truthy(v: Json) {
    match v
    case JNull => false
    case JBool(b) => b
    case JNum(n) => n != 0
    case JStr(s) => s != ""
    case JArr(_) => true
    case JObj(_) => true
  }

  /** Python truthiness of the same value once `json.load` has read it:
      unlike JavaScript, an empty list and an empty dict are false. */
  predicate PyTruthy(v: Json) {
    match v
    case JNull => false
    case JBool(b) => b
    case JNum(n) => n != 0
    case JStr(s) => s != ""
    case JArr(items) => items != []
    case JObj(keys) => keys != []
  }

  /** The two truthiness rules disagree exactly on an empty list and an
      empty object. */
  lemma TruthinessDiffers(v: Json)
    ensures Truthy(v) != PyTruthy(v) <==> v == JArr([]) || v == JObj([])
  {
  }

  /** The string elements of a JSON array, in order (the TypeScript idiom
      `arr.filter((h) => typeof h === "string")`). */
  function Strings(items: seq<Json>): (r: seq<string>)
    ensures |r| <= |items|
    ensures forall s :: s in r <==> JStr(s) in items
  {
    if items == [] then []
    else if items[0].JStr? then [items[0].s] + Strings(items[1..])
    else Strings(items[1..])
  }
}

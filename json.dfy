/** The values that travel through the relay, as Python objects that
    `json.dumps` either accepts or refuses. */
module Json {

  /** A Python value held in an action or an observation. `Opaque` stands for
      an object that `json.dumps` refuses with a TypeError (a camera frame, an
      SDK handle); `id` only tells such objects apart. Python tuples and lists
      are both `Array`. */
  datatype Value =
    | Null
    | Bool(b: bool)
    | Int(i: int)
    | Float(x: real)
    | Str(s: string)
    | Array(items: seq<Value>)
    | Opaque(id: nat)

  /** `json.dumps(v)` succeeds. */
  predicate Serializable(v: Value)
    decreases v
  {
    match v
    case Opaque(_) => false
    case Array(items) => forall i :: 0 <= i < |items| ==> Serializable(items[i])
    case _ => true
  }

  /** A dictionary with string keys: an action, an observation, an SDK status. */
  type Fields = map<string, Value>

  /** The top-level result of `json.loads` on a command: a JSON object becomes
      a dictionary; any other JSON text becomes a plain value. */
  datatype Document = Object(fields: Fields) | NonObject(value: Value)
}

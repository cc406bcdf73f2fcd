/** Shared vocabulary: optional values, results that carry the source's exceptions, and JSON-shaped values. */
module Prelude {

  datatype Option<+T> = None | Some(value: T)

  datatype Result<+T, +E> = Ok(value: T) | Err(error: E)

  /** A JSON-shaped value. `Text.parsed` is the number the text denotes, if it denotes one:
      parsing itself is not modelled, only who asks for a number and gets one. */
  datatype Value =
    | Null
    | Num(number: real)
    | Text(text: string, parsed: Option<real>)
    | List(items: seq<Value>)
    | Record(fields: map<string, Value>)

  /** `_number`: the value as a float, or None. */
  function Number(v: Value): Option<real> {
    match v
    case Num(r) => Some(r)
    case Text(_, parsed) => parsed
    case _ => None
  }

  function NumberValue(n: Option<real>): Value {
    match n
    case None => Null
    case Some(r) => Num(r)
  }

  function Plain(s: string): Value {
    Text(s, None)
  }
}

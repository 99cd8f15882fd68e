/** The loosely typed values a request handler receives from the JSON body parser. */
module Json {

  /** A decoded JSON value. Numbers with a fraction are kept as their literal text:
      nothing in the store computes with them. */
  datatype Value =
    | Null
    | Bool(b: bool)
    | Int(i: int)
    | Float(literal: string)
    | Str(s: string)
    | Array(items: seq<Value>)
    | Object(fields: map<string, Value>)

  /** An optional value; `None` stands for a missing or `null` request body. */
  datatype Option<+T> = None | Some(value: T)

  /** Truthiness of a JSON object in the host language: an object is false exactly when it has no keys. */
  predicate ObjectIsTruthy(obj: map<string, Value>) {
    obj != map[]
  }
}

/** Values shared by the request handlers: optional values, and JSON request bodies
    reduced to the distinctions the handlers actually make (`typeof` tests and
    JavaScript truthiness). */
module Common {

  /** A value that may be absent: `null`/`undefined` in the source. */
  datatype Option<+T> = None | Some(value: T)

  /** One JSON value read out of a request body. */
  datatype JsValue =
    | Undefined            // the property is missing
    | Null                 // the JSON literal null
    | Str(s: string)       // a JSON string
    | Other(truthy: bool)  // a number, boolean, array or object, with its truthiness

  /** JavaScript truthiness of a JSON value. */
  predicate Truthy(v: JsValue) {
    match v
    case Undefined => false
    case Null => false
    case Str(s) => s != ""
    case Other(t) => t
  }

  /** What `await request.json()` produces. */
  datatype JsonBody =
    | Unparsable                          // the promise rejects: not JSON at all
    | NullBody                            // the JSON literal null: reading a property throws
    | NonObject                           // a string, number, boolean or array: every property is undefined
    | Object(fields: map<string, JsValue>)
  {
    /** Reading a property (`body.x`, or destructuring `{ x } = body`) does not throw. */
    predicate Readable() {
      NonObject? || Object?
    }

    /** The value of property `key`, `undefined` when it is missing. */
    function Prop(key: string): JsValue
      requires Readable()
    {
      if Object? && key in fields then fields[key] else Undefined
    }
  }
}

/**
 * Request bodies and JSON replies shared by the three stand-alone chat
 * servers: a parsed JSON value, the truthiness rules of Python and of
 * JavaScript, and the shapes of the reply bodies they write.
 */
module HttpJson {

  /** A parsed JSON value; numbers are whole numbers in this model. */
  datatype Json = Null | Bool(b: bool) | Num(n: int) | Str(s: string) | Arr(items: seq<Json>) | Obj(fields: map<string, Json>)

  /** Python's `bool(v)` for the value `json.loads` gives. */
  predicate PyTruthy(v: Json) {
    match v
    case Null => false
    case Bool(b) => b
    case Num(n) => n != 0
    case Str(s) => s != ""
    case Arr(items) => items != []
    case Obj(fields) => |fields| != 0
  }

  /** JavaScript truthiness; an absent property is `undefined`. Arrays and objects are always truthy. */
  predicate JsTruthy(v: Json) {
    match v
    case Null => false
    case Bool(b) => b
    case Num(n) => n != 0
    case Str(s) => s != ""
    case Arr(_) => true
    case Obj(_) => true
  }

  /** Why a handler raised: the exception text itself is not modelled. */
  datatype Fault =
    | NotJson        // the body did not parse as JSON (or was not UTF-8)
    | NotAnObject    // `data.get` on a parsed value that is not a dict
    | MessageNotText // `.lower()` / `.toLowerCase()` on a message that is not a string

  /** A reply body. */
  datatype Payload =
    | ErrorPayload(error: string)                                       // {"error": ...}
    | ExceptionPayload(fault: Fault)                                    // {"error": str(e)}
    | InternalPayload(error: string, fault: Fault)                      // {error, details}
    | ChatPayload(success: bool, context: string, originalMessage: string)
    | HealthPayload(status: string, timestamp: string)
    | RunningPayload(message: string)
    | NoPayload

  datatype Response = Response(status: int, payload: Payload)

  const MessageRequired := "Message is required"
}

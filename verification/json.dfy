/** An optional value, for Python's `None`-or-something. */
module Optional {
  datatype Option<+T> = None | Some(value: T) {
    /** `x or default` when only `None` is falsy. */
    function GetOr(default: T): (r: T)
      ensures Some? ==> r == value
      ensures None? ==> r == default
    {
      match this
      case Some(v) => v
      case None => default
    }
  }
}

/**
  A decoded JSON document as the agent sees it through `dict.get`. The decoder
  itself (`json.loads`) is an oracle: it is a parameter of the agent model of
  type `string -> Parsed`.
 */
module Json {

  /** What `data.get(key)` returns. A missing key and a JSON `null` both come
      back as Python's `None`, so they are one case. A string keeps its text.
      Every other JSON value (number, boolean, array, object) is kept only
      through what the agent does with it: its rendering inside an f-string
      and its truthiness. */
  datatype Value =
    | Null
    | Str(text: string)
    | NonString(shown: string, truthy: bool)

  /** The outcome of `json.loads` on a completion. `Malformed` is the
      `JSONDecodeError` the agent catches. `NotAnObject` is a valid document
      whose top level is not an object (an array, a number, a string, `true`,
      `false` or `null`): calling `.get` on it raises. */
  datatype Parsed =
    | Object(fields: map<string, Value>)
    | Malformed
    | NotAnObject

  /** `data.get(key)` on a decoded object. */
  function Get(fields: map<string, Value>, key: string): (v: Value)
    ensures key !in fields ==> v == Null
    ensures key in fields ==> v == fields[key]
  {
    if key in fields then fields[key] else Null
  }

  /** Python truthiness of a looked-up value. */
  predicate Truthy(v: Value) {
    match v
    case Null => false
    case Str(t) => t != ""
    case NonString(_, b) => b
  }

  /** The text an f-string substitutes for the value. */
  function Show(v: Value): string {
    match v
    case Null => "None"
    case Str(t) => t
    case NonString(shown, _) => shown
  }
}

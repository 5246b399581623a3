/** Values shared by every part of the model: Python-style outcomes (a value or the exception
    that was raised), bytes, and the JSON-like values that the web services return and that
    QGIS feature attributes hold. */
module Common {

  /** One octet of a Python `bytes` object. */
  newtype byte = x: int | 0 <= x < 256

  datatype Option<+T> = None | Some(value: T)

  /** The exceptions the modelled code can raise, by kind. */
  datatype Error =
    | KeyError(key: string)              // dict lookup of a missing key
    | IndexError                         // sequence index out of range
    | TypeError(operation: string)       // operation applied to a value of the wrong type
    | ValueError(message: string)        // `raise ValueError(...)`
    | NameError(name: string)            // reference to an undefined variable
    | UnboundLocal(name: string)         // read of a local variable never assigned
    | UnicodeDecodeError                 // strict UTF-8 / ASCII decoding failed
    | ZeroDivisionError                  // float division or floor division by zero
    | LookupFailed(id: string)           // "Failed to lookup object with id ..."
    | UnexpectedStatus(code: int)        // "Unexpected response from HTTP GET ..."
    | Foreign(message: string)           // raised inside a call the model treats as opaque
    | Wrapped(tool: string, inner: Error) // QgsProcessingException wrapping any of the above

  /** The outcome of a Python call: its return value, or the exception it raised. */
  datatype Result<+T> = Ok(value: T) | Err(error: Error) {
    predicate IsFailure() { Err? }
    function PropagateFailure<U>(): Result<U>
      requires Err?
    {
      Err(error)
    }
    function Extract(): T
      requires Ok?
    {
      value
    }
  }

  /** A value decoded by `json.loads`, and also a QGIS attribute value (QVariant). */
  datatype Json =
    | JNull
    | JBool(b: bool)
    | JInt(i: int)
    | JFloat(f: real)
    | JStr(s: string)
    | JArr(items: seq<Json>)
    | JObj(entries: map<string, Json>)

  /** Python `j[k]` for a string key. */
  function Key(j: Json, k: string): (r: Result<Json>)
    ensures r.Ok? <==> j.JObj? && k in j.entries
    ensures r.Ok? ==> r.value == j.entries[k]
  {
    match j
    case JObj(m) => if k in m then Ok(m[k]) else Err(KeyError(k))
    case _ => Err(TypeError("subscript"))
  }

  /** Python `j[0]`: a list's first item, a string's first character; a dict has no key 0. */
  function First(j: Json): (r: Result<Json>)
    ensures j.JArr? && |j.items| > 0 ==> r == Ok(j.items[0])
    ensures r.Ok? ==> j.JArr? || j.JStr?
  {
    match j
    case JArr(a) => if |a| > 0 then Ok(a[0]) else Err(IndexError)
    case JStr(s) => if |s| > 0 then Ok(JStr([s[0]])) else Err(IndexError)
    case JObj(_) => Err(KeyError("0"))
    case _ => Err(TypeError("subscript"))
  }

  /** A value that must be a `str` (for `quote`, `QgsGeometry.fromWkt`): its text, or a
      `TypeError`. */
  function AsString(j: Json): (r: Result<string>)
    ensures r.Ok? <==> j.JStr?
    ensures r.Ok? ==> r.value == j.s
  {
    if j.JStr? then Ok(j.s) else Err(TypeError("expected str"))
  }

  /** Python `len(j)`. */
  function Len(j: Json): (r: Result<nat>)
    ensures j.JArr? ==> r == Ok(|j.items|)
  {
    match j
    case JArr(a) => Ok(|a|)
    case JObj(m) => Ok(|m|)
    case JStr(s) => Ok(|s|)
    case _ => Err(TypeError("len"))
  }

  /** The number a value stands for in a Python comparison with a float (`bool` is an `int`). */
  function AsNumber(j: Json): (r: Result<real>)
    ensures r.Ok? <==> j.JInt? || j.JFloat? || j.JBool?
  {
    match j
    case JInt(i) => Ok(i as real)
    case JFloat(f) => Ok(f)
    case JBool(b) => Ok(if b then 1.0 else 0.0)
    case _ => Err(TypeError("comparison with float"))
  }

  /** Python `j == 1`. */
  predicate EqualsOne(j: Json) {
    j == JInt(1) || j == JFloat(1.0) || j == JBool(true)
  }
}

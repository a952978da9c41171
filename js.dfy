/**
 * The part of JavaScript's value model that the library relies on:
 * the exceptions it can raise, a completion (normal result or thrown
 * error), values with their truthiness, and property reads.
 */
module Js {

  /** The error objects the modelled code can throw or reject with. */
  datatype JsError =
    | URIError          // malformed percent escape (decodeURI, decodeURIComponent)
    | SyntaxError       // JSON.parse on text that is not JSON
    | ReferenceError(name: string)  // read of an identifier with no binding
    | TypeError         // property access on undefined or null, call of a non-function
    | Rejected(reason: Value)       // a promise from the host (fetch, res.json()) rejected
    | Error(message: string)        // `new Error(message)` thrown by the library itself

  /** A completion: either a normal value or a thrown error. */
  datatype Result<+T> = Ok(value: T) | Err(error: JsError) {
    predicate IsFailure() { Err? }
    function PropagateFailure<U>(): Result<U>
      requires Err?
    {
      Err(error)
    }
    function Extract(): T
      requires Ok?
    {
      value
    }
  }

  datatype Option<+T> = None | Some(value: T)

  /**
   * JavaScript values as far as the library observes them. Numbers are
   * reals plus NaN; an object is its own enumerable properties; a
   * function value is opaque.
   */
  datatype Value =
    | Undefined
    | Null
    | Bool(b: bool)
    | Number(x: real)
    | NaN
    | Str(s: string)
    | Object(props: map<string, Value>)
    | Function

  /** ToBoolean: the falsy values are undefined, null, false, 0, NaN and "". */
  predicate Truthy(v: Value) {
    match v
    case Undefined => false
    case Null => false
    case Bool(b) => b
    case Number(x) => x != 0.0
    case NaN => false
    case Str(s) => s != ""
    case Object(_) => true
    case Function => true
  }

  /** `v || w` */
  function Or(v: Value, w: Value): (r: Value)
    ensures Truthy(v) ==> r == v
    ensures !Truthy(v) ==> r == w
  {
    if Truthy(v) then v else w
  }

  /** A default parameter `x = d`: only undefined is replaced. */
  function Default(v: Value, d: Value): (r: Value)
    ensures v.Undefined? ==> r == d
    ensures !v.Undefined? ==> r == v
  {
    if v.Undefined? then d else v
  }

  /** `typeof v === "string"` */
  predicate IsString(v: Value) {
    v.Str?
  }

  /**
   * Reading `v[name]`: undefined and null throw TypeError, an object
   * yields its own property or undefined, and no other value reached by
   * the library carries a property of interest.
   */
  function GetProp(v: Value, name: string): (r: Result<Value>)
    ensures r.Err? <==> v.Undefined? || v.Null?
    ensures r.Err? ==> r.error == TypeError
    ensures v.Object? && name in v.props ==> r == Ok(v.props[name])
    ensures v.Object? && name !in v.props ==> r == Ok(Undefined)
  {
    match v
    case Undefined => Err(TypeError)
    case Null => Err(TypeError)
    case Object(props) => Ok(if name in props then props[name] else Undefined)
    case _ => Ok(Undefined)
  }

  /** Reading a property of a record held as a map: absent means undefined. */
  function Lookup(m: map<string, Value>, name: string): (r: Value)
    ensures name in m ==> r == m[name]
    ensures name !in m ==> r == Undefined
  {
    if name in m then m[name] else Undefined
  }
}

/**
 * The JavaScript runtime values that the mapper reads from a source object
 * and writes onto a destination instance, with the two runtime operations
 * the mapper relies on: `typeof` and reading a property.
 */
module JsValues {

  datatype Option<+T> = None | Some(value: T)

  /** The failures the mapping core can raise; in the program they are thrown TypeErrors. */
  datatype Error =
    | ReadOfNullish(property: string)  // reading a property of `undefined` or `null`
    | Redefine(property: string)       // `Object.defineProperty` on a property already defined with another value

  datatype Result<+T> = Ok(value: T) | Err(error: Error)

  /**
   * A runtime value. `Obj` is a plain object (an object literal or what
   * `JSON.parse` returns); `Instance` is an object made by `new Cls()`, with
   * its own properties; `Date` is the opaque result of `new Date(arg)`.
   */
  datatype Value =
    | Undefined
    | Null
    | Bool(b: bool)
    | Num(n: int)
    | Str(s: string)
    | Obj(props: map<string, Value>)
    | Instance(cls: string, props: map<string, Value>)
    | Date(arg: Value)

  predicate IsNullish(v: Value) {
    v.Undefined? || v.Null?
  }

  /** An object whose own properties the model tracks. */
  predicate IsObjectWithProps(v: Value) {
    v.Obj? || v.Instance?
  }

  /** The result of the `typeof` operator on a non-function value (`typeof null` is "object"). */
  function TypeOf(v: Value): string {
    match v
    case Undefined => "undefined"
    case Bool(_) => "boolean"
    case Num(_) => "number"
    case Str(_) => "string"
    case _ => "object"
  }

  /**
   * `v[name]`: throws on `undefined` and `null`, yields the own property of an
   * object when it has one, and `undefined` otherwise.
   */
  function GetProperty(v: Value, name: string): (r: Result<Value>)
    ensures r.Err? <==> IsNullish(v)
    ensures r.Err? ==> r.error == ReadOfNullish(name)
    ensures r.Ok? && !r.value.Undefined? ==>
              IsObjectWithProps(v) && name in v.props && r.value == v.props[name]
    ensures IsObjectWithProps(v) && name in v.props ==> r == Ok(v.props[name])
  {
    match v
    case Undefined => Err(ReadOfNullish(name))
    case Null => Err(ReadOfNullish(name))
    case Obj(p) => if name in p then Ok(p[name]) else Ok(Undefined)
    case Instance(_, p) => if name in p then Ok(p[name]) else Ok(Undefined)
    case _ => Ok(Undefined)
  }
}

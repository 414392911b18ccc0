/**
 * The JavaScript values the engine stores and passes around. Functions are
 * opaque: a user function is known by an id, and the engine itself makes two
 * kinds of callable, the adapters of `createParamFn` and the empty default
 * `function() {}` that `readColors` uses for an empty statement.
 */
module Js {
  import opened Codec

  datatype Callable =
    | UserFn(id: nat)                           // a function the client supplied
    | ParamAdapter(fn: nat, g: Byte, b: Byte)   // `() => { fn(g, b) }` made by createParamFn
    | NoOp                                      // `function() {}`

  datatype JsValue =
    | Undefined
    | Null
    | Bool(bit: bool)
    | Num(n: int)
    | NaN
    | Str(s: string)
    | Object(id: nat)
    | Function(f: Callable)

  /** JavaScript truthiness, as tested by `!binding` and by `||`. */
  predicate Truthy(v: JsValue) {
    match v
    case Undefined => false
    case Null => false
    case Bool(bit) => bit
    case Num(n) => n != 0
    case NaN => false
    case Str(s) => s != ""
    case Object(_) => true
    case Function(_) => true
  }
}

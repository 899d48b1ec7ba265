/**
 * The JavaScript values the convention layer handles: request fields,
 * result descriptors, registry entries and thrown errors.
 */
module Js {

  datatype Option<+T> = None | Some(value: T)

  /** The functions the layer itself defines; any function of user code is `User(id)`. */
  datatype Fn =
    // the built-in result constructors
    | MakeView | MakeRedirect | MakeEmpty | MakeJson | MakeStream
    // the built-in result handlers
    | OnView | OnRedirect | OnJson | OnException | OnEmpty | OnStream | OnUndefined
    // a function supplied by the application
    | User(id: nat)

  /**
   * A JavaScript value. Numbers are integers; `Obj` is a plain object with its
   * own enumerable properties; `Host` is an object the host supplies (a stream,
   * a library namespace) whose properties the layer never reads.
   */
  datatype Value =
    | Undefined
    | Null
    | Bool(b: bool)
    | Num(n: int)
    | Str(s: string)
    | Obj(fields: map<string, Value>)
    | Host(id: nat)
    | Fun(fn: Fn)

  /** JavaScript truthiness: `undefined`, `null`, `false`, `0` and `""` are falsy. */
  predicate Truthy(v: Value) {
    match v
    case Undefined => false
    case Null => false
    case Bool(b) => b
    case Num(n) => n != 0
    case Str(s) => s != ""
    case _ => true
  }

  /** Reading property `key` of an object value; a missing property reads as `undefined`. */
  function Prop(v: Value, key: string): Value {
    if v.Obj? && key in v.fields then v.fields[key] else Undefined
  }

  const EmptyObject: Value := Obj(map[])

  function Digit(d: nat): char
    requires d < 10
  {
    "0123456789"[d]
  }

  function NatToDecimal(n: nat): string
    decreases n
  {
    if n < 10 then [Digit(n)] else NatToDecimal(n / 10) + [Digit(n % 10)]
  }

  /** The property name a value is converted to when it is used as an index `t[v]`. */
  function PropertyKey(v: Value): string {
    match v
    case Undefined => "undefined"
    case Null => "null"
    case Bool(b) => if b then "true" else "false"
    case Num(n) => if n < 0 then "-" + NatToDecimal(-n) else NatToDecimal(n)
    case Str(s) => s
    case _ => "[object Object]"
  }

  /** An `Error` (or `TypeError`) object with the given message. */
  function ErrorObject(name: string, message: string): Value {
    Obj(map["name" := Str(name), "message" := Str(message)])
  }

  /** The TypeError the engine throws on calling a non-function or reading a property of `undefined`. */
  const TypeError: Value := ErrorObject("TypeError", "")
}

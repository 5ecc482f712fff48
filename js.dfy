/**
 * The few JavaScript runtime notions the pipeline relies on: the shape of a
 * value, truthiness, the `||` operator and the own enumerable properties that
 * object destructuring copies.
 */
module Js {

  /**
   * A JavaScript value. Numbers are integers. `Obj` carries its own
   * enumerable properties and whether its constructor is `Object` (a plain
   * object literal); `Func` is any callable.
   */
  datatype JsValue =
    | Undefined
    | Null
    | Bool(b: bool)
    | Num(n: int)
    | Str(s: string)
    | Arr(items: seq<JsValue>)
    | Obj(fields: map<string, JsValue>, plain: bool)
    | Func

  /** JavaScript truthiness: undefined, null, false, 0 and "" are falsy. */
  predicate Truthy(v: JsValue) {
    match v
    case Undefined => false
    case Null => false
    case Bool(b) => b
    case Num(n) => n != 0
    case Str(s) => s != ""
    case _ => true
  }

  /** `a || b`: the left operand when it is truthy, else the right one. */
  function Or(a: JsValue, b: JsValue): (r: JsValue)
    ensures r == a || r == b
    ensures Truthy(a) ==> r == a
    ensures !Truthy(a) ==> r == b
  {
    if Truthy(a) then a else b
  }

  /** The properties a destructuring pattern reads from a value. */
  function OwnProps(v: JsValue): map<string, JsValue> {
    if v.Obj? then v.fields else map[]
  }

  /** Property lookup: a missing key reads as undefined. */
  function Get(props: map<string, JsValue>, key: string): (r: JsValue)
    ensures key !in props ==> r == Undefined
  {
    if key in props then props[key] else Undefined
  }
}

/**
 * The JavaScript values that reach the plugin: plugin options, the field
 * values of source records and the `path` argument of a field extension.
 */
module JsValue {

  /**
   * A JavaScript value as far as the plugin inspects it. Numbers are
   * integers here (NaN and fractions are not modelled). `Obj` lists an
   * object's own enumerable string-keyed properties in the order
   * `Object.entries` yields them. `Func` stands for every other kind of
   * value (functions, symbols), which the plugin treats like a number.
   */
  datatype Value =
    | Undefined
    | Null
    | Bool(b: bool)
    | Num(n: int)
    | Str(s: string)
    | Arr(elems: seq<Value>)
    | Obj(entries: seq<(string, Value)>)
    | Func

  /** JavaScript truthiness: `undefined`, `null`, `false`, `0` and `""` are falsy. */
  predicate Truthy(v: Value) {
    match v
    case Undefined => false
    case Null => false
    case Bool(b) => b
    case Num(n) => n != 0
    case Str(s) => s != ""
    case _ => true
  }
}

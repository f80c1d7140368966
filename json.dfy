/** JSON-like JavaScript values, as far as the core inspects them: `typeof`,
    truthiness and own-property lookup. */
module Json {

  /** A JavaScript value. Arrays and other objects are `Obj` with their own
      enumerable properties keyed by strings. */
  datatype JsValue =
    | Undefined
    | Null
    | Bool(b: bool)
    | Num(n: real)
    | Str(s: string)
    | Obj(props: map<string, JsValue>)

  /** `!!v`: `undefined`, `null`, `false`, `0` and `''` are falsy; everything else is truthy. */
  predicate Truthy(v: JsValue) {
    match v
    case Undefined => false
    case Null => false
    case Bool(b) => b
    case Num(n) => n != 0.0
    case Str(s) => s != []
    case Obj(_) => true
  }

  /** `v && typeof v === 'object'`: a non-null object. */
  predicate IsObject(v: JsValue) {
    Truthy(v) && (v.Obj? || v.Null?)
  }

  /** `o[key]` on an object's own properties: `undefined` when the key is missing. */
  function Get(props: map<string, JsValue>, key: string): (v: JsValue)
    ensures key !in props ==> v == Undefined
  {
    if key in props then props[key] else Undefined
  }
}

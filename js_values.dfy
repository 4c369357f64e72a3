/** JavaScript values as the configuration, the logger options and the cache wire messages
    see them. Numbers are integers. An array is an object whose keys are its indices, so
    `typeof` answers "object" for arrays, for `null` and for plain objects alike. */
module JsValues {

  datatype Value =
    | Undefined
    | Null
    | Bool(b: bool)
    | Num(n: int)
    | Str(s: string)
    | Obj(props: map<string, Value>)

  /** The answer of the `typeof` operator. */
  function TypeOf(v: Value): string
  {
    match v
    case Undefined => "undefined"
    case Null => "object"
    case Bool(_) => "boolean"
    case Num(_) => "number"
    case Str(_) => "string"
    case Obj(_) => "object"
  }

  /** JavaScript truthiness: `undefined`, `null`, `false`, `0` and `""` are falsy. */
  predicate Truthy(v: Value)
  {
    match v
    case Undefined => false
    case Null => false
    case Bool(b) => b
    case Num(n) => n != 0
    case Str(s) => s != ""
    case Obj(_) => true
  }

  /** `v[key]` for a value that is not `null` or `undefined`; the properties that strings,
      numbers and booleans inherit from their prototypes are not modelled. */
  function Prop(v: Value, key: string): Value
  {
    if v.Obj? && key in v.props then v.props[key] else Undefined
  }

  lemma TruthyObjectIsObj(v: Value)
    ensures Truthy(v) && TypeOf(v) == "object" <==> v.Obj?
  {
  }
}

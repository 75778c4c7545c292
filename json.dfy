/** Values as JSON.parse produces them, plus `Undefined`, which is what a missing
    property reads as. Numbers are kept as integers: only whether a number is zero
    matters to the task store (it decides whether an imported id is kept). */
module Json {

  datatype Value =
    | Undefined
    | Null
    | Bool(b: bool)
    | Num(n: int)
    | Str(s: string)
    | Arr(items: seq<Value>)
    | Obj(fields: map<string, Value>)

  /** Property access `v.key`: a missing property, or any property of a value that
      is not an object, reads as Undefined. */
  function Get(v: Value, key: string): (r: Value)
    ensures r != Undefined ==> v.Obj? && key in v.fields && v.fields[key] == r
    ensures v.Obj? && key in v.fields ==> r == v.fields[key]
  {
    if v.Obj? && key in v.fields then v.fields[key] else Undefined
  }

  /** JavaScript truthiness: what `if (v)` and `!v` test. */
  predicate Truthy(v: Value): (b: bool)
    ensures v.Undefined? || v.Null? ==> !b
    ensures v.Arr? || v.Obj? ==> b
    ensures v.Str? ==> (b <==> |v.s| > 0)
    ensures v.Bool? ==> b == v.b
    ensures v.Num? ==> (b <==> v.n != 0)
  {
    match v
    case Undefined => false
    case Null => false
    case Bool(b) => b
    case Num(n) => n != 0
    case Str(s) => s != ""
    case Arr(_) => true
    case Obj(_) => true
  }
}

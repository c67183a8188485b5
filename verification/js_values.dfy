/** The dynamically typed values a stored document field can hold, and the two
    JavaScript defaulting operators the aggregator applies to them. */
module JsValues {

  /** A field value as JavaScript sees it after reading a document. `Undefined` is
      what reading a missing field yields. Numbers are modelled as integers. */
  datatype Value =
    | Undefined
    | Null
    | Bool(b: bool)
    | Num(n: int)
    | Str(s: string)
    | Arr(elems: seq<Value>)
    | Obj(fields: map<string, Value>)

  /** JavaScript's ToBoolean: undefined, null, false, 0 and "" are falsy;
      every other value, empty arrays and objects included, is truthy. */
  predicate Truthy(v: Value) {
    match v
    case Undefined => false
    case Null => false
    case Bool(b) => b
    case Num(n) => n != 0
    case Str(s) => s != ""
    case Arr(_) => true
    case Obj(_) => true
  }

  /** The values `??` replaces: null and undefined, and nothing else. */
  predicate Nullish(v: Value) {
    v.Undefined? || v.Null?
  }

  /** `v || fallback`: keeps `v` when it is truthy. */
  function OrElse(v: Value, fallback: Value): (r: Value)
    ensures Truthy(v) ==> r == v
    ensures !Truthy(v) ==> r == fallback
    ensures Truthy(r) <==> Truthy(v) || Truthy(fallback)
  {
    if Truthy(v) then v else fallback
  }

  /** `v ?? fallback`: keeps `v` unless it is null or undefined. */
  function NullishOr(v: Value, fallback: Value): (r: Value)
    ensures !Nullish(v) ==> r == v
    ensures Nullish(v) ==> r == fallback
    ensures Nullish(r) <==> Nullish(v) && Nullish(fallback)
  {
    if Nullish(v) then fallback else v
  }

  /** Every falsy value is replaced by `||` but only the nullish ones by `??`:
      the two operators differ exactly on false, 0 and "". */
  lemma OrElseAndNullishOrDiffer(v: Value, fallback: Value)
    requires v != fallback
    ensures OrElse(v, fallback) != NullishOr(v, fallback)
        <==> !Truthy(v) && !Nullish(v)
    ensures !Truthy(v) && !Nullish(v) <==> v == Bool(false) || v == Num(0) || v == Str("")
  {
  }
}

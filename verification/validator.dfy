/** Value checks. */
module Validator {
  import opened Json

  /** isEmpty: null, undefined, '', an empty array and an object with no own enumerable
      keys are empty; a FormData object has none and is always empty. */
  function IsEmpty(v: Value): (r: bool)
    ensures r <==> match v
      case Undefined => true
      case Null => true
      case Bool(_) => false
      case Num(_) => false
      case Str(s) => s == []
      case Arr(xs) => xs == []
      case Obj(ps) => ps == []
      case Form => true
  {
    if v == Null || v == Undefined || v == Str("") then true
    else if v.Arr? && |v.items| == 0 then true
    else if IsObjectType(v) && |OwnProps(v)| == 0 then true
    else false
  }

  /** Emptiness is not falsiness: `0` and `false` are not empty, `[]`, `{}` and FormData
      are empty but truthy; the values blank to the request pipeline are empty. */
  lemma EmptyIsNotFalsy(v: Value)
    ensures v == Num(0) || v == Bool(false) ==> !IsEmpty(v) && !Truthy(v)
    ensures v == Arr([]) || v == Obj([]) || v == Form ==> IsEmpty(v) && Truthy(v)
    ensures IsBlank(v) ==> IsEmpty(v)
    ensures !v.Arr? && !v.Obj? && !v.Form? ==> (IsEmpty(v) <==> IsBlank(v))
  {
  }
}

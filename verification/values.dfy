/** Small value types shared by every module of the storefront model.

    - Option<T> stands for a TypeScript optional field (`x?: T`) or a nullable
      state (`T | null`).
    - Number stands for a JavaScript number restricted to whole values: either a
      finite integer or NaN, which is what `parseFloat` yields on a string that is
      not a number and what every arithmetic operation with a NaN operand yields.
 */
module Values {

  datatype Option<+T> = None | Some(value: T) {

    /** The value, or `default` when absent: TypeScript's `x || default` for a
        field whose present values are never falsy. */
    function GetOr(default: T): T {
      match this
      case Some(v) => v
      case None => default
    }
  }

  /** An optional field `o` overwritten by the spread of a partial record that
      may or may not carry the same key `patch`. */
  function Override<T>(patch: Option<T>, current: T): (r: T)
    ensures patch.Some? ==> r == patch.value
    ensures patch.None? ==> r == current
  {
    patch.GetOr(current)
  }

  datatype Number = Finite(value: int) | NaN

  /** JavaScript `a + b` on numbers. */
  function Plus(a: Number, b: Number): (r: Number)
    ensures r.Finite? <==> a.Finite? && b.Finite?
    ensures r.Finite? ==> r.value == a.value + b.value
  {
    if a.Finite? && b.Finite? then Finite(a.value + b.value) else NaN
  }

  /** JavaScript `a * b` on numbers. */
  function Times(a: Number, b: Number): (r: Number)
    ensures r.Finite? <==> a.Finite? && b.Finite?
    ensures r.Finite? ==> r.value == a.value * b.value
  {
    if a.Finite? && b.Finite? then Finite(a.value * b.value) else NaN
  }

  /** JavaScript `Number(x) || 0` on a field that is absent (`undefined`,
      modelled by None) or holds a number: undefined and NaN become 0, and so
      does 0 itself, which changes nothing. */
  function NumberOrZero(x: Option<int>): (r: int)
    ensures x.None? ==> r == 0
    ensures x.Some? ==> r == x.value
  {
    match x
    case Some(v) => v
    case None => 0
  }

  /** The same for a fractional field such as a rating. */
  function RealOrZero(x: Option<real>): (r: real)
    ensures x.None? ==> r == 0.0
    ensures x.Some? ==> r == x.value
  {
    match x
    case Some(v) => v
    case None => 0.0
  }

  /** A string-valued field `x || ''`: absent becomes the empty string. */
  function StringOrEmpty(x: Option<string>): (r: string)
    ensures x.None? ==> r == ""
    ensures x.Some? ==> r == x.value
  {
    x.GetOr("")
  }

  /** A string is falsy in JavaScript exactly when it is absent or empty. */
  predicate Filled(x: Option<string>) {
    x.Some? && x.value != ""
  }
}

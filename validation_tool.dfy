/**
 * The two range guards of the utility module: each throws a RangeError when a
 * defined number lies outside its bound, and accepts an undefined one.
 * `undefined` is `None`; the thrown error is `RangeError`.
 */
module ValidationTool {
  import opened Wrappers

  datatype Outcome = Pass | RangeError

  /** `atLeast(num, min)`: throws when `num` is defined and below `min`. */
  function AtLeast(num: Option<int>, min: int): (r: Outcome)
    ensures num.None? ==> r == Pass
    ensures num.Some? ==> (r == RangeError <==> num.value < min)
  {
    if num.Some? && num.value < min then RangeError else Pass
  }

  /** `atMost(num, max)`: throws when `num` is defined and above `max`. */
  function AtMost(num: Option<int>, max: int): (r: Outcome)
    ensures num.None? ==> r == Pass
    ensures num.Some? ==> (r == RangeError <==> num.value > max)
  {
    if num.Some? && num.value > max then RangeError else Pass
  }

  /** The bounds themselves are accepted: both guards are inclusive. */
  lemma BoundsAreInclusive(bound: int)
    ensures AtLeast(Some(bound), bound) == Pass
    ensures AtMost(Some(bound), bound) == Pass
    ensures AtLeast(Some(bound - 1), bound) == RangeError
    ensures AtMost(Some(bound + 1), bound) == RangeError
  {
  }

  /** A defined number passes both guards exactly when it lies in `[min, max]`. */
  lemma BothGuardsIffInRange(num: int, min: int, max: int)
    ensures (AtLeast(Some(num), min) == Pass && AtMost(Some(num), max) == Pass)
            <==> min <= num <= max
  {
  }
}

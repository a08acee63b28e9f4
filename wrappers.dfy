/** The model's stand-ins for JavaScript's `null`, `NaN` and the `||` default idiom. */
module Wrappers {

  /** `None` plays `null` (no winner, no game, no target) and the `NaN` of a failed `parseInt`. */
  datatype Option<+T> = None | Some(value: T)

  /** `v || d` for a number that may be `NaN`: both falsy numbers, 0 and `NaN`, give `d`. */
  function OrDefault(v: Option<int>, d: int): int
  {
    if v.Some? && v.value != 0 then v.value else d
  }

  /** `Math.min` on integers. */
  function Min(a: int, b: int): int
  {
    if a < b then a else b
  }
}

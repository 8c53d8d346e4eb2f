/** The integer helper of Util.cs. */
module Util {
  import opened IntWidth

  /**
   * `IntClamp`: `min` below the lower bound, else `max` above the upper
   * bound, else `x`. The lower test comes first, so with `min > max` an `x`
   * below `min` still yields `min`.
   */
  function IntClamp(x: Int32, min: Int32, max: Int32): (r: Int32)
    ensures x < min ==> r == min
    ensures min <= x && x > max ==> r == max
    ensures min <= x <= max ==> r == x
    ensures r == x || r == min || r == max
  {
    if x < min then min
    else if x > max then max
    else x
  }

  /** The distance between two integers. */
  function Dist(a: int, b: int): nat {
    if a <= b then b - a else a - b
  }

  /** With an ordered range the result lies in it, and is the nearest point of it to `x`. */
  lemma IntClampInRange(x: Int32, min: Int32, max: Int32)
    requires min <= max
    ensures min <= IntClamp(x, min, max) <= max
    ensures forall y: int :: min <= y <= max ==> Dist(x, IntClamp(x, min, max)) <= Dist(x, y)
  {
  }

  /** With an ordered range, clamping twice is clamping once. */
  lemma IntClampIdempotent(x: Int32, min: Int32, max: Int32)
    requires min <= max
    ensures IntClamp(IntClamp(x, min, max), min, max) == IntClamp(x, min, max)
  {
  }

  /** With an inverted range the lower test wins below `min`; everything else goes to `max`. */
  lemma IntClampInverted(x: Int32, min: Int32, max: Int32)
    requires min > max
    ensures IntClamp(x, min, max) == (if x < min then min else max)
  {
  }
}

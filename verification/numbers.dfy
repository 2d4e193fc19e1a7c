/** JavaScript's `Math.round`, on exact reals. */
module Numbers {

  /** `Math.round(x)`: the nearest integer, halves rounding up (towards +infinity). */
  function Round(x: real): (r: int)
    ensures r as real - 0.5 <= x < r as real + 0.5
  {
    (x + 0.5).Floor
  }

  /** Rounding never reverses an order. */
  lemma RoundMonotone(x: real, y: real)
    requires x <= y
    ensures Round(x) <= Round(y)
  {
  }
}

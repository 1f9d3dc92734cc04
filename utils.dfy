/** The numeric helper of utils.js (`clamp`), with the `Math.max` / `Math.min` it is built from. */
module Utils {

  function Max(a: real, b: real): real { if a >= b then a else b }

  function Min(a: real, b: real): real { if a <= b then a else b }

  function Abs(x: real): real { if x < 0.0 then -x else x }

  /** clamp(x, a, b) = max(a, min(b, x)). When a > b the lower bound wins. */
  function Clamp(x: real, a: real, b: real): (r: real)
    ensures r >= a
    ensures a <= b ==> a <= r <= b
    ensures a <= x <= b ==> r == x
    ensures x < a ==> r == a
    ensures a <= b && b < x ==> r == b
  {
    Max(a, Min(b, x))
  }

  /** Clamping twice is clamping once. */
  lemma ClampIdempotent(x: real, a: real, b: real)
    ensures Clamp(Clamp(x, a, b), a, b) == Clamp(x, a, b)
  {
  }

  /** Clamp is monotone in the clamped value. */
  lemma ClampMonotone(x: real, y: real, a: real, b: real)
    requires x <= y
    ensures Clamp(x, a, b) <= Clamp(y, a, b)
  {
  }
}

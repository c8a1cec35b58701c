/**
 * `Math.min(...xs)`, `Math.max(...xs)` and a sum over a non-empty list of
 * numbers, taken as exact reals.
 */
module Numbers {

  /** The least element of `xs`: a member of `xs` bounding every member from below. */
  function SeqMin(xs: seq<real>): (m: real)
    requires |xs| > 0
    ensures m in xs
    ensures forall i :: 0 <= i < |xs| ==> m <= xs[i]
  {
    if |xs| == 1 then xs[0]
    else
      var rest := SeqMin(xs[1..]);
      if xs[0] <= rest then xs[0] else rest
  }

  /** The greatest element of `xs`: a member of `xs` bounding every member from above. */
  function SeqMax(xs: seq<real>): (m: real)
    requires |xs| > 0
    ensures m in xs
    ensures forall i :: 0 <= i < |xs| ==> xs[i] <= m
  {
    if |xs| == 1 then xs[0]
    else
      var rest := SeqMax(xs[1..]);
      if rest <= xs[0] then xs[0] else rest
  }

  /** `xs.reduce((a, b) => a + b)`, folded from the left as `reduce` does. */
  function Sum(xs: seq<real>): real
  {
    if |xs| == 0 then 0.0 else Sum(xs[..|xs| - 1]) + xs[|xs| - 1]
  }
}

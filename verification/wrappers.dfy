/** Failure-carrying values and sums shared by both calculators. */
module Wrappers {

  /** `None` stands for the JavaScript outcomes that are not a number:
      a `NaN` from `parseInt`, or a `TypeError` that aborts the script. */
  datatype Option<+T> = None | Some(value: T)

  /** Addition that propagates failure, as `NaN` does through `+`. */
  function AddOpt(a: Option<nat>, b: Option<nat>): (r: Option<nat>)
    ensures r.Some? <==> a.Some? && b.Some?
    ensures r.Some? ==> r.value == a.value + b.value
  {
    if a.Some? && b.Some? then Some(a.value + b.value) else None
  }

  /** The sum of a list of numbers, as a `reduce` with `+` from 0 computes it. */
  function Sum(xs: seq<nat>): nat
    decreases |xs|
  {
    if |xs| == 0 then 0 else xs[0] + Sum(xs[1..])
  }

  lemma AddOptAssoc(a: Option<nat>, b: Option<nat>, c: Option<nat>)
    ensures AddOpt(a, AddOpt(b, c)) == AddOpt(AddOpt(a, b), c)
  {
  }
}

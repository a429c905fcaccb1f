/** The optional value used wherever the source reads something that may be
    absent: `Array.prototype.find`, an element of a `split` result, an
    optional-chained field `stats[i]?.icon`. */
module Wrappers {

  datatype Option<+T> = None | Some(value: T) {

    /** Returns the value in Some, or `default` when None: the fallback of an
        absent value (for an array operand, `x || d` behaves the same, since
        every array is truthy). */
    function GetOr(default: T): T {
      match this
      case Some(v) => v
      case None => default
    }
  }

  /** Element `i` of a sequence, or None past its end: what a JavaScript array
      index yields (`undefined`) instead of failing. */
  function At<T>(xs: seq<T>, i: nat): (r: Option<T>)
    ensures r.Some? <==> i < |xs|
    ensures r.Some? ==> r.value == xs[i]
  {
    if i < |xs| then Some(xs[i]) else None
  }
}

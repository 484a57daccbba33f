/** Shared failure-compatible types. */
module Prelude {

  datatype Option<+T> = None | Some(value: T) {
    function GetOr(default: T): T {
      if Some? then value else default
    }
  }

  datatype Result<+T, +E> = Ok(value: T) | Err(error: E)

  /** `idx` picks the elements of `xs` out of `ys`, in order and each position at most once. */
  ghost predicate Picks<T>(idx: seq<nat>, xs: seq<T>, ys: seq<T>) {
    && |idx| == |xs|
    && (forall k :: 0 <= k < |idx| ==> idx[k] < |ys| && xs[k] == ys[idx[k]])
    && (forall j, k :: 0 <= j < k < |idx| ==> idx[j] < idx[k])
  }

  /** `xs` is an in-order subsequence of `ys`; no element of `ys` is used twice. */
  ghost predicate Subsequence<T>(xs: seq<T>, ys: seq<T>) {
    exists idx :: Picks(idx, xs, ys)
  }
}

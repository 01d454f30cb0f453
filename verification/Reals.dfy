/** Comparison of scores and of progress. */
module Reals {
  function Larger(a: real, b: real): real {
    if a < b then b else a
  }
}

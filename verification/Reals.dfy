/** Products of reals by name, so that proofs can treat them as one term. */
module Reals {
  function Times(x: real, y: real): real {
    x * y
  }
}

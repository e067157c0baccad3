/** The few functions of Go's math package that the figures share. */
module Reals {
  /** Means nearer to zero than this are not divided by. */
  const NEAR_ZERO: real := 0.000_000_000_001

  function Abs(x: real): real { if x < 0.0 then -x else x }

  function Max(x: real, y: real): real { if x < y then y else x }

  function Ceil(x: real): int { -((-x).Floor) }
}

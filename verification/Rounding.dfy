// The C library's fabs and round (lround), over exact reals.
module Rounding {
  function Abs(x: real): real { if x < 0.0 then -x else x }

  // To the nearest integer, halves away from zero.
  function Round(x: real): int {
    if x < 0.0 then -((0.5 - x).Floor) else (x + 0.5).Floor
  }
}

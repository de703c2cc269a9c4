/** Numbers shared by several components: minima, saturating sums, and binary numerals. */
module Arithmetic {
  function Min(a: nat, b: nat): nat {
    if a < b then a else b
  }

  /** A sum that stops at the value standing for infinity. */
  function SatAdd(a: nat, b: nat, inf: nat): nat {
    if a + b >= inf then inf else a + b
  }

  function Pow2(n: nat): nat { if n == 0 then 1 else 2 * Pow2(n - 1) }

  /** The number with these binary digits, lowest first. */
  function Value(digits: seq<bool>): nat {
    if digits == [] then 0 else (if digits[0] then 1 else 0) + 2 * Value(digits[1..])
  }
}

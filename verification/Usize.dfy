/** Saturating arithmetic on the `usize` of a 64-bit target. */
module Usize {
  import opened Bytes

  const USIZE_MAX: nat := U64_LIMIT - 1

  function SaturatingAdd(a: nat, b: nat): nat {
    if a + b > USIZE_MAX then USIZE_MAX else a + b
  }

  function SaturatingMul(a: nat, b: nat): nat {
    if a * b > USIZE_MAX then USIZE_MAX else a * b
  }
}

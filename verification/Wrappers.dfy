/** Results, machine words and the other small types every module shares. */
module Wrappers {

  datatype Option<+T> = None | Some(value: T)

  datatype Result<+T, +E> = Ok(value: T) | Err(error: E)

  /** The largest value of the source's 64-bit `usize` and `u64`. */
  const WORD_MAX: nat := 0xFFFF_FFFF_FFFF_FFFF

  function Min(a: int, b: int): int {
    if a <= b then a else b
  }

  function Max(a: int, b: int): int {
    if a <= b then b else a
  }

  function SaturatingSub(a: nat, b: nat): nat {
    if a <= b then 0 else a - b
  }

  function SaturatingAdd(a: nat, b: nat): nat {
    if a + b <= WORD_MAX then a + b else WORD_MAX
  }

  function SaturatingMul(a: nat, b: nat): nat {
    if a * b <= WORD_MAX then a * b else WORD_MAX
  }

  /** The last `n` elements, or all of them. */
  function Last<T>(s: seq<T>, n: nat): seq<T> {
    if |s| <= n then s else s[|s| - n..]
  }
}

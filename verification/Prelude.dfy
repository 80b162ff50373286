/** Small definitions shared by every module. */
module Prelude {

  datatype Option<+T> = None | Some(value: T)

  function Max(x: real, y: real): real {
    if x < y then y else x
  }

  function Min(x: real, y: real): real {
    if x < y then x else y
  }

  /** The least integer not below `x`, as Lua's `math.ceil`. */
  function Ceil(x: real): (n: int)
    ensures x <= n as real < x + 1.0
  {
    -(-x).Floor
  }

  // ---- 64-bit words ----

  const TWO62 := 0x4000_0000_0000_0000
  const TWO63 := 0x8000_0000_0000_0000
  const TWO64 := 0x1_0000_0000_0000_0000

  /** A 64-bit pattern read as a signed integer. */
  function Signed(word: nat): int {
    if word >= TWO63 then word - TWO64 else word
  }

  function Pow2(k: nat): (p: nat)
    ensures p >= 1
  {
    if k == 0 then 1 else 2 * Pow2(k - 1)
  }

  // ---- Products of reals, stated apart so that no other proof has to find them ----

  lemma {:induction false} ScaleMonotone(x: real, y: real, q: real)
    requires x <= y && 0.0 <= q
    ensures x * q <= y * q
  {
  }

  lemma {:induction false} ScaleStrict(x: real, y: real, q: real)
    requires x < y && 0.0 < q
    ensures x * q < y * q
  {
  }

  lemma {:induction false} ScaleSum(x: real, y: real, q: real)
    ensures (x + y) * q == x * q + y * q
  {
  }

  lemma {:induction false} ScaleSplit(from: real, mid: real, to: real, q: real)
    ensures (to - from) * q == (mid - from) * q + (to - mid) * q
  {
  }

  lemma {:induction false} ScaleBack(x: real, t: real, q: real)
    requires t * q == 1.0
    ensures x * t * q == x && x * q * t == x
  {
    assert x * t * q == x * (t * q);
    assert x * q * t == x * (t * q);
  }
}

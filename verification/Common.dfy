/** Types shared by the models: octets, C integer widths, binary digits and optional values. */
module Common {
  /** An `unsigned char`. */
  type byte = x: int | 0 <= x < 256

  /** Number of values of a 32-bit and of a 64-bit unsigned integer. */
  const TWO_32: nat := 0x1_0000_0000
  const TWO_64: nat := 0x1_0000_0000_0000_0000

  /** The binary digit of weight 2^i. */
  function Bit(n: nat, i: nat): nat
    decreases i
  {
    if i == 0 then n % 2 else Bit(n / 2, i - 1)
  }

  function Pow2(k: nat): (p: nat)
    ensures p > 0
  {
    if k == 0 then 1 else 2 * Pow2(k - 1)
  }

  lemma {:induction false} BitZero(i: nat)
    ensures Bit(0, i) == 0
    decreases i
  {
    if i > 0 {
      BitZero(i - 1);
    }
  }

  datatype Option<+T> = None | Some(value: T)
}

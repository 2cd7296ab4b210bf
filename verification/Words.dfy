/** The fixed-width unsigned integers of the program, and the places where it relies on wrap-around. */
module Words {
  const TWO_16: nat := 0x1_0000
  const TWO_32: nat := 0x1_0000_0000
  const TWO_64: nat := 0x1_0000_0000_0000_0000

  type U16 = x: nat | x < TWO_16
  type U32 = x: nat | x < TWO_32
  type U64 = x: nat | x < TWO_64
  type Byte = x: nat | x < 256

  datatype Option<+T> = None | Some(value: T)

  function Wrap16(x: int): U16 { x % TWO_16 }
  function Wrap32(x: int): U32 { x % TWO_32 }
  function Wrap64(x: int): U64 { x % TWO_64 }

  function Min(a: int, b: int): int { if a <= b then a else b }
  function Max(a: int, b: int): int { if a >= b then a else b }

  /** A remainder that wraps at most once. */
  lemma WrapOnce(x: nat, n: nat)
    requires 0 < n && x < 2 * n
    ensures x % n == if x < n then x else x - n
  {
  }
}

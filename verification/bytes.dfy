/** Bytes as numbers, shared by the modules that work on byte streams. */
module Bytes {

  /** b & 0x1f is b % 32, b & 0xe0 is b - b % 32, and so on. */
  newtype Byte = b: int | 0 <= b < 256

  /** Bit `value` (a power of two) of b is set. */
  predicate Bit(b: Byte, value: Byte)
    requires value > 0
  {
    b / value % 2 == 1
  }

  /** Two bytes in network order. */
  function U16(high: Byte, low: Byte): (n: nat) {
    high as int * 256 + low as int
  }

  lemma Regroup<T>(a: seq<T>, b: seq<T>, c: seq<T>)
    ensures a + (b + c) == a + b + c
  {
  }
}

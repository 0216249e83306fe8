/** Bytes and the little helpers every codec of the repository shares. */
module Bytes {
  /** uint8_t as an integer, so that sums need no conversion. */
  type byte = x: int | 0 <= x < 256

  /** uint16_t as an integer. */
  type u16 = x: int | 0 <= x < 0x1_0000

  datatype Option<+T> = None | Some(value: T)

  /** `b ^ 0x20`, written arithmetically; FlipIsXor says that it is the same thing. */
  function Flip(b: byte): (r: byte)
    ensures r != b
  {
    if (b / 32) % 2 == 0 then b + 32 else b - 32
  }

  lemma FlipIsXor(v: bv8)
    ensures (v ^ 0x20) as int == Flip(v as int)
  {}

  /** `lo | (hi << 8)`. */
  function Word(lo: byte, hi: byte): u16 {
    (lo as int) + 256 * (hi as int)
  }

  lemma AppendAssociates<T>(a: seq<T>, b: seq<T>, c: seq<T>)
    ensures a + (b + c) == a + b + c
  {}

  /** What the port delivers to a reader: the bytes that have not been read yet. */
  class ByteStream {
    var pending: seq<byte>

    constructor (input: seq<byte>)
      ensures pending == input
    {
      pending := input;
    }

    method Read() returns (b: byte)
      requires pending != []
      modifies this
      ensures b == old(pending)[0] && pending == old(pending)[1..]
    {
      b := pending[0];
      pending := pending[1..];
    }
  }
}

/** Machine integers as ranges of the mathematical ones, and byte strings. */
module Words {
  type byte = x: int | 0 <= x < 0x100
  type u32 = x: int | 0 <= x < 0x1_0000_0000
  type i32 = x: int | -0x8000_0000 <= x < 0x8000_0000
  type u64 = x: int | 0 <= x < 0x1_0000_0000_0000_0000

  /** A string as the bytes it is stored in. */
  type Str = seq<byte>

  lemma Assoc(a: seq<byte>, b: seq<byte>, c: seq<byte>)
    ensures a + b + c == a + (b + c)
  {
  }
}

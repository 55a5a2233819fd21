/** Fixed-width quantities shared by every module: octets, 32-bit words and octet strings. */
module Bytes {
  const WORD: nat := 0x1_0000_0000
  const WORD_MAX: nat := 0xFFFF_FFFF

  type byte = b: nat | b < 256
  type u32 = n: nat | n < 0x1_0000_0000
  type bytes = seq<byte>

  datatype Option<+T> = None | Some(value: T)

  function Pow2(k: nat): (p: nat)
    ensures p > 0
  {
    if k == 0 then 1 else 2 * Pow2(k - 1)
  }

  lemma Pow2Values()
    ensures Pow2(7) == 0x80 && Pow2(8) == 0x100 && Pow2(16) == 0x1_0000
    ensures Pow2(24) == 0x100_0000 && Pow2(31) == 0x8000_0000 && Pow2(32) == WORD && Pow2(33) == 2 * WORD
  {
    assert Pow2(8) == 0x100;
    assert Pow2(16) == 0x1_0000;
    assert Pow2(24) == 0x100_0000;
    assert Pow2(32) == WORD;
  }

  lemma EightMoreBits(k: nat)
    ensures Pow2(8 * (k + 1)) == 0x100 * Pow2(8 * k)
  {
    var p := Pow2(8 * k);
    assert Pow2(8 * k + 2) == 4 * p;
    assert Pow2(8 * k + 4) == 16 * p;
    assert Pow2(8 * k + 6) == 64 * p;
    assert Pow2(8 * k + 8) == 256 * p;
  }
}

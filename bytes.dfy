/**
 * Unsigned machine integers and little-endian field access.
 *
 * A byte is an integer in 0..255. The C source manipulates bytes with `&`, `|`, `<<` and `>>`
 * only on disjoint bit ranges, so each such expression is written here with `%`, `/`, `*`
 * and `+` on non-negative integers, which denote the same number.
 */
module Bytes {

  type byte = x: int | 0 <= x < 0x100
  type u16 = x: int | 0 <= x < 0x1_0000
  type u32 = x: int | 0 <= x < 0x1_0000_0000

  /** The little-endian 16-bit value stored at s[i], s[i+1] (a two-byte memcpy on x86). */
  function Le16(s: seq<byte>, i: nat): (v: u16)
    requires i + 2 <= |s|
  {
    s[i] as int + 0x100 * (s[i + 1] as int)
  }

  /** The little-endian 32-bit value stored at s[i..i+4]. */
  function Le32(s: seq<byte>, i: nat): (v: u32)
    requires i + 4 <= |s|
  {
    Le16(s, i) as int + 0x1_0000 * (Le16(s, i + 2) as int)
  }

  /** The two bytes that store v in little-endian order. */
  function Le16Bytes(v: u16): (r: seq<byte>)
    ensures |r| == 2
    ensures Le16(r, 0) == v
  {
    [v % 0x100, v / 0x100]
  }

  /** The four bytes that store v in little-endian order. */
  function Le32Bytes(v: u32): (r: seq<byte>)
    ensures |r| == 4
    ensures Le32(r, 0) == v
  {
    Le16Bytes(v % 0x1_0000) + Le16Bytes(v / 0x1_0000)
  }

  /** A 16-bit field's low byte is the first stored byte and its high byte the second. */
  lemma Le16Splits(s: seq<byte>, i: nat)
    requires i + 2 <= |s|
    ensures Le16(s, i) % 0x100 == s[i] && Le16(s, i) / 0x100 == s[i + 1]
  {
  }

  /** A 32-bit field's low half is the 16-bit field at i and its high half the one at i + 2. */
  lemma Le32Splits(s: seq<byte>, i: nat)
    requires i + 4 <= |s|
    ensures Le32(s, i) % 0x1_0000 == Le16(s, i) && Le32(s, i) / 0x1_0000 == Le16(s, i + 2)
    ensures Le32(s, i) % 0x100 == s[i] && Le32(s, i) / 0x100_0000 == s[i + 3]
  {
    var lo: nat, hi: nat := Le16(s, i), Le16(s, i + 2);
    Le16Splits(s, i);
    Le16Splits(s, i + 2);
    assert Le32(s, i) == lo + 0x1_0000 * hi;
    assert Le32(s, i) % 0x100 == lo % 0x100 by {
      assert lo + 0x1_0000 * hi == lo + 0x100 * (0x100 * hi);
    }
    assert Le32(s, i) / 0x100_0000 == hi / 0x100 by {
      assert lo + 0x1_0000 * hi == (lo + 0x1_0000 * (hi % 0x100)) + 0x100_0000 * (hi / 0x100);
    }
  }

  /** Reading a 16-bit field back as bytes gives exactly the bytes it was read from. */
  lemma Le16Bytes_Le16(s: seq<byte>, i: nat)
    requires i + 2 <= |s|
    ensures Le16Bytes(Le16(s, i)) == s[i..i + 2]
  {
  }

  /** Reading a 32-bit field back as bytes gives exactly the bytes it was read from. */
  lemma Le32Bytes_Le32(s: seq<byte>, i: nat)
    requires i + 4 <= |s|
    ensures Le32Bytes(Le32(s, i)) == s[i..i + 4]
  {
    var lo, hi := Le16(s, i), Le16(s, i + 2);
    assert Le32(s, i) % 0x1_0000 == lo && Le32(s, i) / 0x1_0000 == hi;
    Le16Bytes_Le16(s, i);
    Le16Bytes_Le16(s, i + 2);
  }
}

/** Masked CRC-32C checksums (util/crc32c.h, util/crc32c.cc).

    The tables of the source are replaced by the bitwise definition of the polynomial of
    section 12.1 of RFC 3720; rotations are written as divisions and remainders. */
module Crc {
  import opened DbFormat
  import opened Coding

  newtype Word = x: int | 0 <= x < 0x1_0000_0000

  const MASK_DELTA: int := 0xa282ead8
  const POLYNOMIAL: nat := 0x82f63b78

  function Xor(bits: nat, a: nat, b: nat): (r: nat)
    ensures r < Power(2, bits)
  {
    if bits == 0 then 0 else 2 * Xor(bits - 1, a / 2, b / 2) + (a + b) % 2
  }

  function Shift(l: nat, n: nat): nat
    decreases n
  {
    if n == 0 then l else Shift(if l % 2 == 1 then Xor(32, l / 2, POLYNOMIAL) else l / 2, n - 1)
  }

  function Step(l: Word, b: byte): Word {
    (Shift(Xor(32, l as nat, b as nat), 8) % WORD32) as Word
  }

  function Fold(l: Word, s: Bytes): Word
    decreases |s|
  {
    if s == [] then l else Fold(Step(l, s[0]), s[1..])
  }

  function Complement(l: Word): Word {
    0xffff_ffff - l
  }

  /** The checksum of A + s, when `init` is the checksum of A. */
  function Extend(init: Word, s: Bytes): Word {
    Complement(Fold(Complement(init), s))
  }

  function Value(s: Bytes): Word {
    Extend(0, s)
  }

  lemma {:induction false} FoldConcat(l: Word, s: Bytes, t: Bytes)
    ensures Fold(l, s + t) == Fold(Fold(l, s), t)
    decreases |s|
  {
    hide Step;
    if s == [] {
      assert s + t == t;
    } else {
      assert (s + t)[1..] == s[1..] + t;
      FoldConcat(Step(l, s[0]), s[1..], t);
    }
  }

  /** What the header comment of Extend promises. */
  lemma ExtendConcat(s: Bytes, t: Bytes)
    ensures Value(s + t) == Extend(Value(s), t)
  {
    hide Step;
    FoldConcat(Complement(0), s, t);
  }

  /** Rotate right by 15 bits and add a constant, in 32 bits. */
  function Mask(crc: Word): Word {
    var c := crc as int;
    ((c / 0x8000 + c % 0x8000 * 0x2_0000 + MASK_DELTA) % WORD32) as Word
  }

  function Unmask(masked: Word): Word {
    var rot := (masked as int - MASK_DELTA) % WORD32;
    (rot / 0x2_0000 + rot % 0x2_0000 * 0x8000) as Word
  }

  lemma UnmaskMask(crc: Word)
    ensures Unmask(Mask(crc)) == crc
  {
    var c := crc as int;
    var high, low := c / 0x8000, c % 0x8000;
    var rot := high + low * 0x2_0000;
    assert high < 0x2_0000 && rot < WORD32;
    assert (Mask(crc) as int - MASK_DELTA) % WORD32 == rot;
    assert rot / 0x2_0000 == low && rot % 0x2_0000 == high;
  }

  lemma MaskUnmask(masked: Word)
    ensures Mask(Unmask(masked)) == masked
  {
    var rot := (masked as int - MASK_DELTA) % WORD32;
    var high, low := rot / 0x2_0000, rot % 0x2_0000;
    var c := high + low * 0x8000;
    assert high < 0x8000;
    assert c / 0x8000 == low && c % 0x8000 == high;
  }
}

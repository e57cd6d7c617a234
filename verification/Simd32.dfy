/**
 The ARMv6 packed-integer operations the int8 kernels use (ARM Architecture Reference Manual, chapter A3.7
 and the instruction descriptions of SMLAD, SXTB16, UXTB16, SSUB16, SMMULR and SSAT), as total functions.
 A word is its unsigned value; a halfword or byte lane is given by its signed value where it is signed.
 */
module Simd32 {

  type Word = w: int | 0 <= w < 0x1_0000_0000

  const TWO16: int := 0x1_0000
  const TWO31: int := 0x8000_0000
  const TWO32: int := 0x1_0000_0000

  predicate Int8(x: int) { -128 <= x <= 127 }

  predicate Int16(x: int) { -0x8000 <= x <= 0x7FFF }

  predicate Int32(x: int) { -TWO31 <= x < TWO31 }

  /** The int32 that has x's low 32 bits. */
  function Wrap32(x: int): (r: int)
    ensures Int32(r) && (Int32(x) ==> r == x)
  {
    (x + TWO31) % TWO32 - TWO31
  }

  /** Wrapping early or late makes no difference to a sum. */
  lemma WrapAdd(x: int, y: int)
    ensures Wrap32(Wrap32(x) + y) == Wrap32(x + y)
  {
  }

  function Signed16(h: int): int { if h >= 0x8000 then h - TWO16 else h }

  function Signed8(b: int): int { if b >= 0x80 then b - 0x100 else b }

  /** The two signed halfwords of a word. */
  function Lo(w: Word): (h: int) ensures Int16(h) { Signed16(w % TWO16) }

  function Hi(w: Word): (h: int) ensures Int16(h) { Signed16(w / TWO16) }

  /** The word's signed halfwords. */
  predicate IsPair(w: Word, lo: int, hi: int) { Lo(w) == lo && Hi(w) == hi }

  /** The word with the given halfwords, each cut to its low 16 bits. */
  function Pack16(lo: int, hi: int): (w: Word)
    ensures Int16(lo) ==> Lo(w) == lo
    ensures Int16(hi) ==> Hi(w) == hi
  {
    lo % TWO16 + (hi % TWO16) * TWO16
  }

  /** The word whose bytes in memory are the given signed bytes, lowest address first. */
  function WordOf(b0: int, b1: int, b2: int, b3: int): (w: Word)
  {
    b0 % 0x100 + (b1 % 0x100) * 0x100 + (b2 % 0x100) * TWO16 + (b3 % 0x100) * 0x100_0000
  }

  /** Byte i of a word, unsigned. */
  function ByteOf(w: Word, i: nat): (b: int)
    requires i < 4
    ensures 0 <= b < 0x100
  {
    if i == 0 then w % 0x100
    else if i == 1 then w / 0x100 % 0x100
    else if i == 2 then w / TWO16 % 0x100
    else w / 0x100_0000
  }

  lemma BytesOfWord(b0: int, b1: int, b2: int, b3: int)
    ensures
      var w := WordOf(b0, b1, b2, b3);
      && ByteOf(w, 0) == b0 % 0x100 && ByteOf(w, 1) == b1 % 0x100
      && ByteOf(w, 2) == b2 % 0x100 && ByteOf(w, 3) == b3 % 0x100
  {
    Digits(b0 % 0x100, b1 % 0x100, b2 % 0x100, b3 % 0x100);
  }

  lemma Digits(c0: int, c1: int, c2: int, c3: int)
    requires 0 <= c0 < 0x100 && 0 <= c1 < 0x100 && 0 <= c2 < 0x100 && 0 <= c3 < 0x100
    ensures
      var w := c0 + c1 * 0x100 + c2 * TWO16 + c3 * 0x100_0000;
      w % 0x100 == c0 && w / 0x100 % 0x100 == c1 && w / TWO16 % 0x100 == c2 && w / 0x100_0000 == c3
  {
    var w := c0 + c1 * 0x100 + c2 * TWO16 + c3 * 0x100_0000;
    assert w / 0x100 == c1 + c2 * 0x100 + c3 * TWO16;
    assert w / TWO16 == c2 + c3 * 0x100;
  }

  /** SXTB16: bytes 0 and 2, sign-extended into the halfwords. */
  function Sxtb16(w: Word): Word { Pack16(Signed8(ByteOf(w, 0)), Signed8(ByteOf(w, 2))) }

  /** SXTB16 with ROR #8: bytes 1 and 3. */
  function Sxtb16Ror8(w: Word): Word { Pack16(Signed8(ByteOf(w, 1)), Signed8(ByteOf(w, 3))) }

  /** UXTB16: bytes 0 and 2, zero-extended. */
  function Uxtb16(w: Word): Word { Pack16(ByteOf(w, 0), ByteOf(w, 2)) }

  /** SSUB16: halfword-wise subtraction, modulo 2^16. */
  function Ssub16(a: Word, b: Word): Word { Pack16(Lo(a) - Lo(b), Hi(a) - Hi(b)) }

  /** SMLAD: both signed halfword products added to the accumulator, modulo 2^32. */
  function Smlad(a: Word, b: Word, acc: int): (r: int)
    ensures Int32(r)
  {
    Wrap32(Lo(a) * Lo(b) + Hi(a) * Hi(b) + acc)
  }

  /** SMMULR: the high word of the product, rounded. */
  function Smmulr(a: int, b: int): int { (a * b + TWO31) / TWO32 }

  /** SSAT to 8 bits. */
  function Ssat8(x: int): (r: int)
    ensures Int8(r)
  {
    if x < -128 then -128 else if x > 127 then 127 else x
  }

  lemma SignedByte(b: int)
    requires Int8(b)
    ensures Signed8(b % 0x100) == b
  {
  }

  /** Unpacking four signed bytes gives them back in pairs. */
  lemma SxtbOfWord(b0: int, b1: int, b2: int, b3: int)
    requires Int8(b0) && Int8(b1) && Int8(b2) && Int8(b3)
    ensures
      var w := WordOf(b0, b1, b2, b3);
      && Lo(Sxtb16(w)) == b0 && Hi(Sxtb16(w)) == b2
      && Lo(Sxtb16Ror8(w)) == b1 && Hi(Sxtb16Ror8(w)) == b3
  {
    hide WordOf;
    hide ByteOf;
    BytesOfWord(b0, b1, b2, b3);
    SignedByte(b0);
    SignedByte(b1);
    SignedByte(b2);
    SignedByte(b3);
  }
}

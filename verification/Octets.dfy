/** Bytes, as bits and as numbers. */
module Octets {
  type byte = bv8

  type Bytes = seq<byte>

  function Digit(b: byte): nat { b as nat }

  /** The byte of a number, found by counting: only bytes are ever converted, never integers. */
  function ToByte(d: nat): (b: byte)
    requires d < 256
    ensures Digit(b) == d
  {
    if d == 0 then 0
    else
      IncrementWraps(ToByte(d - 1));
      ToByte(d - 1) + 1
  }

  lemma DigitOfByte(d: nat)
    requires d < 256
    ensures Digit(ToByte(d)) == d
  {}

  lemma DigitsDetermine(a: byte, b: byte)
    ensures Digit(a) == Digit(b) <==> a == b
  {}

  lemma ByteOfDigit(b: byte)
    ensures Digit(b) < 256 && ToByte(Digit(b)) == b
  {
    hide ToByte;
    DigitBound(b);
    DigitsDetermine(ToByte(Digit(b)), b);
  }

  lemma DigitBound(b: byte)
    ensures Digit(b) < 256
  {}

  /** Incrementing a byte wraps from 255 to 0. */
  lemma IncrementWraps(b: byte)
    ensures Digit(b + 1) == if Digit(b) == 255 then 0 else Digit(b) + 1
  {}

  lemma ComplementDigit(b: byte)
    ensures Digit(255 ^ b) == 255 - Digit(b)
  {
    ComplementIsDifference(b);
  }

  lemma ComplementIsDifference(b: byte)
    ensures 255 ^ b == 255 - b
  {}

  predicate HighBit(b: byte) { b & 0x80 != 0 }

  lemma HighBitIsHalf(b: byte)
    ensures HighBit(b) <==> Digit(b) >= 128
    ensures b == 0 <==> Digit(b) == 0
  {}

  function LowSeven(b: byte): byte { b & 0x7f }

  lemma HighBitClears(b: byte)
    ensures HighBit(b) ==> LowSeven(b) == b - 0x80
  {}

  lemma LowSevenOf(m: nat)
    requires m < 128
    ensures HighBit(ToByte(128 + m)) && Digit(LowSeven(ToByte(128 + m))) == m
    ensures ToByte(128 + m) == 0x80 ==> m == 0
  {
    hide LowSeven, HighBit;
    DigitOfByte(128 + m);
    HighBitIsHalf(ToByte(128 + m));
    HighBitClears(ToByte(128 + m));
  }
}

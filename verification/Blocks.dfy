/** 128-bit blocks: the masks, the one-byte counter, and the vector lanes the
    batched code adds to. */
module Blocks {
  import opened Octets

  const BLOCK_SIZE := 16

  type Block = b: seq<byte> | |b| == 16 witness seq(16, _ => 0)

  const ZERO: Block := [0, 0, 0, 0, 0, 0, 0, 0, 0, 0, 0, 0, 0, 0, 0, 0]

  const ONE: Block := ZERO[0 := 1]

  function Xor(a: Block, b: Block): Block {
    seq(16, i requires 0 <= i < 16 => a[i] ^ b[i])
  }

  lemma XorCancels(a: Block, b: Block)
    ensures Xor(Xor(a, b), b) == a
  {
    forall i | 0 <= i < 16 ensures Xor(Xor(a, b), b)[i] == a[i] {
      assert (a[i] ^ b[i]) ^ b[i] == a[i];
    }
  }

  lemma XorCommutes(a: Block, b: Block)
    ensures Xor(a, b) == Xor(b, a)
  {
    forall i | 0 <= i < 16 ensures Xor(a, b)[i] == Xor(b, a)[i] {
      assert a[i] ^ b[i] == b[i] ^ a[i];
    }
  }

  /** The tail loop's increment: byte 15 only, modulo 256. */
  function BumpByte(b: Block): Block {
    b[15 := b[15] + 1]
  }

  function Bumps(b: Block, k: nat): Block {
    if k == 0 then b else BumpByte(Bumps(b, k - 1))
  }

  lemma {:induction false} BumpsShift(b: Block, k: nat)
    ensures Bumps(BumpByte(b), k) == Bumps(b, k + 1)
  {
    if k > 0 {
      BumpsShift(b, k - 1);
    }
  }

  /** The counter byte as a number. */
  function CounterByte(b: Block): nat { Digit(b[15]) }

  lemma BumpWraps(b: Block)
    ensures CounterByte(b) < 256
    ensures CounterByte(BumpByte(b)) == if CounterByte(b) == 255 then 0 else CounterByte(b) + 1
  {
    hide Digit;
    DigitBound(b[15]);
    IncrementWraps(b[15]);
  }

  lemma NextModulo256(x: int, k: nat)
    requires 0 < k
    ensures (x + k) % 256 == if (x + (k - 1)) % 256 == 255 then 0 else (x + (k - 1)) % 256 + 1
  {}

  /** k increments of byte 15 add k modulo 256 and touch nothing else. */
  lemma {:induction false} BumpsAddModulo256(b: Block, k: nat)
    ensures CounterByte(Bumps(b, k)) == (CounterByte(b) + k) % 256
    ensures forall i :: 0 <= i < 15 ==> Bumps(b, k)[i] == b[i]
  {
    hide CounterByte, Digit;
    if k == 0 {
      BumpWraps(b);
    } else {
      BumpsAddModulo256(b, k - 1);
      BumpWraps(Bumps(b, k - 1));
      NextModulo256(CounterByte(b), k);
    }
  }

  /** Which vector unit performs the batch: it decides how wide the lane is
      that carries the counter byte. */
  datatype Unit = Sse | Neon

  function Word32(b0: byte, b1: byte, b2: byte, b3: byte): bv32 {
    (b0 as bv32) | ((b1 as bv32) << 8) | ((b2 as bv32) << 16) | ((b3 as bv32) << 24)
  }

  function Byte32(w: bv32, i: nat): byte
    requires i < 4
  {
    if i == 0 then (w & 0xff) as byte
    else if i == 1 then ((w >> 8) & 0xff) as byte
    else if i == 2 then ((w >> 16) & 0xff) as byte
    else ((w >> 24) & 0xff) as byte
  }

  lemma WordOfBytes(w: bv32)
    ensures Word32(Byte32(w, 0), Byte32(w, 1), Byte32(w, 2), Byte32(w, 3)) == w
  {}

  /** `_mm_add_epi32` with 1<<24 in the top lane: a 32-bit addition on bytes 12..15. */
  function AddLane32(b: Block): Block {
    var w := Word32(b[12], b[13], b[14], b[15]) + 0x0100_0000;
    b[12 := Byte32(w, 0)][13 := Byte32(w, 1)][14 := Byte32(w, 2)][15 := Byte32(w, 3)]
  }

  /** A 64-bit addition of 1<<56 to the word with halves `lo` and `hi`. */
  function WideAdd(lo: bv32, hi: bv32): (bv32, bv32) {
    var w: bv64 := ((lo as bv64) | ((hi as bv64) << 32)) + 0x0100_0000_0000_0000;
    ((w & 0xffff_ffff) as bv32, ((w >> 32) & 0xffff_ffff) as bv32)
  }

  /** `vaddq_u64` with 1<<56 in the top lane: a 64-bit addition on bytes 8..15. */
  function AddLane64(b: Block): Block {
    var w := WideAdd(Word32(b[8], b[9], b[10], b[11]), Word32(b[12], b[13], b[14], b[15]));
    b[8 := Byte32(w.0, 0)][9 := Byte32(w.0, 1)][10 := Byte32(w.0, 2)][11 := Byte32(w.0, 3)]
     [12 := Byte32(w.1, 0)][13 := Byte32(w.1, 1)][14 := Byte32(w.1, 2)][15 := Byte32(w.1, 3)]
  }

  function AddLane(unit: Unit, b: Block): Block {
    match unit
    case Sse => AddLane32(b)
    case Neon => AddLane64(b)
  }

  lemma WordBytes(b0: byte, b1: byte, b2: byte, b3: byte)
    ensures var w := Word32(b0, b1, b2, b3);
            Byte32(w, 0) == b0 && Byte32(w, 1) == b1 && Byte32(w, 2) == b2 && Byte32(w, 3) == b3
    ensures var w := Word32(b0, b1, b2, b3) + 0x0100_0000;
            Byte32(w, 0) == b0 && Byte32(w, 1) == b1 && Byte32(w, 2) == b2 && Byte32(w, 3) == b3 + 1
  {}

  lemma WideAddition(lo: bv32, hi: bv32)
    ensures WideAdd(lo, hi) == (lo, hi + 0x0100_0000)
  {}

  lemma AddLane32IsBumpByte(b: Block)
    ensures AddLane32(b) == BumpByte(b)
  {
    hide Word32, Byte32;
    WordBytes(b[12], b[13], b[14], b[15]);
  }

  lemma OnlyLastByte(b: Block, last: byte)
    ensures b[8 := b[8]][9 := b[9]][10 := b[10]][11 := b[11]][12 := b[12]][13 := b[13]][14 := b[14]][15 := last]
         == b[15 := last]
  {}

  lemma AddLane64IsBumpByte(b: Block)
    ensures AddLane64(b) == BumpByte(b)
  {
    hide Word32, Byte32, WideAdd;
    OnlyLastByte(b, b[15] + 1);
    WordBytes(b[8], b[9], b[10], b[11]);
    WordBytes(b[12], b[13], b[14], b[15]);
    WideAddition(Word32(b[8], b[9], b[10], b[11]), Word32(b[12], b[13], b[14], b[15]));
  }

  /** Both vector additions are the byte increment of the tail loop: neither
      carries out of byte 15. */
  lemma AddLaneIsBumpByte(unit: Unit, b: Block)
    ensures AddLane(unit, b) == BumpByte(b)
  {
    match unit
    case Sse => AddLane32IsBumpByte(b);
    case Neon => AddLane64IsBumpByte(b);
  }
}

/** The table-driven CRC-32 of crc.h against bitwise reflected division by 0xEDB88320
    (RFC 1952, section 8), and the error bursts it is bound to detect. */
module Crc {
  import opened Octets
  import opened Blocks

  type State = bv32

  const POLYNOMIAL: State := 0xEDB88320
  const CRC32_NEGL: State := 0xffff_ffff

  // ----- sums of remainders, kept abstract in the proofs below -----

  function Plus(s: State, t: State): State { s ^ t }

  lemma XorCommutative(s: State, t: State)
    ensures s ^ t == t ^ s
  {}

  lemma XorAssociative(s: State, t: State, u: State)
    ensures (s ^ t) ^ u == s ^ (t ^ u)
  {}

  lemma XorUnit(s: State)
    ensures s ^ s == 0 && s ^ 0 == s && 0 ^ s == s
  {}

  lemma XorTwice(s: State, t: State)
    ensures (s ^ t) ^ t == s
  {}

  lemma PlusCommutes(s: State, t: State)
    ensures Plus(s, t) == Plus(t, s)
  {
    XorCommutative(s, t);
  }

  lemma PlusAssociates(s: State, t: State, u: State)
    ensures Plus(Plus(s, t), u) == Plus(s, Plus(t, u))
  {
    XorAssociative(s, t, u);
  }

  lemma PlusUnit(s: State)
    ensures Plus(s, s) == 0 && Plus(s, 0) == s && Plus(0, s) == s
  {
    XorUnit(s);
  }

  lemma PlusTwice(s: State, t: State)
    ensures Plus(Plus(s, t), t) == s
  {
    XorTwice(s, t);
  }

  lemma PlusExchange(s: State, t: State, u: State, v: State)
    ensures Plus(Plus(s, t), Plus(u, v)) == Plus(Plus(s, u), Plus(t, v))
  {
    hide Plus;
    PlusAssociates(s, t, Plus(u, v));
    PlusAssociates(t, u, v);
    PlusCommutes(t, u);
    PlusAssociates(u, t, v);
    PlusAssociates(s, u, Plus(t, v));
  }

  lemma PlusCancels(s: State, t: State, u: State)
    ensures Plus(s, u) == Plus(t, u) <==> s == t
    ensures Plus(u, s) == Plus(u, t) <==> s == t
    ensures Plus(s, t) == 0 <==> s == t
  {
    hide Plus;
    PlusTwice(s, u);
    PlusTwice(t, u);
    PlusCommutes(s, u);
    PlusCommutes(t, u);
    PlusTwice(s, t);
    PlusUnit(t);
  }

  // ----- division, one bit at a time -----

  /** What is subtracted when the lowest bit is shifted out. */
  function Carry(s: State): State { if s & 1 == 1 then POLYNOMIAL else 0 }

  function Half(s: State): State { s >> 1 }

  /** One step of the reflected division. */
  function Divide1(s: State): State { Plus(Half(s), Carry(s)) }

  function Divide8(s: State): State {
    Divide1(Divide1(Divide1(Divide1(Divide1(Divide1(Divide1(Divide1(s))))))))
  }

  function OfByte(b: byte): State { b as State }

  /** A byte enters at the low end and its eight bits are divided out. */
  function DivideByte(s: State, b: byte): State {
    Divide8(Plus(s, OfByte(b)))
  }

  function DivideAll(s: State, message: seq<byte>): State
    decreases |message|
  {
    if message == [] then s else DivideAll(DivideByte(s, message[0]), message[1..])
  }

  /** The checksum of RFC 1952: all ones at the start, complemented at the end. */
  function Crc32(message: seq<byte>): State {
    Plus(DivideAll(CRC32_NEGL, message), CRC32_NEGL)
  }

  // ----- division is linear -----

  lemma LowBit(s: State, t: State)
    ensures (s ^ t) & 1 == (s & 1) ^ (t & 1)
    ensures s & 1 == 0 || s & 1 == 1
    ensures t & 1 == 0 || t & 1 == 1
  {}

  lemma CarryLinear(s: State, t: State)
    ensures Carry(Plus(s, t)) == Plus(Carry(s), Carry(t))
  {
    LowBit(s, t);
  }

  lemma HalfLinear(s: State, t: State)
    ensures Half(Plus(s, t)) == Plus(Half(s), Half(t))
  {}

  lemma Divide1Linear(s: State, t: State)
    ensures Divide1(Plus(s, t)) == Plus(Divide1(s), Divide1(t))
  {
    hide Carry, Plus, Half;
    CarryLinear(s, t);
    HalfLinear(s, t);
    PlusExchange(Half(s), Carry(s), Half(t), Carry(t));
  }

  lemma Divide8Linear(s: State, t: State)
    ensures Divide8(Plus(s, t)) == Plus(Divide8(s), Divide8(t))
  {
    hide Divide1, Plus;
    var s1, t1 := Divide1(s), Divide1(t);
    var s2, t2 := Divide1(s1), Divide1(t1);
    var s3, t3 := Divide1(s2), Divide1(t2);
    var s4, t4 := Divide1(s3), Divide1(t3);
    var s5, t5 := Divide1(s4), Divide1(t4);
    var s6, t6 := Divide1(s5), Divide1(t5);
    Divide1Linear(s, t);
    Divide1Linear(s1, t1);
    Divide1Linear(s2, t2);
    Divide1Linear(s3, t3);
    Divide1Linear(s4, t4);
    Divide1Linear(s5, t5);
    Divide1Linear(s6, t6);
    Divide1Linear(Divide1(s6), Divide1(t6));
  }

  predicate Even(s: State) { s & 1 == 0 }

  /** A step on a state whose lowest bit is clear only shifts. */
  lemma ShiftOut(s: State)
    requires Even(s)
    ensures Divide1(s) == Half(s)
  {}

  /** The next byte's worth of a state, and back. */
  function Shifted(s: State): State { s >> 8 }
  function Raised(s: State): State { s << 8 }

  lemma RaisedBits(s: State)
    ensures var x := Raised(s); var x2 := Half(Half(x)); var x4 := Half(Half(x2)); var x6 := Half(Half(x4));
            && Even(x) && Even(Half(x)) && Even(x2) && Even(Half(x2))
            && Even(x4) && Even(Half(x4)) && Even(x6) && Even(Half(x6))
            && Half(Half(x6)) == Shifted(x)
  {}

  /** Eight clear bits are shifted out without a subtraction. */
  lemma Divide8OfRaised(s: State)
    ensures Divide8(Raised(s)) == Shifted(Raised(s))
  {
    hide Divide1, Half, Even, Raised, Shifted;
    RaisedBits(s);
    var x := Raised(s);
    var x1 := Half(x); var x2 := Half(x1); var x3 := Half(x2);
    var x4 := Half(x3); var x5 := Half(x4); var x6 := Half(x5); var x7 := Half(x6);
    ShiftOut(x); ShiftOut(x1); ShiftOut(x2); ShiftOut(x3);
    ShiftOut(x4); ShiftOut(x5); ShiftOut(x6); ShiftOut(x7);
  }

  // ----- the table-driven update -----

  /** `CRC32_INDEX` of a little-endian machine; `CRC32_SHIFTED` is `Shifted`. */
  function Index(s: State, b: byte): byte { (s & 0xff) as byte ^ b }

  /** Entry `i` of `m_tab`: the index divided out. */
  function Table(i: byte): State { Divide8(OfByte(i)) }

  function Update(s: State, b: byte): State {
    Plus(Table(Index(s, b)), Shifted(s))
  }

  lemma IndexAndShifted(s: State, b: byte)
    ensures Plus(s, OfByte(b)) == Plus(OfByte(Index(s, b)), Raised(Shifted(s)))
    ensures Shifted(Raised(Shifted(s))) == Shifted(s)
  {}

  /** Looking up the low byte and shifting is the same as dividing the byte out bit by bit. */
  lemma UpdateDivides(s: State, b: byte)
    ensures Update(s, b) == DivideByte(s, b)
  {
    hide Divide8, Plus, Index, OfByte, Shifted, Raised;
    IndexAndShifted(s, b);
    Divide8Linear(OfByte(Index(s, b)), Raised(Shifted(s)));
    Divide8OfRaised(Shifted(s));
  }

  /** Hashing a message in pieces is hashing the whole. */
  lemma {:induction false} DivideAllAppends(s: State, a: seq<byte>, b: seq<byte>)
    ensures DivideAll(s, a + b) == DivideAll(DivideAll(s, a), b)
    decreases |a|
  {
    hide DivideByte;
    if a == [] {
      assert a + b == b;
    } else {
      assert (a + b)[1..] == a[1..] + b;
      DivideAllAppends(DivideByte(s, a[0]), a[1..], b);
    }
  }

  lemma DivideOne(s: State, b: byte)
    ensures DivideAll(s, [b]) == DivideByte(s, b)
  {
    hide DivideByte;
    assert [b][1..] == [];
    assert DivideAll(DivideByte(s, b), []) == DivideByte(s, b);
  }

  /** The CRC32 object: `UpdateByte` and `Reset` overwrite one field. */
  class Crc32Hash {
    var crc: State

    /** What has been hashed since the last reset. */
    ghost var hashed: seq<byte>

    ghost predicate Valid()
      reads this
    {
      crc == DivideAll(CRC32_NEGL, hashed)
    }

    constructor ()
      ensures Valid() && hashed == [] && crc == 0xffff_ffff
    {
      crc, hashed := CRC32_NEGL, [];
    }

    method Reset()
      modifies this
      ensures Valid() && hashed == [] && crc == 0xffff_ffff
    {
      crc, hashed := CRC32_NEGL, [];
    }

    method UpdateByte(b: byte)
      requires Valid()
      modifies this
      ensures Valid() && hashed == old(hashed) + [b]
    {
      hide DivideByte, Plus, Index, Table;
      UpdateDivides(crc, b);
      DivideAllAppends(CRC32_NEGL, hashed, [b]);
      DivideOne(crc, b);
      crc := Plus(Table(Index(crc, b)), Shifted(crc));
      hashed := hashed + [b];
    }
  }

  // ----- nothing is lost: the division can be run backwards -----

  function Multiply1(t: State): State {
    if t & 0x8000_0000 == 0x8000_0000 then (Plus(t, POLYNOMIAL) << 1) | 1 else t << 1
  }

  function Multiply8(t: State): State {
    Multiply1(Multiply1(Multiply1(Multiply1(Multiply1(Multiply1(Multiply1(Multiply1(t))))))))
  }

  lemma OddStep(s: State)
    requires s & 1 == 1
    ensures var t := Plus(Half(s), POLYNOMIAL);
            t & 0x8000_0000 == 0x8000_0000 && (Plus(t, POLYNOMIAL) << 1) | 1 == s
  {}

  lemma EvenStep(s: State)
    requires s & 1 == 0
    ensures Half(s) & 0x8000_0000 == 0 && Half(s) << 1 == s && Plus(Half(s), 0) == Half(s)
  {}

  lemma Multiply1Undoes(s: State)
    ensures Multiply1(Divide1(s)) == s
  {
    hide Plus, Half;
    LowBit(s, s);
    if s & 1 == 1 {
      OddStep(s);
    } else {
      EvenStep(s);
    }
  }

  lemma TopStep(t: State)
    requires t & 0x8000_0000 == 0x8000_0000
    ensures var s := (Plus(t, POLYNOMIAL) << 1) | 1;
            s & 1 == 1 && Plus(Half(s), POLYNOMIAL) == t
  {}

  lemma LowStep(t: State)
    requires t & 0x8000_0000 != 0x8000_0000
    ensures (t << 1) & 1 == 0 && Half(t << 1) == t && Plus(t, 0) == t
  {}

  lemma Divide1Undoes(t: State)
    ensures Divide1(Multiply1(t)) == t
  {
    hide Plus, Half;
    if t & 0x8000_0000 == 0x8000_0000 {
      TopStep(t);
    } else {
      LowStep(t);
    }
  }

  lemma Multiply8Undoes(s: State)
    ensures Multiply8(Divide8(s)) == s
  {
    hide Divide1, Multiply1;
    var s1 := Divide1(s); var s2 := Divide1(s1); var s3 := Divide1(s2); var s4 := Divide1(s3);
    var s5 := Divide1(s4); var s6 := Divide1(s5); var s7 := Divide1(s6);
    Multiply1Undoes(s); Multiply1Undoes(s1); Multiply1Undoes(s2); Multiply1Undoes(s3);
    Multiply1Undoes(s4); Multiply1Undoes(s5); Multiply1Undoes(s6); Multiply1Undoes(s7);
  }

  lemma Divide8Undoes(t: State)
    ensures Divide8(Multiply8(t)) == t
  {
    hide Divide1, Multiply1;
    var t1 := Multiply1(t); var t2 := Multiply1(t1); var t3 := Multiply1(t2); var t4 := Multiply1(t3);
    var t5 := Multiply1(t4); var t6 := Multiply1(t5); var t7 := Multiply1(t6);
    Divide1Undoes(t); Divide1Undoes(t1); Divide1Undoes(t2); Divide1Undoes(t3);
    Divide1Undoes(t4); Divide1Undoes(t5); Divide1Undoes(t6); Divide1Undoes(t7);
  }

  /** For a fixed byte the update is injective in the state. */
  lemma UpdateInjective(s: State, t: State, b: byte)
    ensures Update(s, b) == Update(t, b) <==> s == t
  {
    hide Divide8, Multiply8, Plus, Update, OfByte;
    UpdateDivides(s, b);
    UpdateDivides(t, b);
    Multiply8Undoes(Plus(s, OfByte(b)));
    Multiply8Undoes(Plus(t, OfByte(b)));
    PlusCancels(s, t, OfByte(b));
  }

  lemma {:induction false} DivideAllInjective(s: State, t: State, message: seq<byte>)
    ensures DivideAll(s, message) == DivideAll(t, message) <==> s == t
    decreases |message|
  {
    hide DivideByte, Update;
    if message != [] {
      var b := message[0];
      UpdateInjective(s, t, b);
      UpdateDivides(s, b);
      UpdateDivides(t, b);
      DivideAllInjective(DivideByte(s, b), DivideByte(t, b), message[1..]);
    }
  }

  // ----- four bytes are worth one state -----

  function Divide32(s: State): State { Divide8(Divide8(Divide8(Divide8(s)))) }

  function Multiply32(t: State): State { Multiply8(Multiply8(Multiply8(Multiply8(t)))) }

  lemma Multiply32Undoes(s: State)
    ensures Multiply32(Divide32(s)) == s
  {
    hide Divide8, Multiply8;
    var s1 := Divide8(s); var s2 := Divide8(s1); var s3 := Divide8(s2);
    Multiply8Undoes(s); Multiply8Undoes(s1); Multiply8Undoes(s2); Multiply8Undoes(s3);
  }

  lemma Divide32Undoes(t: State)
    ensures Divide32(Multiply32(t)) == t
  {
    hide Divide8, Multiply8;
    var t1 := Multiply8(t); var t2 := Multiply8(t1); var t3 := Multiply8(t2);
    Divide8Undoes(t); Divide8Undoes(t1); Divide8Undoes(t2); Divide8Undoes(t3);
  }

  lemma WordSplits(b0: byte, b1: byte, b2: byte, b3: byte)
    ensures Word32(b0, b1, b2, b3) == Plus(OfByte(b0), Raised(Word32(b1, b2, b3, 0)))
    ensures Shifted(Raised(Word32(b1, b2, b3, 0))) == Word32(b1, b2, b3, 0)
  {}

  /** Absorbing the low byte of a word leaves the other three to be absorbed. */
  lemma AbsorbLow(s: State, b0: byte, b1: byte, b2: byte, b3: byte)
    ensures Divide8(Plus(s, Word32(b0, b1, b2, b3))) == Plus(DivideByte(s, b0), Word32(b1, b2, b3, 0))
  {
    hide Divide8, Plus, Word32, OfByte, Raised, Shifted;
    WordSplits(b0, b1, b2, b3);
    var hi := Word32(b1, b2, b3, 0);
    PlusAssociates(s, OfByte(b0), Raised(hi));
    Divide8Linear(Plus(s, OfByte(b0)), Raised(hi));
    Divide8OfRaised(hi);
  }

  /** Absorbing four bytes is one 32-bit division of the state masked with them. */
  lemma FourBytesAsOneWord(s: State, b0: byte, b1: byte, b2: byte, b3: byte)
    ensures DivideAll(s, [b0, b1, b2, b3]) == Divide32(Plus(s, Word32(b0, b1, b2, b3)))
  {
    hide Divide8, DivideByte, Plus, Word32;
    var s1 := DivideByte(s, b0); var s2 := DivideByte(s1, b1); var s3 := DivideByte(s2, b2);
    AbsorbLow(s, b0, b1, b2, b3);
    AbsorbLow(s1, b1, b2, b3, 0);
    AbsorbLow(s2, b2, b3, 0, 0);
    AbsorbLow(s3, b3, 0, 0, 0);
    NothingLeft(DivideByte(s3, b3));
    FourSteps(s, b0, b1, b2, b3);
  }

  lemma NothingLeft(s: State)
    ensures Plus(s, Word32(0, 0, 0, 0)) == s
  {}

  lemma FourSteps(s: State, b0: byte, b1: byte, b2: byte, b3: byte)
    ensures DivideAll(s, [b0, b1, b2, b3]) == DivideByte(DivideByte(DivideByte(DivideByte(s, b0), b1), b2), b3)
  {
    hide DivideByte;
    assert [b0, b1, b2, b3] == [b0] + ([b1] + ([b2] + [b3]));
    var s1 := DivideByte(s, b0); var s2 := DivideByte(s1, b1); var s3 := DivideByte(s2, b2);
    DivideAllAppends(s, [b0], [b1] + ([b2] + [b3]));
    DivideAllAppends(s1, [b1], [b2] + [b3]);
    DivideAllAppends(s2, [b2], [b3]);
    DivideOne(s, b0);
    DivideOne(s1, b1);
    DivideOne(s2, b2);
    DivideOne(s3, b3);
  }

  lemma WordInjective(b0: byte, b1: byte, b2: byte, b3: byte, c0: byte, c1: byte, c2: byte, c3: byte)
    ensures Word32(b0, b1, b2, b3) == Word32(c0, c1, c2, c3) ==> b0 == c0 && b1 == c1 && b2 == c2 && b3 == c3
  {}

  /** From one state, different four-byte strings lead to different states... */
  lemma FourBytesInjective(s: State, a: seq<byte>, b: seq<byte>)
    requires |a| == |b| == 4
    ensures DivideAll(s, a) == DivideAll(s, b) <==> a == b
  {
    hide Divide32, Multiply32, Word32, Plus, DivideByte;
    assert a == [a[0], a[1], a[2], a[3]] && b == [b[0], b[1], b[2], b[3]];
    FourBytesAsOneWord(s, a[0], a[1], a[2], a[3]);
    FourBytesAsOneWord(s, b[0], b[1], b[2], b[3]);
    var wa, wb := Word32(a[0], a[1], a[2], a[3]), Word32(b[0], b[1], b[2], b[3]);
    Multiply32Undoes(Plus(s, wa));
    Multiply32Undoes(Plus(s, wb));
    PlusCancels(wa, wb, s);
    WordInjective(a[0], a[1], a[2], a[3], b[0], b[1], b[2], b[3]);
  }

  /** ... and every state is reached. */
  lemma FourBytesSurjective(s: State, t: State)
    ensures exists c: seq<byte> :: |c| == 4 && DivideAll(s, c) == t
  {
    hide Divide32, Multiply32, Word32, Byte32, Plus, DivideByte;
    var w := Plus(s, Multiply32(t));
    var c := [Byte32(w, 0), Byte32(w, 1), Byte32(w, 2), Byte32(w, 3)];
    FourBytesAsOneWord(s, c[0], c[1], c[2], c[3]);
    WordOfBytes(w);
    PlusAssociates(s, s, Multiply32(t));
    PlusUnit(s);
    PlusUnit(Multiply32(t));
    Divide32Undoes(t);
    assert |c| == 4 && DivideAll(s, c) == t;
  }

  // ----- bursts -----

  /** `a` and `b` have one length and agree outside the four bytes from `at`. */
  predicate DifferInBurst(a: seq<byte>, b: seq<byte>, at: nat) {
    && |a| == |b|
    && (forall i :: 0 <= i < |a| && !(at <= i < at + 4) ==> a[i] == b[i])
  }

  lemma BurstInside(a: seq<byte>, b: seq<byte>, at: nat)
    requires DifferInBurst(a, b, at) && at + 4 <= |a| && a != b
    ensures DivideAll(CRC32_NEGL, a) != DivideAll(CRC32_NEGL, b)
  {
    hide DivideByte;
    var pre, post := a[..at], a[at + 4..];
    var x, y := a[at..at + 4], b[at..at + 4];
    assert a == pre + (x + post);
    assert b[..at] == pre && b[at + 4..] == post;
    assert b == pre + (y + post);
    DivideAllAppends(CRC32_NEGL, pre, x + post);
    DivideAllAppends(CRC32_NEGL, pre, y + post);
    var s := DivideAll(CRC32_NEGL, pre);
    DivideAllAppends(s, x, post);
    DivideAllAppends(s, y, post);
    FourBytesInjective(s, x, y);
    DivideAllInjective(DivideAll(s, x), DivideAll(s, y), post);
  }

  /** Up to four bytes from one state determine the bytes. */
  lemma {:induction false} ShortInjective(s: State, a: seq<byte>, b: seq<byte>)
    requires |a| == |b| <= 4
    ensures DivideAll(s, a) == DivideAll(s, b) <==> a == b
    decreases 4 - |a|
  {
    hide DivideByte;
    if |a| == 4 {
      FourBytesInjective(s, a, b);
    } else {
      var z: seq<byte> := [0];
      DivideAllAppends(s, a, z);
      DivideAllAppends(s, b, z);
      DivideAllInjective(DivideAll(s, a), DivideAll(s, b), z);
      assert a == (a + z)[..|a|] && b == (b + z)[..|b|];
      ShortInjective(s, a + z, b + z);
    }
  }

  /** Messages of one length that differ, and only within four consecutive bytes, have
      different checksums. */
  lemma BurstDetected(a: seq<byte>, b: seq<byte>, at: nat)
    requires DifferInBurst(a, b, at) && a != b
    ensures Crc32(a) != Crc32(b)
  {
    hide DivideByte, Plus;
    if |a| < 4 {
      ShortInjective(CRC32_NEGL, a, b);
    } else {
      BurstInside(a, b, if at + 4 <= |a| then at else |a| - 4);
    }
    PlusCancels(DivideAll(CRC32_NEGL, a), DivideAll(CRC32_NEGL, b), CRC32_NEGL);
  }

  // ----- bursts of bits -----

  type Bits = seq<bool>

  predicate HasBit(b: byte, weight: byte) { b & weight != 0 }

  predicate Odd(w: State) { w & 1 != 0 }

  /** The bits of a byte in the order they are divided out, lowest first. */
  function BitsOf(b: byte): (r: Bits)
    ensures |r| == 8
  {
    [HasBit(b, 1), HasBit(b, 2), HasBit(b, 4), HasBit(b, 8), HasBit(b, 16), HasBit(b, 32), HasBit(b, 64), HasBit(b, 128)]
  }

  function MessageBits(message: seq<byte>): (r: Bits)
    ensures |r| == 8 * |message|
    decreases |message|
  {
    if message == [] then [] else BitsOf(message[0]) + MessageBits(message[1..])
  }

  function BitState(bit: bool): State { if bit then 1 else 0 }

  /** The division, a bit at a time. */
  function DivideBits(s: State, bits: Bits): State
    decreases |bits|
  {
    if bits == [] then s else DivideBits(Divide1(Plus(s, BitState(bits[0]))), bits[1..])
  }

  lemma {:induction false} DivideBitsAppends(s: State, a: Bits, b: Bits)
    ensures DivideBits(s, a + b) == DivideBits(DivideBits(s, a), b)
    decreases |a|
  {
    hide Divide1, Plus;
    if a == [] {
      assert a + b == b;
    } else {
      assert (a + b)[1..] == a[1..] + b;
      DivideBitsAppends(Divide1(Plus(s, BitState(a[0]))), a[1..], b);
    }
  }

  lemma {:induction false} DivideBitsInjective(s: State, t: State, bits: Bits)
    ensures DivideBits(s, bits) == DivideBits(t, bits) <==> s == t
    decreases |bits|
  {
    hide Divide1, Plus, Multiply1, BitState;
    if bits != [] {
      var x := BitState(bits[0]);
      Multiply1Undoes(Plus(s, x));
      Multiply1Undoes(Plus(t, x));
      PlusCancels(s, t, x);
      DivideBitsInjective(Divide1(Plus(s, x)), Divide1(Plus(t, x)), bits[1..]);
    }
  }

  /** Dividing a word is dividing its lowest bit and then the rest of it. */
  lemma LowBitFirst(s: State, w: State)
    ensures Divide1(Plus(s, w)) == Plus(Divide1(Plus(s, w & 1)), Half(w))
  {
    hide Divide1, Plus, Half, Even;
    LowBitSplits(w);
    PlusAssociates(s, w & 1, Half(w) << 1);
    Divide1Linear(Plus(s, w & 1), Half(w) << 1);
    ShiftOut(Half(w) << 1);
  }

  lemma LowBitSplits(w: State)
    ensures w == Plus(w & 1, Half(w) << 1)
    ensures Even(Half(w) << 1) && Half(Half(w) << 1) == Half(w)
  {}

  lemma NextBit(s: State, bits: Bits, k: nat)
    requires k < |bits|
    ensures DivideBits(s, bits[k..]) == DivideBits(Divide1(Plus(s, BitState(bits[k]))), bits[k + 1..])
  {
    hide Divide1, Plus, BitState;
    assert bits[k..][1..] == bits[k + 1..];
  }

  /** Bit `w & 1` of what is left of the byte enters the division. */
  lemma BitEnters(s: State, w: State, bits: Bits, k: nat)
    requires k < |bits| && (bits[k] <==> Odd(w))
    ensures var s' := Divide1(Plus(s, BitState(bits[k])));
      && DivideBits(s, bits[k..]) == DivideBits(s', bits[k + 1..])
      && Divide1(Plus(s, w)) == Plus(s', Half(w))
  {
    hide Divide1, Plus, Half, DivideBits, Odd;
    NextBit(s, bits, k);
    LowBitFirst(s, w);
    LowBitValue(w);
  }

  lemma LowBitValue(w: State)
    ensures w & 1 == if Odd(w) then 1 else 0
  {}

  lemma ByteHalves(b: byte)
    ensures var w0 := OfByte(b); var w1 := Half(w0); var w2 := Half(w1); var w3 := Half(w2);
            var w4 := Half(w3); var w5 := Half(w4); var w6 := Half(w5); var w7 := Half(w6);
      && (Odd(w0) <==> HasBit(b, 1)) && (Odd(w1) <==> HasBit(b, 2))
      && (Odd(w2) <==> HasBit(b, 4)) && (Odd(w3) <==> HasBit(b, 8))
      && (Odd(w4) <==> HasBit(b, 16)) && (Odd(w5) <==> HasBit(b, 32))
      && (Odd(w6) <==> HasBit(b, 64)) && (Odd(w7) <==> HasBit(b, 128))
      && Half(w7) == 0
  {}

  lemma BitsOfHalves(b: byte)
    ensures var w0 := OfByte(b); var w1 := Half(w0); var w2 := Half(w1); var w3 := Half(w2);
            var w4 := Half(w3); var w5 := Half(w4); var w6 := Half(w5); var w7 := Half(w6);
            var x := BitsOf(b);
      && (Odd(w0) <==> x[0]) && (Odd(w1) <==> x[1]) && (Odd(w2) <==> x[2]) && (Odd(w3) <==> x[3])
      && (Odd(w4) <==> x[4]) && (Odd(w5) <==> x[5]) && (Odd(w6) <==> x[6]) && (Odd(w7) <==> x[7])
      && Half(w7) == 0
  {
    hide OfByte, Half, Odd, HasBit;
    ByteHalves(b);
  }

  lemma ByteAsBits(s: State, b: byte)
    ensures DivideBits(s, BitsOf(b)) == DivideByte(s, b)
  {
    hide Divide1, Plus, OfByte, Half, BitState, DivideBits;
    hide BitsOf, Odd;
    BitsOfHalves(b);
    var x := BitsOf(b);
    var w0 := OfByte(b); var w1 := Half(w0); var w2 := Half(w1); var w3 := Half(w2);
    var w4 := Half(w3); var w5 := Half(w4); var w6 := Half(w5); var w7 := Half(w6);
    var s1 := Divide1(Plus(s, BitState(x[0]))); var s2 := Divide1(Plus(s1, BitState(x[1])));
    var s3 := Divide1(Plus(s2, BitState(x[2]))); var s4 := Divide1(Plus(s3, BitState(x[3])));
    var s5 := Divide1(Plus(s4, BitState(x[4]))); var s6 := Divide1(Plus(s5, BitState(x[5])));
    var s7 := Divide1(Plus(s6, BitState(x[6]))); var s8 := Divide1(Plus(s7, BitState(x[7])));
    BitEnters(s, w0, x, 0); BitEnters(s1, w1, x, 1); BitEnters(s2, w2, x, 2); BitEnters(s3, w3, x, 3);
    BitEnters(s4, w4, x, 4); BitEnters(s5, w5, x, 5); BitEnters(s6, w6, x, 6); BitEnters(s7, w7, x, 7);
    assert x[0..] == x && x[8..] == [];
    NoBits(s8);
    PlusUnit(s8);
  }

  lemma NoBits(s: State)
    ensures DivideBits(s, []) == s
  {}

  /** Byte by byte or bit by bit, the division is the same. */
  lemma {:induction false} MessageAsBits(s: State, message: seq<byte>)
    ensures DivideBits(s, MessageBits(message)) == DivideAll(s, message)
    decreases |message|
  {
    hide DivideByte, BitsOf;
    if message != [] {
      DivideBitsAppends(s, BitsOf(message[0]), MessageBits(message[1..]));
      ByteAsBits(s, message[0]);
      MessageAsBits(DivideByte(s, message[0]), message[1..]);
    }
  }

  function Weight(bit: bool, w: byte): byte { if bit then w else 0 }

  /** The byte of eight bits. */
  function ByteOf(x: Bits): byte
    requires |x| == 8
  {
    Weight(x[0], 1) | Weight(x[1], 2) | Weight(x[2], 4) | Weight(x[3], 8)
    | Weight(x[4], 16) | Weight(x[5], 32) | Weight(x[6], 64) | Weight(x[7], 128)
  }

  lemma BitsOfByteOf(x: Bits)
    requires |x| == 8
    ensures BitsOf(ByteOf(x)) == x
  {
    hide ByteOf, HasBit;
    BitsSet(x);
    var y := BitsOf(ByteOf(x));
    assert y[0] == x[0] && y[1] == x[1] && y[2] == x[2] && y[3] == x[3];
    assert y[4] == x[4] && y[5] == x[5] && y[6] == x[6] && y[7] == x[7];
  }

  lemma BitsSet(x: Bits)
    requires |x| == 8
    ensures var w := ByteOf(x);
      && (HasBit(w, 1) <==> x[0]) && (HasBit(w, 2) <==> x[1]) && (HasBit(w, 4) <==> x[2]) && (HasBit(w, 8) <==> x[3])
      && (HasBit(w, 16) <==> x[4]) && (HasBit(w, 32) <==> x[5]) && (HasBit(w, 64) <==> x[6]) && (HasBit(w, 128) <==> x[7])
  {
    hide Weight, HasBit;
    EightBits(x[0], x[1], x[2], x[3], x[4], x[5], x[6], x[7]);
  }

  lemma EightBits(a: bool, b: bool, c: bool, d: bool, e: bool, f: bool, g: bool, h: bool)
    ensures var w := Weight(a, 1) | Weight(b, 2) | Weight(c, 4) | Weight(d, 8)
                   | Weight(e, 16) | Weight(f, 32) | Weight(g, 64) | Weight(h, 128);
      && (HasBit(w, 1) <==> a) && (HasBit(w, 2) <==> b) && (HasBit(w, 4) <==> c) && (HasBit(w, 8) <==> d)
      && (HasBit(w, 16) <==> e) && (HasBit(w, 32) <==> f) && (HasBit(w, 64) <==> g) && (HasBit(w, 128) <==> h)
  {}

  /** Thirty-two bits, wherever they start, are the bits of four bytes. */
  function FourBytesOf(x: Bits): (r: seq<byte>)
    requires |x| == 32
    ensures |r| == 4
  {
    [ByteOf(x[..8]), ByteOf(x[8..16]), ByteOf(x[16..24]), ByteOf(x[24..])]
  }

  lemma NextByte(r: seq<byte>, k: nat)
    requires k < |r|
    ensures MessageBits(r[k..]) == BitsOf(r[k]) + MessageBits(r[k + 1..])
  {
    hide BitsOf;
    assert r[k..][1..] == r[k + 1..];
  }

  lemma NoMessage()
    ensures MessageBits([]) == []
  {}

  lemma BitsOfFourBytes(x: Bits)
    requires |x| == 32
    ensures MessageBits(FourBytesOf(x)) == x
  {
    hide BitsOf, ByteOf;
    var r := FourBytesOf(x);
    BitsOfByteOf(x[..8]);
    BitsOfByteOf(x[8..16]);
    BitsOfByteOf(x[16..24]);
    BitsOfByteOf(x[24..]);
    NextByte(r, 0);
    NextByte(r, 1);
    NextByte(r, 2);
    NextByte(r, 3);
    hide MessageBits;
    assert r[0..] == r && r[4..] == [];
    NoMessage();
    assert x == x[..8] + (x[8..16] + (x[16..24] + (x[24..] + [])));
  }

  lemma WordOfBitsInjective(s: State, x: Bits, y: Bits)
    requires |x| == |y| == 32
    ensures DivideBits(s, x) == DivideBits(s, y) <==> x == y
  {
    hide DivideAll, MessageBits, FourBytesOf, DivideBits;
    BitsOfFourBytes(x);
    BitsOfFourBytes(y);
    MessageAsBits(s, FourBytesOf(x));
    MessageAsBits(s, FourBytesOf(y));
    FourBytesInjective(s, FourBytesOf(x), FourBytesOf(y));
  }

  /** `x` and `y` have one length and agree outside the 32 bits from `at`. */
  predicate BitBurst(x: Bits, y: Bits, at: nat) {
    && |x| == |y|
    && (forall i :: 0 <= i < |x| && !(at <= i < at + 32) ==> x[i] == y[i])
  }

  lemma BitBurstInside(s: State, x: Bits, y: Bits, at: nat)
    requires BitBurst(x, y, at) && at + 32 <= |x| && x != y
    ensures DivideBits(s, x) != DivideBits(s, y)
  {
    hide DivideBits;
    var pre, post := x[..at], x[at + 32..];
    var u, v := x[at..at + 32], y[at..at + 32];
    assert x == pre + (u + post);
    assert y[..at] == pre && y[at + 32..] == post;
    assert y == pre + (v + post);
    DivideBitsAppends(s, pre, u + post);
    DivideBitsAppends(s, pre, v + post);
    var s' := DivideBits(s, pre);
    DivideBitsAppends(s', u, post);
    DivideBitsAppends(s', v, post);
    WordOfBitsInjective(s', u, v);
    DivideBitsInjective(DivideBits(s', u), DivideBits(s', v), post);
  }

  lemma {:induction false} MessageBitsInjective(a: seq<byte>, b: seq<byte>)
    requires |a| == |b|
    ensures MessageBits(a) == MessageBits(b) <==> a == b
    decreases |a|
  {
    hide BitsOf;
    if a != [] && MessageBits(a) == MessageBits(b) {
      assert MessageBits(a)[..8] == BitsOf(a[0]) && MessageBits(b)[..8] == BitsOf(b[0]);
      assert MessageBits(a)[8..] == MessageBits(a[1..]) && MessageBits(b)[8..] == MessageBits(b[1..]);
      BitsInjective(a[0], b[0]);
      MessageBitsInjective(a[1..], b[1..]);
      assert a == [a[0]] + a[1..] && b == [b[0]] + b[1..];
    }
  }

  lemma BitsInjective(x: byte, y: byte)
    ensures BitsOf(x) == BitsOf(y) ==> x == y
  {
    hide HasBit;
    var p, q := BitsOf(x), BitsOf(y);
    if p == q {
      assert p[0] == q[0] && p[1] == q[1] && p[2] == q[2] && p[3] == q[3];
      assert p[4] == q[4] && p[5] == q[5] && p[6] == q[6] && p[7] == q[7];
      SameBits(x, y);
    }
  }

  lemma SameBits(x: byte, y: byte)
    requires (HasBit(x, 1) <==> HasBit(y, 1)) && (HasBit(x, 2) <==> HasBit(y, 2)) && (HasBit(x, 4) <==> HasBit(y, 4))
    requires (HasBit(x, 8) <==> HasBit(y, 8)) && (HasBit(x, 16) <==> HasBit(y, 16)) && (HasBit(x, 32) <==> HasBit(y, 32))
    requires (HasBit(x, 64) <==> HasBit(y, 64)) && (HasBit(x, 128) <==> HasBit(y, 128))
    ensures x == y
  {}

  /** `a` and `b` have one length and agree outside the 32 bits from bit `at`. */
  predicate DifferInBits(a: seq<byte>, b: seq<byte>, at: nat) {
    |a| == |b| && BitBurst(MessageBits(a), MessageBits(b), at)
  }

  /** Messages of one length that differ, and only within 32 consecutive bits, have different
      checksums, also when the bits start inside a byte and reach into a fifth. */
  lemma BitBurstDetected(a: seq<byte>, b: seq<byte>, at: nat)
    requires DifferInBits(a, b, at) && a != b
    ensures Crc32(a) != Crc32(b)
  {
    hide DivideAll, DivideBits, Plus, MessageBits;
    if |a| < 4 {
      ShortInjective(CRC32_NEGL, a, b);
    } else {
      var x, y := MessageBits(a), MessageBits(b);
      MessageBitsInjective(a, b);
      BitBurstInside(CRC32_NEGL, x, y, if at + 32 <= |x| then at else |x| - 32);
      MessageAsBits(CRC32_NEGL, a);
      MessageAsBits(CRC32_NEGL, b);
    }
    PlusCancels(DivideAll(CRC32_NEGL, a), DivideAll(CRC32_NEGL, b), CRC32_NEGL);
  }

  // ----- exactly which changes go unnoticed -----

  function XorBytes(a: seq<byte>, b: seq<byte>): (r: seq<byte>)
    requires |a| == |b|
    ensures |r| == |a|
  {
    seq(|a|, i requires 0 <= i < |a| => a[i] ^ b[i])
  }

  lemma BytePlus(s: State, t: State, x: byte, y: byte)
    ensures Plus(Plus(s, t), OfByte(x ^ y)) == Plus(Plus(s, OfByte(x)), Plus(t, OfByte(y)))
  {
    hide Plus, OfByte;
    ByteXor(x, y);
    PlusExchange(s, t, OfByte(x), OfByte(y));
  }

  lemma ByteXor(x: byte, y: byte)
    ensures OfByte(x ^ y) == Plus(OfByte(x), OfByte(y))
  {}

  lemma {:induction false} DivideAllLinear(s: State, t: State, a: seq<byte>, b: seq<byte>)
    requires |a| == |b|
    ensures DivideAll(Plus(s, t), XorBytes(a, b)) == Plus(DivideAll(s, a), DivideAll(t, b))
    decreases |a|
  {
    hide Divide8, Plus, OfByte;
    if a != [] {
      var x := XorBytes(a, b);
      assert x[1..] == XorBytes(a[1..], b[1..]);
      BytePlus(s, t, a[0], b[0]);
      Divide8Linear(Plus(s, OfByte(a[0])), Plus(t, OfByte(b[0])));
      DivideAllLinear(DivideByte(s, a[0]), DivideByte(t, b[0]), a[1..], b[1..]);
    }
  }

  /** Two messages of one length collide exactly when their difference is divisible by the
      polynomial. */
  lemma CollisionIsDivisibility(a: seq<byte>, b: seq<byte>)
    requires |a| == |b|
    ensures Crc32(a) == Crc32(b) <==> DivideAll(0, XorBytes(a, b)) == 0
  {
    hide DivideByte, Plus;
    var s, t := DivideAll(CRC32_NEGL, a), DivideAll(CRC32_NEGL, b);
    DivideAllLinear(CRC32_NEGL, CRC32_NEGL, a, b);
    PlusUnit(CRC32_NEGL);
    PlusCancels(s, t, CRC32_NEGL);
  }

  lemma CrcOfNothing()
    ensures Crc32([]) == 0
  {}

  // ----- the polynomial, by value -----

  /** The table entries of the bytes 0x01, 0x80 and 0xff. */
  lemma TableEntries()
    ensures Table(0x01) == 0x7707_3096 && Table(0x80) == 0xEDB8_8320 && Table(0xff) == 0x2D02_EF8D
  {}

  lemma FirstDigits()
    ensures DivideByte(0xffff_ffff, 49) == 0x7c23_1048
    ensures DivideByte(0x7c23_1048, 50) == 0xb0ac_bb32
    ensures DivideByte(0xb0ac_bb32, 51) == 0x77b7_9c2d
    ensures DivideByte(0x77b7_9c2d, 52) == 0x641c_1f5c
    ensures DivideByte(0x641c_1f5c, 53) == 0x340a_c5e3
  {}

  lemma LastDigits()
    ensures DivideByte(0x340a_c5e3, 54) == 0xf68d_2c9e
    ensures DivideByte(0xf68d_2c9e, 55) == 0xaffc_9660
    ensures DivideByte(0xaffc_9660, 56) == 0x651f_2550
    ensures DivideByte(0x651f_2550, 57) == 0x340b_c6d9
  {}

  lemma DivideNext(s: State, t: State, message: seq<byte>, i: nat)
    requires i < |message| && DivideByte(s, message[i]) == t
    ensures DivideAll(s, message[i..]) == DivideAll(t, message[i + 1..])
  {
    hide DivideByte;
    assert message[i..][1..] == message[i + 1..];
  }

  /** The check value of CRC-32: the checksum of the digits from 1 to 9. */
  lemma CheckValue()
    ensures Crc32([49, 50, 51, 52, 53, 54, 55, 56, 57]) == 0xCBF4_3926
  {
    FirstDigits();
    LastDigits();
    hide DivideByte, DivideAll;
    var d: seq<byte> := [49, 50, 51, 52, 53, 54, 55, 56, 57];
    DivideNext(0xffff_ffff, 0x7c23_1048, d, 0);
    DivideNext(0x7c23_1048, 0xb0ac_bb32, d, 1);
    DivideNext(0xb0ac_bb32, 0x77b7_9c2d, d, 2);
    DivideNext(0x77b7_9c2d, 0x641c_1f5c, d, 3);
    DivideNext(0x641c_1f5c, 0x340a_c5e3, d, 4);
    DivideNext(0x340a_c5e3, 0xf68d_2c9e, d, 5);
    DivideNext(0xf68d_2c9e, 0xaffc_9660, d, 6);
    DivideNext(0xaffc_9660, 0x651f_2550, d, 7);
    DivideNext(0x651f_2550, 0x340b_c6d9, d, 8);
    assert d[0..] == d && d[9..] == [];
    NothingDivided(0x340b_c6d9);
  }

  lemma NothingDivided(s: State)
    ensures DivideAll(s, []) == s
  {}
}

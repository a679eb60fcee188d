/** For every batch with a hazard, a cipher and a memory that show it: the condition under which
    batches may replace single blocks is exact (adv_simd.h). */
module HazardWitnesses {
  import opened Blocks
  import opened BlockProcessing
  import opened Hazards

  /** What a block cipher under one key is: no two blocks have one image. */
  ghost predicate OneToOne(f: Block -> Block) {
    forall a, b :: f(a) == f(b) ==> a == b
  }

  function Same(b: Block): Block { b }

  const TWO: Block := ZERO[0 := 2]

  function SwapOneTwo(b: Block): Block { if b == ONE then TWO else if b == TWO then ONE else b }

  lemma SmallBlocksDiffer()
    ensures ONE != ZERO && TWO != ZERO && ONE != TWO && Xor(TWO, ONE) != ZERO
  {
    assert ONE[0] == 1 && ZERO[0] == 0 && TWO[0] == 2;
    assert Xor(TWO, ONE)[0] == 3;
  }

  lemma SwapIsOneToOne()
    ensures OneToOne(SwapOneTwo) && OneToOne(Same)
  {}

  lemma XorZero(b: Block)
    ensures Xor(ZERO, b) == b && Xor(b, ZERO) == b
  {
    forall i | 0 <= i < 16 ensures Xor(ZERO, b)[i] == b[i] && Xor(b, ZERO)[i] == b[i] {
      assert 0 ^ b[i] == b[i] && b[i] ^ 0 == b[i];
    }
  }

  lemma XorInjective(a: Block, b: Block, c: Block)
    ensures Xor(a, c) == Xor(b, c) <==> a == b
  {
    hide Xor;
    XorCancels(a, c);
    XorCancels(b, c);
  }

  // ----- without a counter, all pointers walk one line -----

  /** How many steps after its store a block is reached by the pointer that starts at `p`. */
  function Gap(l: Layout, p: int): int {
    if l.outputStride == Forward then l.output - p else p - l.output
  }

  lemma GapMeans(l: Layout, i: int)
    requires Moving(l)
    ensures !l.counter ==> l.In(i) == l.Out(i - Gap(l, l.input))
    ensures l.Masked() ==> l.Mask(i) == l.Out(i - Gap(l, l.mask))
  {}

  lemma SamePlace(l: Layout, i: int, j: int)
    requires Moving(l)
    ensures l.Out(i) == l.Out(j) <==> i == j
  {}

  /** Memory that is zero but for the block of step `q`. */
  function OneAt(l: Layout, size: nat, q: int): Memory {
    seq(size, z => if z == l.Out(q) then ONE else ZERO)
  }

  lemma OneAtReads(l: Layout, size: nat, q: int, i: int)
    requires Moving(l) && 0 <= l.Out(i) < size
    ensures OneAt(l, size, q)[l.Out(i)] == if i == q then ONE else ZERO
  {
    SamePlace(l, i, q);
  }

  lemma {:induction false} Stationary(f: Block -> Block, l: Layout, m: Memory, a: nat)
    requires Fits(l, |m|, a)
    requires forall k :: 0 <= k < a ==> StepFits(l, |m|, k) && Step(f, l, m, k) == m
    ensures Serial(f, l, m, 0, a) == m
  {
    StationaryFrom(f, l, m, 0, a);
  }

  lemma {:induction false} StationaryFrom(f: Block -> Block, l: Layout, m: Memory, i: nat, a: nat)
    requires i <= a && Fits(l, |m|, a)
    requires forall k :: 0 <= k < a ==> StepFits(l, |m|, k) && Step(f, l, m, k) == m
    ensures Serial(f, l, m, i, a) == m
    decreases a - i
  {
    hide Step;
    if i < a {
      StationaryFrom(f, l, m, i + 1, a);
    }
  }

  /** The two operands lie `d` and `e` steps back. */
  predicate Operands(l: Layout, d: int, e: int) {
    && l.Masked() && !l.counter
    && ((d == Gap(l, l.input) && e == Gap(l, l.mask)) || (e == Gap(l, l.input) && d == Gap(l, l.mask)))
  }

  lemma PairOutput(l: Layout, m: Memory, i: nat, d: int, e: int)
    requires Moving(l) && Operands(l, d, e) && StepFits(l, |m|, i)
    ensures 0 <= l.Out(i - d) < |m| && 0 <= l.Out(i - e) < |m|
    ensures Output(Same, l, m, i) == Xor(m[l.Out(i - d)], m[l.Out(i - e)])
    ensures Masked(Same, l, m[l.In(i)], m[l.Mask(i)]) == Output(Same, l, m, i)
  {
    hide Xor;
    GapMeans(l, i);
    XorCommutes(m[l.In(i)], m[l.Mask(i)]);
  }

  lemma PairStep(l: Layout, size: nat, q: int, i: nat, d: int, e: int)
    requires Moving(l) && Operands(l, d, e) && StepFits(l, size, i)
    ensures Output(Same, l, OneAt(l, size, q), i) == if (i - d == q) != (i - e == q) then ONE else ZERO
    ensures Step(Same, l, OneAt(l, size, q), i) == OneAt(l, size, q)
       <==> ((i - d == q) != (i - e == q) <==> i == q)
  {
    hide Xor, Output, OneAt;
    var m := OneAt(l, size, q);
    assert |m| == size by { SizeOf(l, size, q); }
    PairOutput(l, m, i, d, e);
    OneAtReads(l, size, q, i - d);
    OneAtReads(l, size, q, i - e);
    OneAtReads(l, size, q, i);
    XorZero(ONE);
    XorZero(ZERO);
    XorItself(ONE);
    OneIsNotZero();
    assert Step(Same, l, m, i)[l.Out(i)] == Output(Same, l, m, i);
  }

  lemma SizeOf(l: Layout, size: nat, q: int)
    ensures |OneAt(l, size, q)| == size
  {}

  lemma OneIsNotZero()
    ensures ONE != ZERO
  {
    SmallBlocksDiffer();
  }

  /** Where the one goes: the block whose store comes too late, or a block that makes it differ. */
  function Place(a: nat, d: int, e: int): int {
    if e > 0 then a else if e < 0 then a - e else a - d
  }

  /** Nothing moves before step `a`, and step `a` then changes its block. */
  lemma PairStart(l: Layout, a: nat, size: nat, d: int, e: int)
    requires Moving(l) && Fits(l, size, a) && StepFits(l, size, a) && Operands(l, d, e)
    requires 1 <= d && (e <= 0 || e > d)
    ensures var m := OneAt(l, size, Place(a, d, e));
      && |m| == size && Serial(Same, l, m, 0, a) == m
      && Output(Same, l, m, a) != m[l.Out(a)]
  {
    hide Output, Step, OneAt;
    var q := Place(a, d, e);
    var m := OneAt(l, size, q);
    SizeOf(l, size, q);
    forall i | 0 <= i < a ensures StepFits(l, size, i) && Step(Same, l, m, i) == m {
      PairStep(l, size, q, i, d, e);
    }
    Stationary(Same, l, m, a);
    PairStep(l, size, q, a, d, e);
    OneAtReads(l, size, q, a);
    OneIsNotZero();
  }

  /** The operand that is not the late store reads the same in both runs. */
  lemma OtherOperand(f: Block -> Block, l: Layout, m: Memory, a: nat, t: nat, e: int)
    requires Moving(l) && a <= t && Fits(l, |m|, t) && 0 <= l.Out(t - e) < |m| && !l.counter
    requires e <= 0 || e > t - a
    ensures Serial(f, l, m, a, t)[l.Out(t - e)] == m[l.Out(t - e)]
  {
    hide Step, Moving;
    forall j | a <= j < t ensures l.Out(j) != l.Out(t - e) {
      SamePlace(l, j, t - e);
    }
    SerialLater(f, l, m, a, t, l.Out(t - e));
  }

  /** A batch reads a block of its own before it is stored. */
  lemma PairSeen(unit: Unit, l: Layout, m: Memory, a: nat, k: nat, d: int, e: int)
    requires Moving(l) && Fits(l, |m|, a + k) && Operands(l, d, e)
    requires 1 <= d < k && (e <= 0 || e > d)
    requires StepFits(l, |m|, a) && Output(Same, l, m, a) != m[l.Out(a)]
    ensures Diverges(unit, Same, l, m, a, k, a + d)
  {
    hide Output, Step, Xor, Transformed, BatchCounter, BatchInput, Moving, Serial, Batch, Masked;
    var t := a + d;
    assert StepFits(l, |m|, t) && Fits(l, |m|, t);
    var s := Serial(Same, l, m, a, t);
    SerialFrom(Same, l, m, a);
    SerialAt(Same, l, m, a, a, t);
    PairOutput(l, s, t, d, e);
    PairOutput(l, m, t, d, e);
    OtherOperand(Same, l, m, a, t, e);
    XorInjective(s[l.Out(a)], m[l.Out(a)], m[l.Out(t - e)]);
    SerialAt(Same, l, m, a, t, a + k);
    BatchAt(unit, Same, l, m, a, k, t);
    BatchOutputHere(unit, Same, l, m, a, k, t);
  }

  lemma SerialFrom(f: Block -> Block, l: Layout, m: Memory, a: nat)
    requires Fits(l, |m|, a)
    ensures Serial(f, l, m, a, a) == m
  {}

  lemma PairWitness(unit: Unit, l: Layout, a: nat, k: nat, size: nat, d: int, e: int)
    requires Moving(l) && Fits(l, size, a) && Fits(l, size, a + k) && Operands(l, d, e)
    requires 1 <= d < k && (e <= 0 || e > d)
    ensures var m := OneAt(l, size, Place(a, d, e));
      |m| == size && Diverges(unit, Same, l, Serial(Same, l, m, 0, a), a, k, a + d)
  {
    hide Output, OneAt, Diverges, Moving, Operands;
    assert StepFits(l, size, a);
    PairStart(l, a, size, d, e);
    PairSeen(unit, l, OneAt(l, size, Place(a, d, e)), a, k, d, e);
  }

  /** Without a counter, a batch reads memory as it stands. */
  lemma BatchOutputHere(unit: Unit, f: Block -> Block, l: Layout, m: Memory, a: nat, k: nat, t: nat)
    requires !l.counter && a <= t < a + k && StepFits(l, |m|, t) && StepFits(l, |m|, a)
    ensures Transformed(f, l, BatchCounter(unit, l, m, a, k), BatchInput(unit, l, m, a, t - a), t)
         == Masked(f, l, m[l.In(t)], if l.Masked() then m[l.Mask(t)] else m[l.In(t)])
  {}

  /** One operand, `d` steps back: no mask, or a block that is its own output mask. */
  predicate OneOperand(l: Layout, d: int) {
    && !l.counter && d == Gap(l, l.input)
    && (l.Masked() ==> l.xorOutput && !l.xorInput && d == Gap(l, l.mask))
  }

  /** What becomes of that operand under a cipher that keeps zero and moves one. */
  function Image(l: Layout, b: Block): Block {
    if l.Masked() then Xor(SwapOneTwo(b), b) else SwapOneTwo(b)
  }

  lemma ImageTells(l: Layout)
    ensures Image(l, ZERO) == ZERO && Image(l, ONE) != ZERO
  {
    SmallBlocksDiffer();
    XorItself(ZERO);
  }

  lemma OneOutput(l: Layout, m: Memory, i: nat, d: int)
    requires Moving(l) && OneOperand(l, d) && StepFits(l, |m|, i)
    ensures 0 <= l.Out(i - d) < |m|
    ensures Output(SwapOneTwo, l, m, i) == Image(l, m[l.Out(i - d)])
    ensures Masked(SwapOneTwo, l, m[l.In(i)], if l.Masked() then m[l.Mask(i)] else m[l.In(i)])
         == Image(l, m[l.Out(i - d)])
  {
    hide Xor, SwapOneTwo;
    GapMeans(l, i);
  }

  lemma OneStart(l: Layout, a: nat, size: nat, d: int)
    requires Moving(l) && Fits(l, size, a) && StepFits(l, size, a) && OneOperand(l, d) && 1 <= d
    ensures var m := OneAt(l, size, a);
      && |m| == size && Serial(SwapOneTwo, l, m, 0, a) == m
      && Output(SwapOneTwo, l, m, a) == ZERO && m[l.Out(a)] == ONE
  {
    hide Output, OneAt, SwapOneTwo, Image;
    var m := OneAt(l, size, a);
    SizeOf(l, size, a);
    ImageTells(l);
    forall i | 0 <= i < a ensures StepFits(l, size, i) && Step(SwapOneTwo, l, m, i) == m {
      assert StepFits(l, size, i);
      OneOutput(l, m, i, d);
      OneAtReads(l, size, a, i - d);
      OneAtReads(l, size, a, i);
    }
    Stationary(SwapOneTwo, l, m, a);
    OneOutput(l, m, a, d);
    OneAtReads(l, size, a, a - d);
    OneAtReads(l, size, a, a);
  }

  lemma OneSeen(unit: Unit, l: Layout, m: Memory, a: nat, k: nat, d: int)
    requires Moving(l) && Fits(l, |m|, a + k) && OneOperand(l, d) && 1 <= d < k
    requires StepFits(l, |m|, a) && Output(SwapOneTwo, l, m, a) == ZERO && m[l.Out(a)] == ONE
    ensures Diverges(unit, SwapOneTwo, l, m, a, k, a + d)
  {
    hide Output, Step, Transformed, BatchCounter, BatchInput, Moving, Serial, Batch, Masked, SwapOneTwo, Image;
    var t := a + d;
    assert StepFits(l, |m|, t) && Fits(l, |m|, t);
    SerialFrom(SwapOneTwo, l, m, a);
    SerialAt(SwapOneTwo, l, m, a, a, t);
    OneOutput(l, Serial(SwapOneTwo, l, m, a, t), t, d);
    OneOutput(l, m, t, d);
    ImageTells(l);
    SerialAt(SwapOneTwo, l, m, a, t, a + k);
    BatchAt(unit, SwapOneTwo, l, m, a, k, t);
    BatchOutputHere(unit, SwapOneTwo, l, m, a, k, t);
  }

  /** Cipher `f` and memory `m` show the hazard of the batch at `a`, at its block `t`. */
  ghost predicate Shows(unit: Unit, f: Block -> Block, l: Layout, m: Memory, a: nat, k: nat, t: nat) {
    && OneToOne(f)
    && Fits(l, |m|, a) && Fits(l, |m|, a + k)
    && Diverges(unit, f, l, Serial(f, l, m, 0, a), a, k, t)
  }

  /** Without a counter, a batch is safe exactly when neither operand lies less than the batch's
      width behind, unless the two are one and the same. */
  lemma SafeByGaps(l: Layout, a: nat, k: nat)
    requires Moving(l) && !l.counter
    ensures BatchSafe(l, a, k) <==>
      SelfMasked(l) || (!(1 <= Gap(l, l.input) < k) && (l.Masked() ==> !(1 <= Gap(l, l.mask) < k)))
  {
    var d, e := Gap(l, l.input), Gap(l, l.mask);
    forall j: int, t: int ensures l.Out(j) == l.In(t) <==> t - j == d {
      GapMeans(l, t);
      SamePlace(l, j, t - d);
    }
    forall j: int, t: int ensures l.Masked() ==> (l.Out(j) == l.Mask(t) <==> t - j == e) {
      GapMeans(l, t);
      if l.Masked() {
        SamePlace(l, j, t - e);
      }
    }
    if 1 <= d < k {
      assert l.Out(a) == l.In(a + d);
    }
    if l.Masked() && 1 <= e < k {
      assert l.Out(a) == l.Mask(a + e);
    }
  }

  lemma PlainWitness(unit: Unit, l: Layout, a: nat, k: nat, size: nat)
    requires Moving(l) && !l.counter && Fits(l, size, a) && Fits(l, size, a + k) && !BatchSafe(l, a, k)
    ensures exists f: Block -> Block, m: Memory, t: nat :: |m| == size && Shows(unit, f, l, m, a, k, t)
  {
    hide BatchSafe, Diverges, OneAt, Fits, Moving, SwapOneTwo, Same;
    SwapIsOneToOne();
    SafeByGaps(l, a, k);
    var d, e := Gap(l, l.input), Gap(l, l.mask);
    FitsStep(l, size, a, k);
    if OneOperand(l, d) {
      OneStart(l, a, size, d);
      var m := OneAt(l, size, a);
      OneSeen(unit, l, m, a, k, d);
      assert Shows(unit, SwapOneTwo, l, m, a, k, a + d);
    } else {
      GapsDiffer(l);
      var near := if 1 <= d < k && !(1 <= e < d) then d else e;
      var far := if near == d then e else d;
      PairWitness(unit, l, a, k, size, near, far);
      var m := OneAt(l, size, Place(a, near, far));
      assert Shows(unit, Same, l, m, a, k, a + near);
    }
  }

  lemma FitsStep(l: Layout, size: nat, a: nat, k: nat)
    requires Fits(l, size, a + k)
    ensures 0 < k ==> StepFits(l, size, a)
  {}

  lemma GapsDiffer(l: Layout)
    requires Moving(l) && !l.counter && !SelfMasked(l) && !OneOperand(l, Gap(l, l.input))
    ensures l.Masked() && Gap(l, l.input) != Gap(l, l.mask)
  {}
}

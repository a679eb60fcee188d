/** The hazards of counter mode, and the theorem for every layout that moves (adv_simd.h). */
module ExactHazards {
  import opened Octets
  import opened Blocks
  import opened BlockProcessing
  import opened Hazards
  import opened HazardWitnesses
  import opened Wrappers

  /** Wider batches could bring the counter byte round to where it was. */
  const WIDEST := 128

  const ONES: Block := [255, 255, 255, 255, 255, 255, 255, 255, 255, 255, 255, 255, 255, 255, 255, 255]

  function XorWith(d: Block): Block -> Block { (b: Block) => Xor(b, d) }

  function SwapZeroOne(b: Block): Block { if b == ZERO then ONE else if b == ONE then ZERO else b }

  lemma CiphersOneToOne(d: Block)
    ensures OneToOne(XorWith(d)) && OneToOne(SwapZeroOne) && OneToOne(Same)
  {
    hide Xor;
    SmallBlocksDiffer();
    forall a, b | XorWith(d)(a) == XorWith(d)(b) ensures a == b {
      XorInjective(a, b, d);
    }
  }

  // ----- counters in motion -----

  lemma BumpsDiffer(b: Block, i: nat, j: nat)
    requires i < j < i + 256
    ensures Bumps(b, i) != Bumps(b, j)
  {
    hide Bumps, CounterByte;
    BumpsAddModulo256(b, i);
    BumpsAddModulo256(b, j);
    Modulo256Moves(CounterByte(b), i, j);
  }

  lemma Modulo256Moves(z: nat, i: nat, j: nat)
    requires i < j < i + 256
    ensures (z + i) % 256 != (z + j) % 256
  {}

  /** Complementing does not commute with advancing by less than half the range. */
  lemma ComplementDiffers(b: Block, r: nat)
    requires 0 < r < WIDEST
    ensures Bumps(Xor(ONES, b), r) != Xor(ONES, Bumps(b, r))
  {
    hide Bumps, CounterByte, Xor;
    BumpsAddModulo256(Xor(ONES, b), r);
    BumpsAddModulo256(b, r);
    Complement(b);
    Complement(Bumps(b, r));
    BumpWraps(b);
    ComplementMoves(CounterByte(b), r);
  }

  lemma Complement(b: Block)
    ensures CounterByte(Xor(ONES, b)) == 255 - CounterByte(b)
  {
    ComplementDigit(b[15]);
  }

  lemma ComplementMoves(z: nat, r: nat)
    requires z < 256 && 0 < r < WIDEST
    ensures (255 - z + r) % 256 != 255 - (z + r) % 256
  {}

  /** The counter before step `t`, as long as nothing is stored on it. */
  lemma CounterAt(f: Block -> Block, l: Layout, m: Memory, a: nat, t: nat)
    requires Moving(l) && l.counter && a <= t && Fits(l, |m|, t) && 0 <= l.input < |m|
    requires NotStored(l, l.input, a, t)
    ensures Serial(f, l, m, a, t)[l.input] == Bumps(m[l.input], t - a)
  {
    hide Step;
    SerialLater(f, l, m, a, t, l.input);
  }

  /** The counter as a batch sees it: its inputs, and its output masks. */
  lemma CounterInBatch(unit: Unit, l: Layout, m: Memory, a: nat, k: nat, t: nat)
    requires Moving(l) && l.counter && a <= t && StepFits(l, |m|, a) && StepFits(l, |m|, t)
    ensures l.In(t) == l.In(a) == l.input && 0 <= l.input < |m|
    ensures BatchInput(unit, l, m, a, t - a) == Bumps(m[l.input], t - a)
    ensures BatchCounter(unit, l, m, a, k) == m[l.input := Bumps(m[l.input], k)]
  {
    hide LaneBumps, Bumps;
    LaneBumpsAreBumps(unit, m[l.input], t - a);
    LaneBumpsAreBumps(unit, m[l.input], k);
  }

  lemma BumpedCounter(l: Layout, m: Memory, t: nat)
    requires Moving(l) && l.counter && StepFits(l, |m|, t)
    ensures 0 <= l.input < |m| && Bumped(l, m, t) == m[l.input := Bumps(m[l.input], 1)]
  {
    assert Bumps(m[l.input], 0) == m[l.input];
    assert Bumps(m[l.input], 1) == BumpByte(Bumps(m[l.input], 0));
  }

  lemma FitsAt(l: Layout, size: nat, a: nat, k: nat, t: nat)
    requires Fits(l, size, a + k) && a <= t < a + k
    ensures StepFits(l, size, t) && StepFits(l, size, a) && Fits(l, size, t)
  {}

  lemma BumpsFromZero(b: Block)
    ensures Bumps(b, 0) == b
  {}

  /** What step `t` computes from counter and mask. */
  function Masking(f: Block -> Block, l: Layout, x: Block, mask: Block): Block {
    if l.xorInput then f(Xor(x, mask)) else if l.xorOutput then Xor(f(x), mask) else f(x)
  }

  lemma CounterOutput(f: Block -> Block, l: Layout, m: Memory, t: nat)
    requires Moving(l) && l.counter && StepFits(l, |m|, t)
    ensures 0 <= l.input < |m|
    ensures var b := Bumps(m[l.input], if l.xorOutput then 1 else 0);
      Output(f, l, m, t) == Masking(f, l, m[l.input],
        if !l.Masked() then ZERO else if l.Mask(t) == l.input then b else m[l.Mask(t)])
  {
    hide Xor, Bumps, Bumped;
    BumpsFromZero(m[l.input]);
    BumpedCounter(l, m, t);
  }

  lemma CounterTransformed(unit: Unit, f: Block -> Block, l: Layout, m: Memory, a: nat, k: nat, t: nat)
    requires Moving(l) && l.counter && a <= t && StepFits(l, |m|, a) && StepFits(l, |m|, t)
    ensures 0 <= l.input < |m|
    ensures Transformed(f, l, BatchCounter(unit, l, m, a, k), BatchInput(unit, l, m, a, t - a), t)
      == Masking(f, l, Bumps(m[l.input], t - a),
        if !l.Masked() then ZERO else if l.Mask(t) == l.input then Bumps(m[l.input], k) else m[l.Mask(t)])
  {
    hide Xor, Bumps, BatchCounter, BatchInput;
    CounterInBatch(unit, l, m, a, k, t);
  }

  /** Block `t` of a counter batch, in single steps and in the batch. */
  lemma BothRuns(unit: Unit, f: Block -> Block, l: Layout, m: Memory, a: nat, k: nat, t: nat)
    requires Moving(l) && l.counter && Fits(l, |m|, a + k) && a <= t < a + k && NotStored(l, l.input, a, t)
    ensures StepFits(l, |m|, t) && Fits(l, |m|, t) && 0 <= l.input < |m|
    ensures var c, x := m[l.input], Bumps(m[l.input], t - a);
      var s := Serial(f, l, m, a, t);
      && Serial(f, l, m, a, a + k)[l.Out(t)]
         == Later(l, l.Out(t),
                  Masking(f, l, x, if !l.Masked() then ZERO
                                   else if l.Mask(t) == l.input then Bumps(c, t - a + if l.xorOutput then 1 else 0)
                                   else s[l.Mask(t)]), a + k - t - 1)
      && Batch(unit, f, l, m, a, k)[l.Out(t)]
         == Masking(f, l, x, if !l.Masked() then ZERO
                             else if l.Mask(t) == l.input then Bumps(c, k) else m[l.Mask(t)])
  {
    hide Transformed, Output, BatchCounter, BatchInput, Bumps, Moving, Fits, Batch, Serial, Masking, Later;
    FitsAt(l, |m|, a, k, t);
    SerialAt(f, l, m, a, t, a + k);
    BatchAt(unit, f, l, m, a, k, t);
    CounterTransformed(unit, f, l, m, a, k, t);
    CounterOutput(f, l, Serial(f, l, m, a, t), t);
    CounterAt(f, l, m, a, t);
    BumpsAdd(m[l.input], t - a, if l.xorOutput then 1 else 0);
  }

  // ----- an output on the counter, before the batch's last block -----

  /** A mask apart from the counter and from the batch's earlier outputs. */
  predicate MaskApart(l: Layout, a: nat, t: nat) {
    l.Masked() ==> l.Mask(t) != l.input && NotStored(l, l.Mask(t), a, t)
  }

  lemma OverwrittenCounter(unit: Unit, l: Layout, m: Memory, a: nat, k: nat, j: nat)
    requires Moving(l) && l.counter && Fits(l, |m|, a + k) && k <= WIDEST
    requires a <= j < a + k - 1 && l.Out(j) == l.input && NotStored(l, l.input, a, j) && MaskApart(l, a, j)
    ensures Diverges(unit, Same, l, m, a, k, j)
  {
    assert CounterStays(l);
    hide Bumps, Xor, Moving, Fits, Batch, Serial, Masking;
    BothRuns(unit, Same, l, m, a, k, j);
    if l.Masked() {
      SerialLater(Same, l, m, a, j, l.Mask(j));
    }
    var y := Batch(unit, Same, l, m, a, k)[l.Out(j)];
    BumpsFromZero(y);
    BumpsDiffer(y, 0, a + k - 1 - j);
  }

  lemma ComplementImage(x: Block)
    ensures XorWith(Xor(ONES, x))(x) == ONES
  {
    hide Xor;
    XorCommutes(x, Xor(ONES, x));
    XorCancels(ONES, x);
  }

  /** The overwritten counter is its own output mask, and `f` complements what it held. */
  lemma OverwrittenSeen(unit: Unit, f: Block -> Block, l: Layout, m: Memory, a: nat, k: nat, j: nat)
    requires Moving(l) && l.counter && l.xorOutput && Fits(l, |m|, a + k) && k <= WIDEST
    requires a <= j < a + k - 1 && l.Out(j) == l.input == l.Mask(j) && NotStored(l, l.input, a, j)
    requires 0 <= l.input < |m| && f(Bumps(m[l.input], j - a)) == ONES
    ensures Diverges(unit, f, l, m, a, k, j)
  {
    hide Bumps, Xor, Fits, Batch, Serial;
    BothRuns(unit, f, l, m, a, k, j);
    var r := a + k - 1 - j;
    var b := Bumps(m[l.input], j - a + 1);
    BumpsAdd(m[l.input], j - a + 1, r);
    ComplementDiffers(b, r);
    assert Serial(f, l, m, a, a + k)[l.Out(j)] == Bumps(Xor(ONES, b), r);
    assert Batch(unit, f, l, m, a, k)[l.Out(j)] == Xor(ONES, Bumps(b, r));
  }

  lemma OverwrittenMask(unit: Unit, l: Layout, a: nat, k: nat, size: nat, j: nat)
    requires Moving(l) && l.counter && l.xorOutput && Fits(l, size, a) && Fits(l, size, a + k) && k <= WIDEST
    requires a <= j < a + k - 1 && l.Out(j) == l.input == l.Mask(j)
    ensures exists f: Block -> Block, m: Memory, t: nat :: |m| == size && Shows(unit, f, l, m, a, k, t)
  {
    hide Bumps, Xor, Fits, Batch, Serial, OneToOne, Diverges;
    forall i | 0 <= i < a + k && i != j ensures l.Out(i) != l.input {
      OutputsApart(l, i, j);
    }
    FitsAt(l, size, a, k, j);
    CounterInside(l, size, j);
    var zeros := Zeros(size);
    var x := Bumps(ZERO, j);
    var f := XorWith(Xor(ONES, x));
    CiphersOneToOne(Xor(ONES, x));
    ComplementImage(x);
    var m := Serial(f, l, zeros, 0, a);
    CounterAt(f, l, zeros, 0, a);
    BumpsAdd(ZERO, a, j - a);
    OverwrittenSeen(unit, f, l, m, a, k, j);
    assert Shows(unit, f, l, zeros, a, k, j);
  }

  lemma CounterInside(l: Layout, size: nat, t: nat)
    requires StepFits(l, size, t) && l.counter && Moving(l)
    ensures 0 <= l.input < size && Zeros(size)[l.input] == ZERO
  {}

  // ----- the counter as a mask -----

  lemma XorOfTwo(b: Block, c: Block)
    ensures Xor(b, c) == ZERO <==> b == c
  {
    hide Xor;
    XorItself(c);
    XorInjective(b, c, c);
  }

  /** The first byte of a block tells ONE from any difference of two counters. */
  lemma FirstByte(c: Block, i: nat, j: nat, k: nat)
    requires i < j < i + 256
    ensures var e := Xor(Bumps(c, i), Bumps(c, j));
      SwapZeroOne(e)[0] == 0 && Bumps(SwapZeroOne(ZERO), k)[0] == 1 && Bumps(SwapZeroOne(e), k)[0] == 0
  {
    hide Bumps;
    BumpsAddModulo256(c, i);
    BumpsAddModulo256(c, j);
    BumpsDiffer(c, i, j);
    XorOfTwo(Bumps(c, i), Bumps(c, j));
    SmallBlocksDiffer();
    var e := Xor(Bumps(c, i), Bumps(c, j));
    assert e[0] == Bumps(c, i)[0] ^ Bumps(c, j)[0] == 0;
    assert ONE[0] == 1;
    BumpsAddModulo256(SwapZeroOne(ZERO), k);
    BumpsAddModulo256(SwapZeroOne(e), k);
  }

  /** Masked with itself the counter gives zero, masked with a later self it does not. */
  lemma CounterInputMask(unit: Unit, l: Layout, m: Memory, a: nat, k: nat, t: nat)
    requires Moving(l) && l.counter && l.xorInput && Fits(l, |m|, a + k) && k <= WIDEST
    requires a <= t < a + k && l.Mask(t) == l.input && NotStored(l, l.input, a, t)
    ensures Diverges(unit, SwapZeroOne, l, m, a, k, t)
  {
    hide SwapZeroOne, Bumps, Xor, Fits, Batch, Serial;
    BothRuns(unit, SwapZeroOne, l, m, a, k, t);
    XorItself(Bumps(m[l.input], t - a));
    FirstByte(m[l.input], t - a, k, a + k - t - 1);
    FirstByte(m[l.input], t - a, k, 0);
    BumpsFromZero(SwapZeroOne(ZERO));
  }

  lemma CounterOutputMask(unit: Unit, l: Layout, m: Memory, a: nat, k: nat, t: nat)
    requires Moving(l) && l.counter && l.xorOutput && Fits(l, |m|, a + k) && k <= WIDEST
    requires a <= t < a + k - 1 && l.Mask(t) == l.input && NotStored(l, l.input, a, a + k - 1)
    ensures Diverges(unit, Same, l, m, a, k, t)
  {
    hide Bumps, Xor, Fits, Batch, Serial;
    BothRuns(unit, Same, l, m, a, k, t);
    BumpsDiffer(m[l.input], t - a + 1, k);
    var x, b, c := Bumps(m[l.input], t - a), Bumps(m[l.input], t - a + 1), Bumps(m[l.input], k);
    XorCommutes(x, b);
    XorCommutes(x, c);
    XorInjective(b, c, x);
  }

  // ----- a mask that an earlier block of the batch stores -----

  predicate Untouched(l: Layout, h: int, i: nat, n: nat) {
    forall k :: i <= k < n ==> l.In(k) != h && l.Out(k) != h && (l.Masked() ==> l.Mask(k) != h)
  }

  lemma StepUntouched(f: Block -> Block, l: Layout, m: Memory, i: nat, h: nat, z: Block)
    requires StepFits(l, |m|, i) && h < |m| && Untouched(l, h, i, i + 1)
    ensures Step(f, l, m[h := z], i) == Step(f, l, m, i)[h := z]
    ensures Output(f, l, m[h := z], i) == Output(f, l, m, i)
  {
    hide Xor, BumpByte;
  }

  lemma {:induction false} SerialUntouched(f: Block -> Block, l: Layout, m: Memory, i: nat, n: nat, h: nat, z: Block)
    requires i <= n && Fits(l, |m|, n) && h < |m| && Untouched(l, h, i, n)
    ensures Serial(f, l, m[h := z], i, n) == Serial(f, l, m, i, n)[h := z]
    decreases n - i
  {
    hide Step;
    if i < n {
      assert StepFits(l, |m|, i);
      StepUntouched(f, l, m, i, h, z);
      SerialUntouched(f, l, Step(f, l, m, i), i + 1, n, h, z);
    }
  }

  /** The block stored at step `a` is not reached before, so what it holds is free to choose. */
  lemma FreeBlock(l: Layout, a: nat)
    requires Moving(l) && l.counter && l.Masked() && Gap(l, l.mask) >= 1 && l.Out(a) != l.input
    ensures Untouched(l, l.Out(a), 0, a) && l.Mask(a) != l.Out(a)
  {
    forall k | 0 <= k <= a ensures l.Mask(k) != l.Out(a) {
      GapMeans(l, k);
      SamePlace(l, k - Gap(l, l.mask), a);
    }
    forall k | 0 <= k < a ensures l.Out(k) != l.Out(a) {
      SamePlace(l, k, a);
    }
  }

  lemma SameOutput(f: Block -> Block, l: Layout, m: Memory, a: nat, h: nat, z: Block)
    requires StepFits(l, |m|, a) && h < |m| && l.In(a) != h && (l.Masked() ==> l.Mask(a) != h)
    ensures Output(f, l, m[h := z], a) == Output(f, l, m, a)
  {
    hide Xor, BumpByte;
  }

  /** What step `a` stores does not depend on what was there. */
  lemma LateStart(f: Block -> Block, l: Layout, a: nat, size: nat, z: Block)
    requires Moving(l) && l.counter && l.Masked() && Gap(l, l.mask) >= 1 && l.Out(a) != l.input
    requires Fits(l, size, a) && StepFits(l, size, a)
    ensures |Zeros(size)[l.Out(a) := z]| == size == |Zeros(size)|
    ensures var m, m0 := Serial(f, l, Zeros(size)[l.Out(a) := z], 0, a), Serial(f, l, Zeros(size), 0, a);
      m == m0[l.Out(a) := z] && Output(f, l, m, a) == Output(f, l, m0, a)
  {
    hide Step, Serial;
    FreeBlock(l, a);
    SerialUntouched(f, l, Zeros(size), 0, a, l.Out(a), z);
    SameOutput(f, l, Serial(f, l, Zeros(size), 0, a), a, l.Out(a), z);
  }

  /** The mask of step `t` holds what step `a` stored there. */
  lemma LateMask(f: Block -> Block, l: Layout, m: Memory, a: nat, t: nat)
    requires Moving(l) && l.counter && l.Masked() && t - a == Gap(l, l.mask) >= 1 && l.Out(a) != l.input
    requires Fits(l, |m|, t) && StepFits(l, |m|, t) && StepFits(l, |m|, a)
    ensures l.Mask(t) == l.Out(a)
    ensures Serial(f, l, m, a, t)[l.Out(a)] == Output(f, l, m, a)
  {
    hide Step, Output;
    GapMeans(l, t);
    SerialFrom(f, l, m, a);
    SerialAt(f, l, m, a, a, t);
  }

  /** A block that differs from `seen` under a mask. */
  function Telling(x: Block, seen: Block): Block { if Xor(x, ZERO) == seen then ONE else ZERO }

  lemma TellingTells(x: Block, seen: Block)
    ensures Xor(x, Telling(x, seen)) != seen
  {
    hide Xor;
    OneIsNotZero();
    XorCommutes(x, ZERO);
    XorCommutes(x, ONE);
    XorInjective(ZERO, ONE, x);
  }

  lemma LateMaskWitness(unit: Unit, l: Layout, a: nat, k: nat, size: nat)
    requires Moving(l) && l.counter && l.Masked() && Fits(l, size, a) && Fits(l, size, a + k)
    requires 1 <= Gap(l, l.mask) < k && NotStored(l, l.input, a, a + Gap(l, l.mask))
    ensures exists f: Block -> Block, m: Memory, t: nat :: |m| == size && Shows(unit, f, l, m, a, k, t)
  {
    hide Bumps, Xor, Fits, Batch, Serial, Output, Later, Telling, OneToOne;
    var t, h := a + Gap(l, l.mask), l.Out(a);
    FitsAt(l, size, a, k, t);
    assert h != l.input;
    var m0 := Serial(Same, l, Zeros(size), 0, a);
    var stored, x := Output(Same, l, m0, a), Bumps(m0[l.input], t - a);
    var z := Telling(x, Later(l, l.Out(t), Xor(x, stored), a + k - t - 1));
    TellingTells(x, Later(l, l.Out(t), Xor(x, stored), a + k - t - 1));
    LateStart(Same, l, a, size, z);
    var start := Zeros(size)[h := z];
    var m := Serial(Same, l, start, 0, a);
    LateMask(Same, l, m, a, t);
    BothRuns(unit, Same, l, m, a, k, t);
    CiphersOneToOne(ZERO);
    assert Shows(unit, Same, l, start, a, k, t);
  }

  // ----- every hazard shows -----

  /** A store on the counter, before the batch's last block, shows itself or in a mask. */
  lemma CounterStoreWitness(unit: Unit, l: Layout, a: nat, k: nat, size: nat, j: nat)
    requires Moving(l) && l.counter && Fits(l, size, a) && Fits(l, size, a + k) && k <= WIDEST
    requires a <= j < a + k - 1 && l.Out(j) == l.input
    ensures exists f: Block -> Block, m: Memory, t: nat :: |m| == size && Shows(unit, f, l, m, a, k, t)
  {
    hide Diverges, Fits, OneToOne;
    forall i | a <= i < j ensures l.Out(i) != l.input {
      OutputsApart(l, i, j);
    }
    CiphersOneToOne(ZERO);
    var m := Zeros(size);
    if l.Masked() && 1 <= Gap(l, l.mask) <= j - a {
      LateMaskWitness(unit, l, a, k, size);
    } else if l.Masked() && l.Mask(j) == l.input {
      if l.xorOutput {
        OverwrittenMask(unit, l, a, k, size, j);
      } else {
        CounterInputMask(unit, l, Serial(SwapZeroOne, l, m, 0, a), a, k, j);
        assert Shows(unit, SwapZeroOne, l, m, a, k, j);
      }
    } else {
      EarlyMaskApart(l, a, j);
      OverwrittenCounter(unit, l, Serial(Same, l, m, 0, a), a, k, j);
      assert Shows(unit, Same, l, m, a, k, j);
    }
  }

  lemma EarlyMaskApart(l: Layout, a: nat, j: nat)
    requires Moving(l) && a <= j && (l.Masked() ==> l.Mask(j) != l.input && !(1 <= Gap(l, l.mask) <= j - a))
    ensures MaskApart(l, a, j)
  {
    if l.Masked() {
      GapMeans(l, j);
      forall i | a <= i < j ensures l.Out(i) != l.Mask(j) {
        SamePlace(l, i, j - Gap(l, l.mask));
      }
    }
  }

  lemma CounterMaskWitness(unit: Unit, l: Layout, a: nat, k: nat, size: nat, t: nat)
    requires Moving(l) && l.counter && l.Masked() && Fits(l, size, a) && Fits(l, size, a + k) && k <= WIDEST
    requires a <= t < a + k && l.Mask(t) == l.input && (l.xorInput || t < a + k - 1)
    requires NotStored(l, l.input, a, a + k - 1)
    ensures exists f: Block -> Block, m: Memory, t: nat :: |m| == size && Shows(unit, f, l, m, a, k, t)
  {
    hide Diverges, Moving, Fits, OneToOne;
    CiphersOneToOne(ZERO);
    var m := Zeros(size);
    if l.xorInput {
      CounterInputMask(unit, l, Serial(SwapZeroOne, l, m, 0, a), a, k, t);
      assert Shows(unit, SwapZeroOne, l, m, a, k, t);
    } else {
      CounterOutputMask(unit, l, Serial(Same, l, m, 0, a), a, k, t);
      assert Shows(unit, Same, l, m, a, k, t);
    }
  }

  lemma CounterWitness(unit: Unit, l: Layout, a: nat, k: nat, size: nat)
    requires Moving(l) && l.counter && Fits(l, size, a) && Fits(l, size, a + k) && k <= WIDEST && !BatchSafe(l, a, k)
    ensures exists f: Block -> Block, m: Memory, t: nat :: |m| == size && Shows(unit, f, l, m, a, k, t)
  {
    hide Shows, Fits;
    if !NotStored(l, l.input, a, a + k - 1) {
      var j :| a <= j < a + k - 1 && l.Out(j) == l.input;
      CounterStoreWitness(unit, l, a, k, size, j);
    } else if t: nat :| l.Masked() && a <= t < a + k && l.Mask(t) == l.In(t) && (l.xorInput || t < a + k - 1) {
      CounterMaskWitness(unit, l, a, k, size, t);
    } else {
      assert !NoHazard(l, a, k);
      assert forall t :: a <= t < a + k ==> l.In(t) == l.input;
      var j: int, t: int :| a <= j < t < a + k && l.Masked() && l.Out(j) == l.Mask(t);
      GapMeans(l, t);
      SamePlace(l, j, t - Gap(l, l.mask));
      LateMaskWitness(unit, l, a, k, size);
    }
  }

  lemma HazardShows(unit: Unit, l: Layout, a: nat, k: nat, n: nat, size: nat)
    requires Moving(l) && Fits(l, size, n) && a + k <= n && k <= WIDEST && !BatchSafe(l, a, k)
    ensures exists f: Block -> Block, m: Memory, t: nat :: |m| == size && Shows(unit, f, l, m, a, k, t)
  {
    hide Shows, BatchSafe, Moving;
    if l.counter {
      CounterWitness(unit, l, a, k, size);
    } else {
      PlainWitness(unit, l, a, k, size);
    }
  }

  /** The batches of a run may replace single blocks, for every one-to-one cipher and every memory,
      exactly when no batch that runs has a hazard; and then they may for any function at all, as
      `RunIsSerial` says. The condition speaks of pointers and widths only. */
  lemma BatchesExactlySafe(unit: Unit, widths: seq<Width>, flags: Flags, input: int, mask: Option<int>, output: int,
                           size: nat, n: nat)
    requires flags.allowParallel && !flags.dontIncrementInOutPointers
    requires Fits(SetUp(flags, input, mask, output, n), size, n) && (forall w :: w in widths ==> w <= WIDEST)
    ensures RunSafe(widths, SetUp(flags, input, mask, output, n), 0, n) <==>
      forall f: Block -> Block, m: Memory | OneToOne(f) && |m| == size ::
        Run(unit, widths, f, flags, input, mask, output, m, n)
          == Serial(f, SetUp(flags, input, mask, output, n), m, 0, n)
  {
    hide Batched, Serial, BatchSafe, Diverges, OneToOne;
    var l := SetUp(flags, input, mask, output, n);
    SetUpMoves(flags, input, mask, output, n);
    if RunSafe(widths, l, 0, n) {
      forall f: Block -> Block, m: Memory | OneToOne(f) && |m| == size
        ensures Run(unit, widths, f, flags, input, mask, output, m, n) == Serial(f, l, m, 0, n)
      {
        RunIsSerial(unit, widths, f, flags, input, mask, output, m, n);
      }
    } else {
      var (a, k) := FirstHazard(widths, l, 0, n);
      HazardShows(unit, l, a, k, n, size);
      var f: Block -> Block, m: Memory, t: nat :| |m| == size && Shows(unit, f, l, m, a, k, t);
      RunDiverges(unit, widths, f, l, m, 0, n, t);
      assert Run(unit, widths, f, flags, input, mask, output, m, n) != Serial(f, l, m, 0, n);
    }
  }
}

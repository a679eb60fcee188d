/** The theorem for pointers that do not move (adv_simd.h): batches may replace single blocks exactly
    when each step that the result depends on is alone. */
module ExactFixedPointers {
  import opened Blocks
  import opened BlockProcessing
  import opened Hazards
  import opened HazardWitnesses
  import opened ExactHazards
  import opened FixedPointers
  import opened FixedWitnesses
  import opened Powers
  import opened Wrappers

  // ----- a batch masked with the counter -----

  /** A step that reads its output block on keeps different blocks different. */
  lemma StepDiffers(l: Layout, a: Memory, b: Memory, i: nat)
    requires Fixed(l) && l.xorInput && StepFits(l, |a|, i) && Agree(l, a, b) && a[l.output] != b[l.output]
    requires Reads(l, i)
    ensures Step(Same, l, a, i)[l.output] != Step(Same, l, b, i)[l.output]
  {
    hide Xor, BumpByte, Step;
    StepLast(Same, l, a, i);
    StepLast(Same, l, b, i);
    if l.input == l.output {
      XorInjective(a[l.output], b[l.output], a[l.Mask(i)]);
    } else {
      XorCommutes(a[l.input], a[l.output]);
      XorCommutes(b[l.input], b[l.output]);
      XorInjective(a[l.output], b[l.output], a[l.input]);
    }
  }

  /** From `i` every step is its own, reads the output block on, and is not masked with the input. */
  predicate Carries(widths: seq<Width>, l: Layout, i: nat, n: nat)
    requires i <= n
  {
    forall k :: i <= k < n ==> Reads(l, k) && Ends(widths, i, n, k) && l.Mask(k) != l.input
  }

  lemma CarriesOn(widths: seq<Width>, l: Layout, i: nat, n: nat)
    requires i < n && Carries(widths, l, i, n)
    ensures Reads(l, i) && l.Mask(i) != l.input && Carries([], l, i + 1, n)
    ensures widths != [] && n - i < widths[0] ==> Carries(widths[1..], l, i, n)
    ensures widths != [] && n - i >= widths[0] ==> widths[0] == 1 && Carries(widths, l, i + 1, n)
  {
    hide Reads;
    assert Ends(widths, i, n, i);
    if widths != [] && n - i < widths[0] {
      forall k | i <= k < n ensures Ends(widths[1..], i, n, k) {
        assert Ends(widths, i, n, k);
      }
    } else if widths != [] {
      var i' := i + 1;
      forall k | i' <= k < n ensures Ends(widths, i', n, k) {
        assert Ends(widths, i, n, k);
      }
    }
  }

  lemma {:induction false} CarriedOn(unit: Unit, widths: seq<Width>, l: Layout, a: Memory, b: Memory, i: nat, n: nat)
    requires Fixed(l) && l.xorInput && i <= n && |a| == |b| && Fits(l, |a|, n) && Agree(l, a, b)
    requires 0 <= l.output < |a| && a[l.output] != b[l.output] && Carries(widths, l, i, n)
    ensures Batched(unit, widths, Same, l, a, i, n)[l.output] != Serial(Same, l, b, i, n)[l.output]
    decreases n - i, |widths|
  {
    hide Batch, Step, Fixed, Agree, Fits, Reads, Carries;
    if i < n {
      CarriesOn(widths, l, i, n);
      FitsAtStart(l, |a|, i, n);
      StepForgets(Same, l, a, b, i);
      StepDiffers(l, a, b, i);
      if widths == [] {
        CarriedOn(unit, [], l, Step(Same, l, a, i), Step(Same, l, b, i), i + 1, n);
      } else if n - i >= widths[0] {
        FitsShorter(l, |a|, i + 1, n);
        OneIsStep(unit, Same, l, a, i);
        OneStep(Same, l, a, i);
        CarriedOn(unit, widths, l, Step(Same, l, a, i), Step(Same, l, b, i), i + 1, n);
      } else {
        CarriedOn(unit, widths[1..], l, a, b, i, n);
      }
    } else {
      RunOfNone(unit, widths, Same, l, a, n);
    }
  }

  /** A batch whose last input mask is the counter, written back: single steps store zero. */
  lemma BatchDiffers(unit: Unit, l: Layout, a: Memory, b: Memory, i: nat, k: nat)
    requires Fixed(l) && l.counter && l.xorInput && 0 < k && Agree(l, a, b) && Fits(l, |a|, i + k)
    requires l.Mask(i + k - 1) == l.input
    ensures 0 <= l.output < |a|
    ensures Batch(unit, Same, l, a, i, k)[l.output] != Serial(Same, l, b, i, i + k)[l.output]
  {
    hide Xor, Serial, Batch, Step, Bumps;
    SerialLast(Same, l, b, i, k);
    BatchLast(unit, Same, l, a, i, k);
    var s := Serial(Same, l, b, i, i + k - 1);
    StepLast(Same, l, s, i + k - 1);
    XorItself(s[l.input]);
    BumpsDiffer(a[l.input], k - 1, k);
    XorOfTwo(Bumps(a[l.input], k - 1), Bumps(a[l.input], k));
  }

  /** Step `t` is the last of its batch and masked with the counter, and what it stores is carried on. */
  predicate Marred(widths: seq<Width>, l: Layout, i: nat, n: nat, t: nat)
    requires i <= n
  {
    && i <= t < n && l.Mask(t) == l.input && !Single(widths, i, n, t) && Ends(widths, i, n, t)
    && (forall k :: t < k < n ==> Reads(l, k) && Ends(widths, i, n, k) && l.Mask(k) != l.input)
  }

  lemma MarredUnrolls(widths: seq<Width>, l: Layout, i: nat, n: nat, t: nat)
    requires i <= n && Marred(widths, l, i, n, t)
    ensures widths != []
    ensures n - i < widths[0] ==> Marred(widths[1..], l, i, n, t)
    ensures n - i >= widths[0] && t < i + widths[0] ==> t == i + widths[0] - 1 && Carries(widths, l, t + 1, n)
    ensures n - i >= widths[0] && t >= i + widths[0] ==> Marred(widths, l, i + widths[0], n, t)
  {
    hide Reads;
    if n - i < widths[0] {
      forall k | t < k < n ensures Ends(widths[1..], i, n, k) {
        assert Ends(widths, i, n, k);
      }
    } else {
      var i' := i + widths[0];
      forall k | t < k < n ensures i' <= k ==> Ends(widths, i', n, k) {
        assert Ends(widths, i, n, k);
      }
    }
  }

  lemma {:induction false} MarredDiffers(unit: Unit, widths: seq<Width>, l: Layout, a: Memory, b: Memory,
                                         i: nat, n: nat, t: nat)
    requires Fixed(l) && l.counter && l.xorInput && i <= n && |a| == |b| && Fits(l, |a|, n) && Agree(l, a, b)
    requires Marred(widths, l, i, n, t) && 0 <= l.output < |a|
    ensures Batched(unit, widths, Same, l, a, i, n)[l.output] != Serial(Same, l, b, i, n)[l.output]
    decreases n - i, |widths|
  {
    hide Batch, Serial, Step, Fixed, Agree, Fits, Carries;
    MarredUnrolls(widths, l, i, n, t);
    if n - i >= widths[0] {
      var k := widths[0];
      FitsShorter(l, |a|, i + k, n);
      OffOutput(unit, Same, l, a, b, i, k);
      SerialSplits(Same, l, b, i, i + k, n);
      var a', b' := Batch(unit, Same, l, a, i, k), Serial(Same, l, b, i, i + k);
      if t < i + k {
        BatchDiffers(unit, l, a, b, i, k);
        CarriedOn(unit, widths, l, a', b', i + k, n);
      } else {
        MarredDiffers(unit, widths, l, a', b', i + k, n, t);
      }
    } else {
      MarredDiffers(unit, widths[1..], l, a, b, i, n, t);
    }
  }

  /** The step before one that is read on: unless one is skipped, all of them are the last of their batch. */
  lemma FaultTold(unit: Unit, widths: seq<Width>, l: Layout, n: nat, size: nat, t: nat)
    requires Fixed(l) && Fits(l, size, n) && t < n && Matters(l, t, n)
    requires forall k :: t < k < n ==> Starts(widths, 0, n, k)
    requires l.counter && l.xorInput && l.Mask(t) == l.input && !Single(widths, 0, n, t)
    ensures Told(unit, widths, l, n, size)
  {
    hide Fits, Batched, Serial, OneToOne, Zeros;
    FitsAtStart(l, size, t, n);
    LastEnds(widths, 0, n);
    forall k | t <= k < n ensures Ends(widths, 0, n, k) {
      if k + 1 < n {
        assert Starts(widths, 0, n, k + 1);
      }
    }
    forall k | t < k < n ensures l.Mask(k) != l.input {
      MasksApart(l, k, t);
    }
    var m := Zeros(size);
    MarredDiffers(unit, widths, l, m, m, 0, n, t);
    TurnOneToOne();
    assert Tells(unit, widths, l, n, Same, m);
  }

  /** Whatever the step that is not alone, some cipher and memory show it. */
  lemma NotAloneTold(unit: Unit, widths: seq<Width>, l: Layout, n: nat, size: nat)
    requires Fixed(l) && Fits(l, size, n) && n < Pow256(8) && !FixedSafe(widths, l, 0, n)
    ensures Told(unit, widths, l, n, size)
  {
    hide Told, Fits, Pow256, Reads, Ends, Single;
    var t: nat :| t < n && Matters(l, t, n) && !Alone(widths, l, 0, n, t);
    if k: nat :| t <= k < n && Reads(l, k) && !Starts(widths, 0, n, k) {
      SkippedTold(unit, widths, l, n, size, k - 1);
    } else {
      forall k | t < k < n ensures Starts(widths, 0, n, k) {
        assert Reads(l, k);
      }
      FaultTold(unit, widths, l, n, size, t);
    }
  }

  /** For any function at all, the condition suffices. */
  lemma FixedIsSerial(unit: Unit, widths: seq<Width>, f: Block -> Block, flags: Flags, input: int, mask: Option<int>,
                      output: int, m: Memory, n: nat)
    requires flags.allowParallel && flags.dontIncrementInOutPointers
    requires Fits(SetUp(flags, input, mask, output, n), |m|, n)
    requires FixedSafe(widths, SetUp(flags, input, mask, output, n), 0, n)
    ensures Run(unit, widths, f, flags, input, mask, output, m, n)
         == Serial(f, SetUp(flags, input, mask, output, n), m, 0, n)
  {
    hide FixedSafe, Batched, Serial;
    SetUpStays(flags, input, mask, output, n);
    FixedRunIsSerial(unit, widths, f, SetUp(flags, input, mask, output, n), m, m, 0, n);
  }

  /** With pointers that do not move, batches may replace single blocks, for every one-to-one cipher
      and every memory, exactly when each step that the result depends on is alone. The length in
      bytes is a size_t. */
  lemma FixedExactlySafe(unit: Unit, widths: seq<Width>, flags: Flags, input: int, mask: Option<int>, output: int,
                         size: nat, n: nat)
    requires flags.allowParallel && flags.dontIncrementInOutPointers
    requires Fits(SetUp(flags, input, mask, output, n), size, n) && BLOCK_SIZE * n < Pow256(8)
    ensures FixedSafe(widths, SetUp(flags, input, mask, output, n), 0, n) <==>
      forall f: Block -> Block, m: Memory | OneToOne(f) && |m| == size ::
        Run(unit, widths, f, flags, input, mask, output, m, n)
          == Serial(f, SetUp(flags, input, mask, output, n), m, 0, n)
  {
    hide Batched, Serial, FixedSafe, OneToOne, Pow256;
    var l := SetUp(flags, input, mask, output, n);
    SetUpStays(flags, input, mask, output, n);
    if FixedSafe(widths, l, 0, n) {
      forall f: Block -> Block, m: Memory | OneToOne(f) && |m| == size
        ensures Run(unit, widths, f, flags, input, mask, output, m, n) == Serial(f, l, m, 0, n)
      {
        FixedIsSerial(unit, widths, f, flags, input, mask, output, m, n);
      }
    } else {
      NotAloneTold(unit, widths, l, n, size);
      var f: Block -> Block, m: Memory :| |m| == size && Tells(unit, widths, l, n, f, m);
      assert Run(unit, widths, f, flags, input, mask, output, m, n) != Serial(f, l, m, 0, n);
    }
  }
}

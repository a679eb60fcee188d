/** What a call of the block routine leaves in memory (adv_simd.h), told by its flags and arguments
    alone, for buffers that do not overlap halfway. */
module Calls {
  import opened Blocks
  import opened BlockProcessing
  import opened Hazards
  import opened ExactHazards
  import opened FixedPointers
  import opened ExactFixedPointers
  import opened Wrappers

  /** Two buffers of `n` blocks are one or apart. */
  predicate Clear(p: int, q: int, n: nat) { p == q || p + n <= q || q + n <= p }

  predicate Inside(p: int, n: nat, size: nat) { 0 <= p && p + n <= size }

  predicate Outside(p: int, q: int, n: nat) { !(q <= p < q + n) }

  /** The buffers of a call lie in memory, and the output is one with an operand or apart from it. */
  predicate Tidy(input: int, mask: Option<int>, output: int, n: nat, size: nat) {
    && Inside(input, n, size) && Inside(output, n, size) && Clear(input, output, n)
    && (mask.Some? ==> Inside(mask.value, n, size) && Clear(mask.value, output, n))
  }

  // ----- pointers that move, no counter -----

  lemma PlainLayout(flags: Flags, input: int, mask: Option<int>, output: int, n: nat, size: nat)
    requires !flags.dontIncrementInOutPointers && !flags.inBlockIsCounter && Tidy(input, mask, output, n, size)
    ensures var l := SetUp(flags, input, mask, output, n);
      Moving(l) && CounterStays(l) && Fits(l, size, n) && NoHazard(l, 0, n)
  {}

  /** The image of block `x` under the cipher and a mask. */
  function Image(f: Block -> Block, before: bool, x: Block, mask: Option<Block>): Block {
    match mask
    case None => f(x)
    case Some(k) => if before then f(Xor(x, k)) else Xor(f(x), k)
  }

  function MaskAt(m: Memory, mask: Option<int>, i: nat): Option<Block>
    requires mask.Some? ==> 0 <= mask.value + i < |m|
  {
    match mask
    case None => None
    case Some(p) => Some(m[p + i])
  }

  /** Step `t` takes its input from `p` and its mask, if any, from block `i` of the mask, and stores at `o`. */
  predicate Works(l: Layout, t: int, p: int, mask: Option<int>, i: nat, o: int, before: bool) {
    && !l.counter && l.In(t) == p && l.Out(t) == o
    && (match mask
        case None => !l.xorInput && !l.xorOutput
        case Some(q) => l.Mask(t) == q + i && l.xorInput == before && l.xorOutput == !before)
  }

  /** The step that meets block `i` of the buffers. */
  function StepOf(reversed: bool, n: nat, i: nat): (t: nat)
    requires i < n
    ensures t < n
  {
    if reversed then n - 1 - i else i
  }

  lemma PlainStep(flags: Flags, input: int, mask: Option<int>, output: int, n: nat, i: nat)
    requires !flags.dontIncrementInOutPointers && !flags.inBlockIsCounter && i < n
    ensures Works(SetUp(flags, input, mask, output, n), StepOf(flags.reverseDirection, n, i), input + i, mask, i,
                  output + i, flags.xorInput)
  {}

  lemma StoredImage(f: Block -> Block, l: Layout, s: Memory, m: Memory, t: nat, p: int, mask: Option<int>, i: nat, o: int,
                    before: bool)
    requires StepFits(l, |s|, t) && |s| == |m| && Works(l, t, p, mask, i, o, before) && s[p] == m[p]
    requires mask.Some? ==> s[mask.value + i] == m[mask.value + i]
    ensures Output(f, l, s, t) == Image(f, before, m[p], MaskAt(m, mask, i))
  {
    hide Xor;
  }

  /** What step `t` of a layout stores when nothing it reads is stored before. */
  lemma StoredBy(f: Block -> Block, l: Layout, m: Memory, t: nat, n: nat, p: int, mask: Option<int>, i: nat, o: int,
                 before: bool)
    requires Moving(l) && CounterStays(l) && t < n && Fits(l, |m|, n) && NoHazard(l, 0, n)
    requires Works(l, t, p, mask, i, o, before)
    ensures 0 <= p < |m| && 0 <= o < |m| && (mask.Some? ==> 0 <= mask.value + i < |m|)
    ensures Serial(f, l, m, 0, n)[o] == Image(f, before, m[p], MaskAt(m, mask, i))
  {
    FitsAtStart(l, |m|, t, n);
    FitsShorter(l, |m|, t, n);
    assert NotStored(l, p, 0, t) && (mask.Some? ==> NotStored(l, mask.value + i, 0, t));
    hide Serial, Moving, NoHazard, Fits, NotStored, Output, Image, MaskAt, CounterStays;
    SerialAt(f, l, m, 0, t, n);
    SerialLater(f, l, m, 0, t, p);
    if mask.Some? {
      SerialLater(f, l, m, 0, t, mask.value + i);
    }
    StoredImage(f, l, Serial(f, l, m, 0, t), m, t, p, mask, i, o, before);
  }

  lemma PlainRest(f: Block -> Block, flags: Flags, input: int, mask: Option<int>, output: int, m: Memory, n: nat, a: nat)
    requires !flags.dontIncrementInOutPointers && !flags.inBlockIsCounter && a < |m| && Outside(a, output, n)
    requires Fits(SetUp(flags, input, mask, output, n), |m|, n)
    ensures Serial(f, SetUp(flags, input, mask, output, n), m, 0, n)[a] == m[a]
  {
    var l := SetUp(flags, input, mask, output, n);
    assert CounterStays(l) && !l.counter;
    hide Serial, Fits, SetUp, CounterStays;
    forall t | 0 <= t < n ensures l.Out(t) != a {
      PlainStep(flags, input, mask, output, n, StepOf(flags.reverseDirection, n, t));
    }
    SerialLater(f, l, m, 0, n, a);
  }

  /** All blocks of a run, step by step in either direction. */
  lemma AllStored(f: Block -> Block, l: Layout, m: Memory, n: nat, reversed: bool, input: int, mask: Option<int>,
                  output: int, before: bool)
    requires Moving(l) && CounterStays(l) && Fits(l, |m|, n) && NoHazard(l, 0, n) && Tidy(input, mask, output, n, |m|)
    requires forall i: nat :: i < n ==> Works(l, StepOf(reversed, n, i), input + i, mask, i, output + i, before)
    ensures var outs := Serial(f, l, m, 0, n)[output..output + n];
      forall i :: 0 <= i < n ==> outs[i] == Image(f, before, m[input + i], MaskAt(m, mask, i))
  {
    hide Serial, NoHazard, Moving, Fits, CounterStays, Image, Works, Clear;
    var outs := Serial(f, l, m, 0, n)[output..output + n];
    forall i | 0 <= i < n ensures outs[i] == Image(f, before, m[input + i], MaskAt(m, mask, i)) {
      StoredBy(f, l, m, StepOf(reversed, n, i), n, input + i, mask, i, output + i, before);
    }
  }

  lemma PlainRun(unit: Unit, widths: seq<Width>, f: Block -> Block, flags: Flags, input: int, mask: Option<int>,
                 output: int, m: Memory, n: nat)
    requires !flags.dontIncrementInOutPointers && !flags.inBlockIsCounter && Tidy(input, mask, output, n, |m|)
    ensures Fits(SetUp(flags, input, mask, output, n), |m|, n)
    ensures var r := Run(unit, widths, f, flags, input, mask, output, m, n);
      var outs := r[output..output + n];
      && (forall i :: 0 <= i < n ==> outs[i] == Image(f, flags.xorInput, m[input + i], MaskAt(m, mask, i)))
      && (forall a :: 0 <= a < |m| && Outside(a, output, n) ==> r[a] == m[a])
  {
    PlainLayout(flags, input, mask, output, n, |m|);
    var l := SetUp(flags, input, mask, output, n);
    NoHazardIsSafe(widths, l, 0, n);
    forall i: nat | i < n
      ensures Works(l, StepOf(flags.reverseDirection, n, i), input + i, mask, i, output + i, flags.xorInput)
    {
      PlainStep(flags, input, mask, output, n, i);
    }
    hide Run, Serial, NoHazard, Moving, Fits, SetUp, CounterStays, RunSafe, Image, MaskAt, Works, StepOf;
    RunIsSerial(unit, widths, f, flags, input, mask, output, m, n);
    AllStored(f, l, m, n, flags.reverseDirection, input, mask, output, flags.xorInput);
    forall a | 0 <= a < |m| && Outside(a, output, n) ensures Serial(f, l, m, 0, n)[a] == m[a] {
      PlainRest(f, flags, input, mask, output, m, n, a);
    }
  }

  /** Output `i` is the image of input `i`, masked before the cipher with BT_XorInput and a mask,
      after it with a mask alone; nothing else changes, in either direction and at any width. */
  lemma PlainCall(unit: Unit, widths: seq<Width>, f: Block -> Block, flags: Flags, input: int, mask: Option<int>,
                  output: int, m: Memory, n: nat)
    requires !flags.dontIncrementInOutPointers && !flags.inBlockIsCounter && Tidy(input, mask, output, n, |m|)
    ensures Fits(SetUp(flags, input, mask, output, n), |m|, n)
    ensures var r := Run(unit, widths, f, flags, input, mask, output, m, n);
      var ins, outs := m[input..input + n], r[output..output + n];
      && (mask.None? ==> forall i :: 0 <= i < n ==> outs[i] == f(ins[i]))
      && (mask.Some? && flags.xorInput ==>
            forall i :: 0 <= i < n ==> outs[i] == f(Xor(ins[i], m[mask.value..mask.value + n][i])))
      && (mask.Some? && !flags.xorInput ==>
            forall i :: 0 <= i < n ==> outs[i] == Xor(f(ins[i]), m[mask.value..mask.value + n][i]))
      && (forall a :: 0 <= a < |m| && Outside(a, output, n) ==> r[a] == m[a])
  {
    hide Xor, Run, Fits, SetUp;
    PlainRun(unit, widths, f, flags, input, mask, output, m, n);
  }

  // ----- pointers that move, and a counter -----

  /** The counter's block lies apart from output and mask. */
  predicate CounterTidy(counter: int, mask: Option<int>, output: int, n: nat, size: nat) {
    && 0 <= counter < size && Inside(output, n, size) && Outside(counter, output, n)
    && (mask.Some? ==> Inside(mask.value, n, size) && Clear(mask.value, output, n) && Outside(counter, mask.value, n))
  }

  /** A reversed call counts in the block where its input buffer would end. */
  function CounterBlock(flags: Flags, input: int, n: nat): int {
    if flags.reverseDirection then input + n - 1 else input
  }

  lemma CounterLayout(flags: Flags, input: int, mask: Option<int>, output: int, n: nat, size: nat)
    requires !flags.dontIncrementInOutPointers && flags.inBlockIsCounter
    requires CounterTidy(CounterBlock(flags, input, n), mask, output, n, size)
    ensures var l := SetUp(flags, input, mask, output, n);
      && Moving(l) && CounterStays(l) && Fits(l, size, n) && NoHazard(l, 0, n)
      && l.counter && l.input == CounterBlock(flags, input, n) && NotStored(l, l.input, 0, n)
  {}

  /** Step `t` takes its mask, if any, from block `i` of the mask, and stores at `o`. */
  predicate Counts(l: Layout, t: int, mask: Option<int>, i: nat, o: int, before: bool) {
    && l.counter && l.Out(t) == o && o != l.input
    && (match mask
        case None => !l.xorInput && !l.xorOutput
        case Some(q) => l.Mask(t) == q + i != l.input && l.xorInput == before && l.xorOutput == !before)
  }

  lemma CounterStep(flags: Flags, input: int, mask: Option<int>, output: int, n: nat, i: nat, size: nat)
    requires !flags.dontIncrementInOutPointers && flags.inBlockIsCounter && i < n
    requires CounterTidy(CounterBlock(flags, input, n), mask, output, n, size)
    ensures Counts(SetUp(flags, input, mask, output, n), StepOf(flags.reverseDirection, n, i), mask, i, output + i,
                   flags.xorInput)
  {}

  lemma CountedImage(f: Block -> Block, l: Layout, s: Memory, m: Memory, t: nat, mask: Option<int>, i: nat, o: int,
                     before: bool)
    requires Moving(l) && StepFits(l, |s|, t) && |s| == |m| && Counts(l, t, mask, i, o, before)
    requires mask.Some? ==> 0 <= mask.value + i < |m| && s[mask.value + i] == m[mask.value + i]
    ensures 0 <= l.input < |s|
    ensures Output(f, l, s, t) == Image(f, before, s[l.input], MaskAt(m, mask, i))
  {
    hide Xor, Bumps, Output;
    CounterOutput(f, l, s, t);
  }

  lemma CountedBy(f: Block -> Block, l: Layout, m: Memory, t: nat, n: nat, mask: Option<int>, i: nat, o: int,
                  before: bool)
    requires Moving(l) && t < n && Fits(l, |m|, n) && Counts(l, t, mask, i, o, before)
    requires NotStored(l, l.input, 0, n) && 0 <= l.input < |m| && 0 <= o < |m|
    requires mask.Some? ==> 0 <= mask.value + i < |m| && NotStored(l, mask.value + i, 0, t)
    ensures Serial(f, l, m, 0, n)[o] == Image(f, before, Bumps(m[l.input], t), MaskAt(m, mask, i))
  {
    FitsAtStart(l, |m|, t, n);
    FitsShorter(l, |m|, t, n);
    assert NotStored(l, l.input, 0, t) && CounterStays(l);
    hide Serial, Bumps, Fits, NotStored, Output, Image, MaskAt, Moving, CounterStays;
    SerialAt(f, l, m, 0, t, n);
    CounterAt(f, l, m, 0, t);
    if mask.Some? {
      SerialLater(f, l, m, 0, t, mask.value + i);
    }
    CountedImage(f, l, Serial(f, l, m, 0, t), m, t, mask, i, o, before);
  }

  /** All blocks of a run with a counter. */
  lemma AllCounted(f: Block -> Block, l: Layout, m: Memory, n: nat, reversed: bool, mask: Option<int>, output: int,
                   before: bool)
    requires Moving(l) && Fits(l, |m|, n) && NoHazard(l, 0, n) && NotStored(l, l.input, 0, n)
    requires CounterTidy(l.input, mask, output, n, |m|)
    requires forall i: nat :: i < n ==> Counts(l, StepOf(reversed, n, i), mask, i, output + i, before)
    ensures var outs := Serial(f, l, m, 0, n)[output..output + n];
      forall i :: 0 <= i < n ==>
        outs[i] == Image(f, before, Bumps(m[l.input], StepOf(reversed, n, i)), MaskAt(m, mask, i))
  {
    hide Serial, Moving, Fits, Image, Clear, Bumps;
    var outs := Serial(f, l, m, 0, n)[output..output + n];
    forall i | 0 <= i < n
      ensures outs[i] == Image(f, before, Bumps(m[l.input], StepOf(reversed, n, i)), MaskAt(m, mask, i))
    {
      CountedBy(f, l, m, StepOf(reversed, n, i), n, mask, i, output + i, before);
    }
  }

  lemma CounterRest(f: Block -> Block, flags: Flags, input: int, mask: Option<int>, output: int, m: Memory, n: nat,
                    a: nat)
    requires !flags.dontIncrementInOutPointers && flags.inBlockIsCounter && a < |m| && Outside(a, output, n)
    requires CounterTidy(CounterBlock(flags, input, n), mask, output, n, |m|)
    requires Fits(SetUp(flags, input, mask, output, n), |m|, n)
    ensures Serial(f, SetUp(flags, input, mask, output, n), m, 0, n)[a]
         == if a == CounterBlock(flags, input, n) then Bumps(m[a], n) else m[a]
  {
    var l := SetUp(flags, input, mask, output, n);
    CounterLayout(flags, input, mask, output, n, |m|);
    assert NotStored(l, a, 0, n);
    hide Serial, Fits, SetUp, CounterStays, NotStored, Bumps, Moving, NoHazard;
    SerialLater(f, l, m, 0, n, a);
  }

  /** With BT_InBlockIsCounter, step `t` works on the counter advanced `t` times, and the counter
      ends `n` further; a reversed call meets its blocks from the last one on. */
  lemma CounterCall(unit: Unit, widths: seq<Width>, f: Block -> Block, flags: Flags, input: int, mask: Option<int>,
                    output: int, m: Memory, n: nat)
    requires !flags.dontIncrementInOutPointers && flags.inBlockIsCounter
    requires CounterTidy(CounterBlock(flags, input, n), mask, output, n, |m|)
    ensures Fits(SetUp(flags, input, mask, output, n), |m|, n)
    ensures var r := Run(unit, widths, f, flags, input, mask, output, m, n);
      var c, outs := m[CounterBlock(flags, input, n)], r[output..output + n];
      && (forall i :: 0 <= i < n ==>
            outs[i] == Image(f, flags.xorInput, Bumps(c, StepOf(flags.reverseDirection, n, i)), MaskAt(m, mask, i)))
      && r[CounterBlock(flags, input, n)] == Bumps(c, n)
      && (forall a :: 0 <= a < |m| && Outside(a, output, n) && a != CounterBlock(flags, input, n) ==> r[a] == m[a])
  {
    CounterLayout(flags, input, mask, output, n, |m|);
    var l := SetUp(flags, input, mask, output, n);
    NoHazardIsSafe(widths, l, 0, n);
    forall i: nat | i < n
      ensures Counts(l, StepOf(flags.reverseDirection, n, i), mask, i, output + i, flags.xorInput)
    {
      CounterStep(flags, input, mask, output, n, i, |m|);
    }
    hide Run, Serial, NoHazard, Moving, Fits, SetUp, CounterStays, RunSafe, Bumps, Image, MaskAt, Counts, CounterBlock,
         NotStored, StepOf;
    RunIsSerial(unit, widths, f, flags, input, mask, output, m, n);
    AllCounted(f, l, m, n, flags.reverseDirection, mask, output, flags.xorInput);
    var c := CounterBlock(flags, input, n);
    forall a | 0 <= a < |m| && Outside(a, output, n)
      ensures Serial(f, l, m, 0, n)[a] == if a == c then Bumps(m[a], n) else m[a]
    {
      CounterRest(f, flags, input, mask, output, m, n, a);
    }
  }

  // ----- pointers that do not move -----

  /** The block a fixed pointer stays on: the last of its buffer in a reversed call. */
  function FixedBlock(flags: Flags, p: int, n: nat): int { if flags.reverseDirection then p + n - 1 else p }

  /** No mask is the input or the output block. */
  predicate Away(l: Layout, n: nat, size: nat) {
    && Fixed(l) && Fits(l, size, n) && 0 <= l.input < size && 0 <= l.output < size
    && (l.Masked() ==> forall t :: 0 <= t < n ==> l.Mask(t) != l.output && l.Mask(t) != l.input)
  }

  predicate FixedArguments(flags: Flags, input: int, mask: Option<int>, output: int, n: nat, size: nat) {
    && flags.dontIncrementInOutPointers
    && 0 <= FixedBlock(flags, input, n) < size && 0 <= FixedBlock(flags, output, n) < size
    && (mask.Some? ==> Inside(mask.value, n, size) && Outside(FixedBlock(flags, output, n), mask.value, n)
                       && Outside(FixedBlock(flags, input, n), mask.value, n))
  }

  lemma FixedLayout(flags: Flags, input: int, mask: Option<int>, output: int, n: nat, size: nat)
    requires FixedArguments(flags, input, mask, output, n, size)
    ensures var l := SetUp(flags, input, mask, output, n);
      && Away(l, n, size) && l.counter == flags.inBlockIsCounter
      && l.input == FixedBlock(flags, input, n) && l.output == FixedBlock(flags, output, n)
      && (l.Masked() <==> mask.Some?) && (mask.Some? ==> l.xorInput == flags.xorInput)
      && (mask.Some? ==> forall i: nat :: i < n ==> l.Mask(StepOf(flags.reverseDirection, n, i)) == mask.value + i)
  {}

  lemma ApartIsSafe(widths: seq<Width>, l: Layout, n: nat, size: nat)
    requires Away(l, n, size) && l.input != l.output
    ensures FixedSafe(widths, l, 0, n)
  {
    hide Ends, Single;
    forall t | 0 <= t < n ensures !Reads(l, t) && !(l.counter && l.xorInput && l.Mask(t) == l.input) {}
  }

  function MaskOf(l: Layout, m: Memory, t: nat): Option<Block>
    requires StepFits(l, |m|, t)
  {
    if l.Masked() then Some(m[l.Mask(t)]) else None
  }

  /** Input and output apart: the last step alone decides. */
  lemma LastStepDecides(f: Block -> Block, l: Layout, m: Memory, n: nat)
    requires 0 < n && Away(l, n, |m|) && l.input != l.output
    ensures StepFits(l, |m|, n - 1)
    ensures var x := if l.counter then Bumps(m[l.input], n - 1) else m[l.input];
      var m' := if l.counter then m[l.input := Bumps(m[l.input], n)] else m;
      Serial(f, l, m, 0, n) == m'[l.output := Image(f, l.xorInput, x, MaskOf(l, m, n - 1))]
  {
    FitsAtStart(l, |m|, n - 1, n);
    FitsShorter(l, |m|, n - 1, n);
    assert CounterStays(l);
    hide Serial, Bumps, Xor, BumpByte, Fits;
    SerialLast(f, l, m, 0, n);
    SerialHere(f, l, m, 0, n - 1);
    StepLast(f, l, Serial(f, l, m, 0, n - 1), n - 1);
    BumpsOnce(m[l.input], n - 1);
  }

  lemma BumpsOnce(b: Block, k: nat)
    ensures BumpByte(Bumps(b, k)) == Bumps(b, k + 1)
  {}

  /** With BT_DontIncrementInOutPointers and input and output apart, the one output block is the image
      of the input and the last mask a step meets; a counter there ends `n` further. */
  lemma FixedCall(unit: Unit, widths: seq<Width>, f: Block -> Block, flags: Flags, input: int, mask: Option<int>,
                  output: int, m: Memory, n: nat)
    requires 0 < n && FixedArguments(flags, input, mask, output, n, |m|) && input != output
    ensures Fits(SetUp(flags, input, mask, output, n), |m|, n)
    ensures var p, o := FixedBlock(flags, input, n), FixedBlock(flags, output, n);
      var x := if flags.inBlockIsCounter then Bumps(m[p], n - 1) else m[p];
      var m' := if flags.inBlockIsCounter then m[p := Bumps(m[p], n)] else m;
      Run(unit, widths, f, flags, input, mask, output, m, n)
      == m'[o := Image(f, flags.xorInput, x, MaskAt(m, mask, if flags.reverseDirection then 0 else n - 1))]
  {
    FixedLayout(flags, input, mask, output, n, |m|);
    var l := SetUp(flags, input, mask, output, n);
    ApartIsSafe(widths, l, n, |m|);
    LastStepDecides(f, l, m, n);
    var i: nat := if flags.reverseDirection then 0 else n - 1;
    assert StepOf(flags.reverseDirection, n, i) == n - 1;
    assert MaskOf(l, m, n - 1) == MaskAt(m, mask, i);
    hide Serial, Bumps, SetUp, Fits, FixedSafe, Away, MaskOf, MaskAt, StepFits;
    if flags.allowParallel {
      FixedIsSerial(unit, widths, f, flags, input, mask, output, m, n);
    } else {
      RunIsSerial(unit, widths, f, flags, input, mask, output, m, n);
    }
  }

  /** One block worked on again and again, under each mask in turn. */
  function Folded(f: Block -> Block, before: bool, b: Block, masks: seq<Option<Block>>): Block
    decreases |masks|
  {
    if masks == [] then b else Folded(f, before, Image(f, before, b, masks[0]), masks[1..])
  }

  lemma {:induction false} RegisterSteps(f: Block -> Block, l: Layout, m: Memory, i: nat, n: nat,
                                         masks: seq<Option<Block>>)
    requires i <= n && Away(l, n, |m|) && l.input == l.output && !l.counter && |masks| == n - i
    requires forall t: nat :: i <= t < n ==> StepFits(l, |m|, t) && masks[t - i] == MaskOf(l, m, t)
    ensures Serial(f, l, m, i, n) == m[l.output := Folded(f, l.xorInput, m[l.output], masks)]
    decreases n - i
  {
    hide Xor, Step, Image;
    if i < n {
      StepLast(f, l, m, i);
      var m' := Step(f, l, m, i);
      OneImage(f, l, m, i);
      assert masks[0] == MaskOf(l, m, i);
      forall t: nat | i + 1 <= t < n ensures StepFits(l, |m'|, t) && masks[1..][t - (i + 1)] == MaskOf(l, m', t) {
        assert masks[t - i] == MaskOf(l, m, t);
      }
      RegisterSteps(f, l, m', i + 1, n, masks[1..]);
    }
  }

  lemma OneImage(f: Block -> Block, l: Layout, m: Memory, t: nat)
    requires Fixed(l) && !l.counter && StepFits(l, |m|, t)
    ensures Step(f, l, m, t) == m[l.output := Image(f, l.xorInput, m[l.input], MaskOf(l, m, t))]
  {
    hide Xor, Step;
    StepLast(f, l, m, t);
  }

  /** With input and output one block, no counter and no batches, it is worked on step by step under
      the masks in order, the last one first in a reversed call. */
  lemma RegisterCall(unit: Unit, widths: seq<Width>, f: Block -> Block, flags: Flags, register: int, mask: Option<int>,
                     m: Memory, n: nat, masks: seq<Option<Block>>)
    requires 0 < n && FixedArguments(flags, register, mask, register, n, |m|)
    requires !flags.allowParallel && !flags.inBlockIsCounter && |masks| == n
    requires forall i :: 0 <= i < n ==> masks[if flags.reverseDirection then n - 1 - i else i] == MaskAt(m, mask, i)
    ensures Fits(SetUp(flags, register, mask, register, n), |m|, n)
    ensures var o := FixedBlock(flags, register, n);
      Run(unit, widths, f, flags, register, mask, register, m, n) == m[o := Folded(f, flags.xorInput, m[o], masks)]
  {
    FixedLayout(flags, register, mask, register, n, |m|);
    var l := SetUp(flags, register, mask, register, n);
    forall t: nat | t < n ensures StepFits(l, |m|, t) && masks[t] == MaskOf(l, m, t) {
      FitsAtStart(l, |m|, t, n);
      var i := StepOf(flags.reverseDirection, n, t);
      assert StepOf(flags.reverseDirection, n, i) == t;
      assert masks[t] == MaskAt(m, mask, i);
    }
    hide Serial, SetUp, Fits, Folded, Image, Away, MaskOf, StepFits, FixedArguments;
    RegisterSteps(f, l, m, 0, n, masks);
    RunIsSerial(unit, widths, f, flags, register, mask, register, m, n);
    if mask.None? {
      FoldedUnmasked(f, l.xorInput, flags.xorInput, m[l.output], masks);
    }
  }

  lemma {:induction false} FoldedUnmasked(f: Block -> Block, before: bool, before': bool, b: Block,
                                          masks: seq<Option<Block>>)
    requires forall k :: k in masks ==> k == None
    ensures Folded(f, before, b, masks) == Folded(f, before', b, masks)
    decreases |masks|
  {
    if masks != [] {
      assert masks[0] in masks && forall k :: k in masks[1..] ==> k in masks;
      FoldedUnmasked(f, before, before', f(b), masks[1..]);
    }
  }
}

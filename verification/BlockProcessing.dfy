/** The batched block routine of adv_simd.h over one shared memory of blocks, and
    the one-block-at-a-time loop it has to agree with.

    Addresses count 16-byte blocks. When a reversed run has a length that is not a
    multiple of 16, address 0 of each buffer is the first block the run reaches. */
module BlockProcessing {
  import opened Blocks
  import opened Wrappers

  type Memory = seq<Block>

  /** The BT_ bits of cryptlib.h. */
  datatype Flags = Flags(
    inBlockIsCounter: bool,
    dontIncrementInOutPointers: bool,
    xorInput: bool,
    reverseDirection: bool,
    allowParallel: bool)

  datatype Stride = Stay | Forward | Backward

  function Advance(p: int, stride: Stride, k: int): int {
    match stride
    case Stay => p
    case Forward => p + k
    case Backward => p - k
  }

  /** The three pointers, their increments, and what a step does with the mask. */
  datatype Layout = Layout(
    input: int, mask: int, output: int,
    inputStride: Stride, maskStride: Stride, outputStride: Stride,
    xorInput: bool, xorOutput: bool, counter: bool)
  {
    predicate Masked() { xorInput || xorOutput }
    function In(i: int): int { Advance(input, inputStride, i) }
    function Mask(i: int): int { Advance(mask, maskStride, i) }
    function Out(i: int): int { Advance(output, outputStride, i) }
  }

  /** Pointer, increment and mask set-up for a run of `n` blocks. */
  function SetUp(flags: Flags, input: int, mask: Option<int>, output: int, n: nat): Layout {
    var fixedInput := flags.inBlockIsCounter || flags.dontIncrementInOutPointers;
    var stride := if flags.reverseDirection then Backward else Forward;
    var last := if flags.reverseDirection then n - 1 else 0;
    Layout(
      input + last,
      if mask.Some? then mask.value + last else last,
      output + last,
      if fixedInput then Stay else stride,
      if mask.Some? then stride else Stay,
      if flags.dontIncrementInOutPointers then Stay else stride,
      mask.Some? && flags.xorInput,
      mask.Some? && !flags.xorInput,
      flags.inBlockIsCounter)
  }

  /** Step `i` stays inside a memory of `size` blocks. */
  predicate StepFits(l: Layout, size: nat, i: int) {
    && 0 <= l.In(i) < size
    && 0 <= l.Out(i) < size
    && (l.Masked() ==> 0 <= l.Mask(i) < size)
  }

  predicate Fits(l: Layout, size: nat, n: nat) {
    forall i :: 0 <= i < n ==> StepFits(l, size, i)
  }

  // ----- the one-block loop -----

  /** The counter's increment in the tail loop, between the load and the store. */
  function Bumped(l: Layout, m: Memory, i: nat): (r: Memory)
    requires StepFits(l, |m|, i)
    ensures |r| == |m|
  {
    if l.counter then m[l.In(i) := BumpByte(m[l.In(i)])] else m
  }

  /** What one turn of the tail loop computes: an input mask is loaded before the counter moves,
      an output mask after. */
  function Output(f: Block -> Block, l: Layout, m: Memory, i: nat): Block
    requires StepFits(l, |m|, i)
  {
    var x := if l.xorInput then Xor(m[l.In(i)], m[l.Mask(i)]) else m[l.In(i)];
    if l.xorOutput then Xor(f(x), Bumped(l, m, i)[l.Mask(i)]) else f(x)
  }

  function Step(f: Block -> Block, l: Layout, m: Memory, i: nat): (r: Memory)
    requires StepFits(l, |m|, i)
    ensures |r| == |m|
  {
    Bumped(l, m, i)[l.Out(i) := Output(f, l, m, i)]
  }

  /** Steps `i` up to `n`, one at a time. */
  function Serial(f: Block -> Block, l: Layout, m: Memory, i: nat, n: nat): (r: Memory)
    requires i <= n && Fits(l, |m|, n)
    ensures |r| == |m|
    decreases n - i
  {
    if i == n then m else Serial(f, l, Step(f, l, m, i), i + 1, n)
  }

  lemma {:induction false} SerialSplits(f: Block -> Block, l: Layout, m: Memory, i: nat, j: nat, n: nat)
    requires i <= j <= n && Fits(l, |m|, n)
    ensures Serial(f, l, m, i, n) == Serial(f, l, Serial(f, l, m, i, j), j, n)
    decreases j - i
  {
    if i < j {
      SerialSplits(f, l, Step(f, l, m, i), i + 1, j, n);
    }
  }

  type Width = w: nat | 0 < w witness 1

  // ----- a batch: every load comes before every store -----

  function LaneBumps(unit: Unit, b: Block, k: nat): Block {
    if k == 0 then b else AddLane(unit, LaneBumps(unit, b, k - 1))
  }

  lemma {:induction false} LaneBumpsAreBumps(unit: Unit, b: Block, k: nat)
    ensures LaneBumps(unit, b, k) == Bumps(b, k)
  {
    if k > 0 {
      LaneBumpsAreBumps(unit, b, k - 1);
      AddLaneIsBumpByte(unit, Bumps(b, k - 1));
    }
  }

  /** The `j`-th register of a batch as loaded. */
  function BatchInput(unit: Unit, l: Layout, m: Memory, i: nat, j: nat): Block
    requires StepFits(l, |m|, i + j)
  {
    if l.counter then LaneBumps(unit, m[l.In(i + j)], j) else m[l.In(i + j)]
  }

  /** The counter is written back before any mask is loaded. */
  function BatchCounter(unit: Unit, l: Layout, m: Memory, i: nat, k: nat): (r: Memory)
    requires StepFits(l, |m|, i)
    ensures |r| == |m|
  {
    if l.counter then m[l.In(i) := LaneBumps(unit, m[l.In(i)], k)] else m
  }

  /** What happens to one register: masked, transformed, masked. */
  function Masked(f: Block -> Block, l: Layout, x: Block, mask: Block): Block {
    var y := f(if l.xorInput then Xor(x, mask) else x);
    if l.xorOutput then Xor(y, mask) else y
  }

  /** The register with input `x` after masking and the cipher, masks taken from `m`. */
  function Transformed(f: Block -> Block, l: Layout, m: Memory, x: Block, i: nat): Block
    requires StepFits(l, |m|, i)
  {
    Masked(f, l, x, if l.Masked() then m[l.Mask(i)] else x)
  }

  function BatchOutputs(unit: Unit, f: Block -> Block, l: Layout, m: Memory, i: nat, k: nat): (r: seq<Block>)
    requires 0 < k && Fits(l, |m|, i + k)
    ensures |r| == k
    ensures StepFits(l, |m|, i)
    ensures forall j :: 0 <= j < k ==> (
              && StepFits(l, |m|, i + j)
              && r[j] == Transformed(f, l, BatchCounter(unit, l, m, i, k), BatchInput(unit, l, m, i, j), i + j))
  {
    assert StepFits(l, |m|, i);
    var m1 := BatchCounter(unit, l, m, i, k);
    seq(k, j requires 0 <= j < k =>
      assert StepFits(l, |m|, i + j); Transformed(f, l, m1, BatchInput(unit, l, m, i, j), i + j))
  }

  function Store(l: Layout, m: Memory, i: nat, ys: seq<Block>): (r: Memory)
    requires Fits(l, |m|, i + |ys|)
    ensures |r| == |m|
  {
    if ys == [] then m
    else
      var k := |ys| - 1;
      assert StepFits(l, |m|, i + k);
      Store(l, m, i, ys[..k])[l.Out(i + k) := ys[k]]
  }

  function Batch(unit: Unit, f: Block -> Block, l: Layout, m: Memory, i: nat, k: nat): (r: Memory)
    requires 0 < k && Fits(l, |m|, i + k)
    ensures |r| == |m|
  {
    assert StepFits(l, |m|, i);
    Store(l, BatchCounter(unit, l, m, i, k), i, BatchOutputs(unit, f, l, m, i, k))
  }

  /** Batches of each width in turn while they fit, then single blocks. */
  function Batched(unit: Unit, widths: seq<Width>, f: Block -> Block, l: Layout, m: Memory, i: nat, n: nat): (r: Memory)
    requires i <= n && Fits(l, |m|, n)
    ensures |r| == |m|
    decreases n - i, |widths|
  {
    if widths == [] then Serial(f, l, m, i, n)
    else if n - i >= widths[0] then Batched(unit, widths, f, l, Batch(unit, f, l, m, i, widths[0]), i + widths[0], n)
    else Batched(unit, widths[1..], f, l, m, i, n)
  }

  // ----- when the two agree -----

  /** In the `k` steps from `i`, no store lands on a block that a later one loads, and a mask is
      the counter at most as the last block's output mask. */
  predicate NoHazard(l: Layout, i: nat, k: nat) {
    && (forall j, t :: i <= j < t < i + k ==> l.Out(j) != l.In(t))
    && (l.Masked() ==> forall j, t :: i <= j < t < i + k ==> l.Out(j) != l.Mask(t))
    && (l.counter && l.Masked() ==> forall t :: i <= t < i + k && l.Mask(t) == l.In(t) ==> !l.xorInput && t == i + k - 1)
  }

  /** Input and input mask are one pointer, so that every block is masked with itself. */
  predicate SelfMasked(l: Layout) {
    !l.counter && l.xorInput && !l.xorOutput && l.input == l.mask && l.inputStride == l.maskStride
  }

  predicate BatchSafe(l: Layout, i: nat, k: nat) { SelfMasked(l) || NoHazard(l, i, k) }

  /** No batch that runs on the steps from `i` to `n` has a hazard. */
  predicate RunSafe(widths: seq<Width>, l: Layout, i: nat, n: nat)
    requires i <= n
    decreases n - i, |widths|
  {
    if widths == [] then true
    else if n - i >= widths[0] then BatchSafe(l, i, widths[0]) && RunSafe(widths, l, i + widths[0], n)
    else RunSafe(widths[1..], l, i, n)
  }

  lemma NoHazardWithin(l: Layout, i: nat, k: nat, i': nat, k': nat)
    requires NoHazard(l, i, k) && i <= i' && i' + k' <= i + k
    ensures NoHazard(l, i', k')
  {}

  /** A run without hazards from end to end is safe for every list of widths. */
  lemma {:induction false} NoHazardIsSafe(widths: seq<Width>, l: Layout, i: nat, n: nat)
    requires i <= n && NoHazard(l, i, n - i)
    ensures RunSafe(widths, l, i, n)
    decreases n - i, |widths|
  {
    hide NoHazard;
    if widths == [] {
    } else if n - i >= widths[0] {
      NoHazardWithin(l, i, n - i, i, widths[0]);
      NoHazardWithin(l, i, n - i, i + widths[0], n - i - widths[0]);
      NoHazardIsSafe(widths, l, i + widths[0], n);
    } else {
      NoHazardIsSafe(widths[1..], l, i, n);
    }
  }

  /** The counter is the one input block that does not move. */
  predicate CounterStays(l: Layout) {
    l.counter ==> l.inputStride == Stay
  }

  lemma {:induction false} StoreFrame(l: Layout, m: Memory, i: nat, ys: seq<Block>, a: nat)
    requires Fits(l, |m|, i + |ys|) && a < |m|
    requires forall j :: i <= j < i + |ys| ==> l.Out(j) != a
    ensures Store(l, m, i, ys)[a] == m[a]
  {
    if ys != [] {
      StoreFrame(l, m, i, ys[..|ys| - 1], a);
    }
  }

  lemma {:induction false} StoreCommutes(l: Layout, m: Memory, i: nat, ys: seq<Block>, a: nat, b: Block)
    requires Fits(l, |m|, i + |ys|) && a < |m|
    requires forall j :: i <= j < i + |ys| ==> l.Out(j) != a
    ensures Store(l, m, i, ys)[a := b] == Store(l, m[a := b], i, ys)
  {
    if ys == [] {
    } else {
      var k := |ys| - 1;
      StoreCommutes(l, m, i, ys[..k], a, b);
      assert l.Out(i + k) != a;
    }
  }

  /** Lengthening a batch does not change the registers already in it. */
  lemma BatchOutputStable(unit: Unit, f: Block -> Block, l: Layout, m: Memory, i: nat, k: nat, j: nat)
    requires j < k && Fits(l, |m|, i + k + 1) && NoHazard(l, i, k + 1) && CounterStays(l)
    ensures BatchOutputs(unit, f, l, m, i, k + 1)[j] == BatchOutputs(unit, f, l, m, i, k)[j]
  {
    hide Xor, LaneBumps;
    assert StepFits(l, |m|, i + j);
    assert l.counter && l.Masked() ==> l.Mask(i + j) != l.In(i + j);
  }

  /** The stores of the shorter batch leave every block of the next step as loaded. */
  lemma BatchFrame(unit: Unit, f: Block -> Block, l: Layout, m: Memory, i: nat, k: nat, a: nat)
    requires 0 < k && Fits(l, |m|, i + k + 1) && NoHazard(l, i, k + 1) && CounterStays(l)
    requires StepFits(l, |m|, i + k) && StepFits(l, |m|, i)
    requires a == l.In(i + k) || (l.Masked() && a == l.Mask(i + k))
    ensures a < |m| && Batch(unit, f, l, m, i, k)[a] == BatchCounter(unit, l, m, i, k)[a]
  {
    hide LaneBumps, Transformed, BatchInput;
    StoreFrame(l, BatchCounter(unit, l, m, i, k), i, BatchOutputs(unit, f, l, m, i, k), a);
  }

  /** The counter after a batch and one step is the counter after the longer batch. */
  lemma CounterGrows(unit: Unit, f: Block -> Block, l: Layout, m: Memory, i: nat, k: nat)
    requires 0 < k && Fits(l, |m|, i + k + 1) && NoHazard(l, i, k + 1) && CounterStays(l)
    requires StepFits(l, |m|, i + k) && StepFits(l, |m|, i)
    ensures Bumped(l, Batch(unit, f, l, m, i, k), i + k)
         == Store(l, BatchCounter(unit, l, m, i, k + 1), i, BatchOutputs(unit, f, l, m, i, k))
  {
    hide BumpByte, LaneBumps, BatchOutputs;
    if l.counter {
      var c, short := l.In(i + k), BatchCounter(unit, l, m, i, k);
      assert l.In(i) == c;
      LaneBumpsAreBumps(unit, m[c], k);
      LaneBumpsAreBumps(unit, m[c], k + 1);
      BatchFrame(unit, f, l, m, i, k, c);
      var next := BumpByte(short[c]);
      assert next == LaneBumps(unit, m[c], k + 1);
      forall j | i <= j < i + k ensures l.Out(j) != c {}
      StoreCommutes(l, short, i, BatchOutputs(unit, f, l, m, i, k), c, next);
      assert short[c := next] == BatchCounter(unit, l, m, i, k + 1);
    }
  }

  /** The added register is what the step computes. */
  lemma OutputGrows(unit: Unit, f: Block -> Block, l: Layout, m: Memory, i: nat, k: nat)
    requires 0 < k && Fits(l, |m|, i + k + 1) && NoHazard(l, i, k + 1) && CounterStays(l)
    requires StepFits(l, |m|, i + k) && StepFits(l, |m|, i)
    ensures BatchOutputs(unit, f, l, m, i, k + 1)[k] == Output(f, l, Batch(unit, f, l, m, i, k), i + k)
  {
    hide Xor, BumpByte, LaneBumps, Batch;
    var s, b := i + k, Batch(unit, f, l, m, i, k);
    BatchFrame(unit, f, l, m, i, k, l.In(s));
    if l.Masked() {
      BatchFrame(unit, f, l, m, i, k, l.Mask(s));
    }
    if l.counter {
      LaneBumpsAreBumps(unit, m[l.In(s)], k);
      LaneBumpsAreBumps(unit, m[l.In(s)], k + 1);
      assert Bumps(m[l.In(s)], k + 1) == BumpByte(Bumps(m[l.In(s)], k));
    }
  }

  /** A batch one block longer is the shorter batch followed by one step. */
  lemma BatchGrows(unit: Unit, f: Block -> Block, l: Layout, m: Memory, i: nat, k: nat)
    requires 0 < k && Fits(l, |m|, i + k + 1) && NoHazard(l, i, k + 1) && CounterStays(l)
    requires StepFits(l, |m|, i + k)
    ensures Batch(unit, f, l, m, i, k + 1) == Step(f, l, Batch(unit, f, l, m, i, k), i + k)
  {
    hide Output, Bumped, BatchCounter, BatchOutputs, NoHazard, Batch;
    assert StepFits(l, |m|, i);
    var ys, ys' := BatchOutputs(unit, f, l, m, i, k), BatchOutputs(unit, f, l, m, i, k + 1);
    forall j | 0 <= j < k ensures ys'[j] == ys[j] {
      BatchOutputStable(unit, f, l, m, i, k, j);
    }
    assert ys'[..k] == ys;
    CounterGrows(unit, f, l, m, i, k);
    OutputGrows(unit, f, l, m, i, k);
    BatchIsStore(unit, f, l, m, i, k + 1);
  }

  lemma BatchIsStore(unit: Unit, f: Block -> Block, l: Layout, m: Memory, i: nat, k: nat)
    requires 0 < k && Fits(l, |m|, i + k)
    ensures StepFits(l, |m|, i)
    ensures Batch(unit, f, l, m, i, k) == Store(l, BatchCounter(unit, l, m, i, k), i, BatchOutputs(unit, f, l, m, i, k))
  {
    assert StepFits(l, |m|, i);
  }

  lemma BatchOfOne(unit: Unit, f: Block -> Block, l: Layout, m: Memory, i: nat)
    requires Fits(l, |m|, i + 1) && BatchSafe(l, i, 1)
    requires StepFits(l, |m|, i)
    ensures Batch(unit, f, l, m, i, 1) == Step(f, l, m, i)
  {
    hide Xor, BumpByte, LaneBumps;
    LaneBumpsAreBumps(unit, m[l.In(i)], 0);
    LaneBumpsAreBumps(unit, m[l.In(i)], 1);
    assert Bumps(m[l.In(i)], 1) == BumpByte(Bumps(m[l.In(i)], 0));
    var ys := BatchOutputs(unit, f, l, m, i, 1);
    assert ys[..0] == [];
    assert Store(l, BatchCounter(unit, l, m, i, 1), i, ys[..0]) == BatchCounter(unit, l, m, i, 1);
    assert BatchInput(unit, l, m, i, 0) == m[l.In(i)];
  }

  lemma XorItself(b: Block)
    ensures Xor(b, b) == ZERO
  {}

  /** With input and mask one pointer, every output is the image of the zero block. */
  lemma SelfMaskedGrows(unit: Unit, f: Block -> Block, l: Layout, m: Memory, i: nat, k: nat)
    requires 0 < k && Fits(l, |m|, i + k + 1) && SelfMasked(l)
    requires StepFits(l, |m|, i + k)
    ensures Batch(unit, f, l, m, i, k + 1) == Step(f, l, Batch(unit, f, l, m, i, k), i + k)
  {
    hide Xor, Batch;
    assert StepFits(l, |m|, i);
    var ys, ys' := BatchOutputs(unit, f, l, m, i, k), BatchOutputs(unit, f, l, m, i, k + 1);
    forall j | 0 <= j <= k ensures ys'[j] == f(ZERO) && (j < k ==> ys[j] == f(ZERO)) {
      assert StepFits(l, |m|, i + j);
      XorItself(m[l.In(i + j)]);
    }
    assert ys'[..k] == ys;
    BatchIsStore(unit, f, l, m, i, k);
    BatchIsStore(unit, f, l, m, i, k + 1);
    XorItself(Batch(unit, f, l, m, i, k)[l.In(i + k)]);
  }

  lemma {:induction false} BatchIsSerial(unit: Unit, f: Block -> Block, l: Layout, m: Memory, i: nat, k: nat)
    requires 0 < k && Fits(l, |m|, i + k) && BatchSafe(l, i, k) && CounterStays(l)
    ensures Batch(unit, f, l, m, i, k) == Serial(f, l, m, i, i + k)
  {
    hide Batch, Step, NoHazard, SelfMasked;
    if k == 1 {
      assert StepFits(l, |m|, i);
      BatchOfOne(unit, f, l, m, i);
    } else {
      assert StepFits(l, |m|, i + k - 1);
      if SelfMasked(l) {
        SelfMaskedGrows(unit, f, l, m, i, k - 1);
      } else {
        NoHazardWithin(l, i, k, i, k - 1);
        BatchGrows(unit, f, l, m, i, k - 1);
      }
      BatchIsSerial(unit, f, l, m, i, k - 1);
      SerialSplits(f, l, m, i, i + k - 1, i + k);
    }
  }

  /** The refinement: for every flag set, every unit and every list of batch widths, a run whose
      batches are safe leaves the memory of the one-block loop. */
  lemma {:induction false} BatchedIsSerial(unit: Unit, widths: seq<Width>, f: Block -> Block, l: Layout, m: Memory,
      i: nat, n: nat)
    requires i <= n && Fits(l, |m|, n)
    requires RunSafe(widths, l, i, n) && CounterStays(l)
    ensures Batched(unit, widths, f, l, m, i, n) == Serial(f, l, m, i, n)
    decreases n - i, |widths|
  {
    hide Batch, Step, BatchSafe;
    if widths == [] {
    } else if n - i >= widths[0] {
      var k := widths[0];
      BatchIsSerial(unit, f, l, m, i, k);
      SerialSplits(f, l, m, i, i + k, n);
      BatchedIsSerial(unit, widths, f, l, Batch(unit, f, l, m, i, k), i + k, n);
    } else {
      BatchedIsSerial(unit, widths[1..], f, l, m, i, n);
    }
  }

  // ----- the routine itself, in place on an array -----

  /** The pointers of a run, as the loops advance them. */
  datatype Cursor = Cursor(input: int, mask: int, output: int)

  function At(l: Layout, i: nat): Cursor {
    Cursor(l.In(i), l.Mask(i), l.Out(i))
  }

  /** One turn of the tail loop. */
  method ProcessOne(f: Block -> Block, l: Layout, mem: array<Block>, p: Cursor, ghost i: nat) returns (q: Cursor)
    requires StepFits(l, mem.Length, i) && p == At(l, i)
    modifies mem
    ensures mem[..] == Step(f, l, old(mem[..]), i) && q == At(l, i + 1)
  {
    var block := mem[p.input];
    if l.xorInput {
      block := Xor(block, mem[p.mask]);
    }
    if l.counter {
      mem[p.input] := BumpByte(mem[p.input]);
    }
    block := f(block);
    if l.xorOutput {
      block := Xor(block, mem[p.mask]);
    }
    mem[p.output] := block;
    q := Cursor(Advance(p.input, l.inputStride, 1), Advance(p.mask, l.maskStride, 1),
                 Advance(p.output, l.outputStride, 1));
  }

  /** The loads of a batch: the counter and its successors, or `k` blocks in a row. */
  method LoadBatch(unit: Unit, l: Layout, mem: array<Block>, k: nat, p: Cursor, ghost i: nat)
    returns (blocks: seq<Block>, q: Cursor)
    requires 0 < k && Fits(l, mem.Length, i + k) && p == At(l, i) && CounterStays(l)
    modifies mem
    ensures StepFits(l, mem.Length, i) && mem[..] == BatchCounter(unit, l, old(mem[..]), i, k)
    ensures q == p.(input := l.In(i + k)) && |blocks| == k
    ensures forall t :: 0 <= t < k ==> (
          && StepFits(l, mem.Length, i + t)
          && blocks[t] == BatchInput(unit, l, old(mem[..]), i, t))
  {
    hide LaneBumps;
    assert StepFits(l, mem.Length, i);
    var first := mem[p.input];
    q, blocks := p, [];
    for j := 0 to k
      invariant |blocks| == j && q == p.(input := l.In(i + j)) && mem[..] == old(mem[..])
      invariant forall t :: 0 <= t < j ==> (
          && StepFits(l, mem.Length, i + t)
          && blocks[t] == BatchInput(unit, l, old(mem[..]), i, t))
    {
      assert StepFits(l, mem.Length, i + j);
      blocks := blocks + [if l.counter then LaneBumps(unit, first, j) else mem[q.input]];
      q := q.(input := Advance(q.input, l.inputStride, 1));
    }
    if l.counter {
      mem[p.input] := LaneBumps(unit, first, k);
    }
  }

  /** Masks and cipher of a batch: every register is done before any store. */
  method TransformBatch(f: Block -> Block, l: Layout, mem: array<Block>, ins: seq<Block>, p: Cursor, ghost i: nat)
    returns (blocks: seq<Block>, q: Cursor)
    requires Fits(l, mem.Length, i + |ins|) && p.mask == l.Mask(i)
    ensures q == p.(mask := l.Mask(i + |ins|)) && |blocks| == |ins|
    ensures forall t :: 0 <= t < |ins| ==> (
          && StepFits(l, mem.Length, i + t)
          && blocks[t] == Transformed(f, l, mem[..], ins[t], i + t))
  {
    hide Masked;
    q, blocks := p, [];
    for j := 0 to |ins|
      invariant |blocks| == j && q == p.(mask := l.Mask(i + j))
      invariant forall t :: 0 <= t < j ==> (
          && StepFits(l, mem.Length, i + t)
          && blocks[t] == Transformed(f, l, mem[..], ins[t], i + t))
    {
      assert StepFits(l, mem.Length, i + j);
      blocks := blocks + [Masked(f, l, ins[j], if l.Masked() then mem[q.mask] else ins[j])];
      q := q.(mask := Advance(q.mask, l.maskStride, 1));
    }
  }

  method StoreBatch(l: Layout, mem: array<Block>, blocks: seq<Block>, p: Cursor, ghost i: nat) returns (q: Cursor)
    requires Fits(l, mem.Length, i + |blocks|) && p.output == l.Out(i)
    modifies mem
    ensures mem[..] == Store(l, old(mem[..]), i, blocks) && q == p.(output := l.Out(i + |blocks|))
  {
    q := p;
    for j := 0 to |blocks|
      invariant q == p.(output := l.Out(i + j))
      invariant mem[..] == Store(l, old(mem[..]), i, blocks[..j])
    {
      assert StepFits(l, mem.Length, i + j);
      assert blocks[..j + 1][..j] == blocks[..j];
      mem[q.output] := blocks[j];
      q := q.(output := Advance(q.output, l.outputStride, 1));
    }
    assert blocks[..|blocks|] == blocks;
  }

  /** One turn of a batch loop of width `k`. */
  method ProcessBatch(unit: Unit, f: Block -> Block, l: Layout, mem: array<Block>, k: nat, p: Cursor,
                      ghost i: nat) returns (q: Cursor)
    requires 0 < k && Fits(l, mem.Length, i + k) && p == At(l, i) && CounterStays(l)
    modifies mem
    ensures mem[..] == Batch(unit, f, l, old(mem[..]), i, k) && q == At(l, i + k)
  {
    hide LaneBumps, Masked, Transformed;
    var ins, blocks;
    ins, q := LoadBatch(unit, l, mem, k, p, i);
    blocks, q := TransformBatch(f, l, mem, ins, q, i);
    assert blocks == BatchOutputs(unit, f, l, old(mem[..]), i, k);
    q := StoreBatch(l, mem, blocks, q, i);
  }

  /** `while (length >= k*blockSize)`: batches of one width until they no longer fit. */
  method BatchLoop(unit: Unit, f: Block -> Block, l: Layout, mem: array<Block>, k: nat, p: Cursor, length: nat,
                   ghost widths: seq<Width>, ghost i: nat, ghost n: nat)
    returns (q: Cursor, left: nat, ghost j: nat)
    requires widths != [] && k == widths[0]
    requires i <= n && Fits(l, mem.Length, n) && p == At(l, i) && CounterStays(l) && length / 16 == n - i
    modifies mem
    ensures i <= j <= n && n - j < k && q == At(l, j) && left / 16 == n - j && left % 16 == length % 16
    ensures Batched(unit, widths[1..], f, l, mem[..], j, n) == Batched(unit, widths, f, l, old(mem[..]), i, n)
  {
    hide Batch;
    q, left, j := p, length, i;
    while left >= k * BLOCK_SIZE
      invariant i <= j <= n && q == At(l, j) && left / 16 == n - j && left % 16 == length % 16
      invariant Batched(unit, widths, f, l, mem[..], j, n) == Batched(unit, widths, f, l, old(mem[..]), i, n)
    {
      assert n - j >= k;
      q := ProcessBatch(unit, f, l, mem, k, q, j);
      left, j := left - k * BLOCK_SIZE, j + k;
    }
    assert n - j < k;
  }

  /** `while (length >= blockSize)`: the one-block loop, which returns what is left of `length`. */
  method TailLoop(f: Block -> Block, l: Layout, mem: array<Block>, p: Cursor, length: nat, ghost i: nat, ghost n: nat)
    returns (left: nat)
    requires i <= n && Fits(l, mem.Length, n) && p == At(l, i) && length / 16 == n - i
    modifies mem
    ensures mem[..] == Serial(f, l, old(mem[..]), i, n) && left == length % 16
  {
    hide Step;
    var q := p;
    ghost var j := i;
    left := length;
    while left >= BLOCK_SIZE
      invariant i <= j <= n && q == At(l, j) && left / 16 == n - j && left % 16 == length % 16
      invariant Serial(f, l, mem[..], j, n) == Serial(f, l, old(mem[..]), i, n)
    {
      assert StepFits(l, mem.Length, j);
      q := ProcessOne(f, l, mem, q, j);
      left, j := left - BLOCK_SIZE, j + 1;
    }
  }

  /** The templates with two batch widths, six and two blocks. */
  method AdvancedProcessBlocks6x2(unit: Unit, f: Block -> Block, mem: array<Block>, flags: Flags,
                                  input: int, mask: Option<int>, output: int, length: nat)
    returns (left: nat)
    requires Fits(SetUp(flags, input, mask, output, length / 16), mem.Length, length / 16)
    modifies mem
    ensures left == length % 16
    ensures mem[..] == Run(unit, [6, 2], f, flags, input, mask, output, old(mem[..]), length / 16)
    ensures (flags.allowParallel ==> RunSafe([6, 2], SetUp(flags, input, mask, output, length / 16), 0, length / 16)) ==>
              mem[..] == Serial(f, SetUp(flags, input, mask, output, length / 16), old(mem[..]), 0, length / 16)
  {
    hide Batched, Serial;
    ghost var n, i := length / 16, 0;
    var l := SetUp(flags, input, mask, output, length / 16);
    var p := Cursor(l.input, l.mask, l.output);
    left := length;
    if flags.allowParallel {
      ghost var widths: seq<Width> := [6, 2];
      assert widths[1..][1..] == [];
      p, left, i := BatchLoop(unit, f, l, mem, 6, p, left, widths, i, n);
      p, left, i := BatchLoop(unit, f, l, mem, 2, p, left, widths[1..], i, n);
    }
    BatchedByNothing(unit, f, l, mem[..], i, n);
    left := TailLoop(f, l, mem, p, left, i, n);
    RunIsSerial(unit, [6, 2], f, flags, input, mask, output, old(mem[..]), n);
  }

  /** The templates with one batch width: four blocks, or six on NEON. */
  method AdvancedProcessBlocksBy1(unit: Unit, width: Width, f: Block -> Block, mem: array<Block>, flags: Flags,
                                  input: int, mask: Option<int>, output: int, length: nat)
    returns (left: nat)
    requires Fits(SetUp(flags, input, mask, output, length / 16), mem.Length, length / 16)
    modifies mem
    ensures left == length % 16
    ensures mem[..] == Run(unit, [width], f, flags, input, mask, output, old(mem[..]), length / 16)
    ensures (flags.allowParallel ==> RunSafe([width], SetUp(flags, input, mask, output, length / 16), 0, length / 16)) ==>
              mem[..] == Serial(f, SetUp(flags, input, mask, output, length / 16), old(mem[..]), 0, length / 16)
  {
    hide Batched, Serial;
    ghost var n, i := length / 16, 0;
    var l := SetUp(flags, input, mask, output, length / 16);
    var p := Cursor(l.input, l.mask, l.output);
    left := length;
    if flags.allowParallel {
      assert [width][1..] == [];
      p, left, i := BatchLoop(unit, f, l, mem, width, p, left, [width], i, n);
    }
    BatchedByNothing(unit, f, l, mem[..], i, n);
    left := TailLoop(f, l, mem, p, left, i, n);
    RunIsSerial(unit, [width], f, flags, input, mask, output, old(mem[..]), n);
  }

  /** What a call leaves in memory: batches only when BT_AllowParallel is set. */
  function Run(unit: Unit, widths: seq<Width>, f: Block -> Block, flags: Flags,
               input: int, mask: Option<int>, output: int, m: Memory, n: nat): (r: Memory)
    requires Fits(SetUp(flags, input, mask, output, n), |m|, n)
    ensures |r| == |m|
  {
    Batched(unit, if flags.allowParallel then widths else [], f, SetUp(flags, input, mask, output, n), m, 0, n)
  }

  lemma BatchedByNothing(unit: Unit, f: Block -> Block, l: Layout, m: Memory, i: nat, n: nat)
    requires i <= n && Fits(l, |m|, n)
    ensures Batched(unit, [], f, l, m, i, n) == Serial(f, l, m, i, n)
  {}

  /** A call without BT_AllowParallel is the one-block loop whatever the overlaps; with it,
      the safety of the batches that run suffices. */
  lemma RunIsSerial(unit: Unit, widths: seq<Width>, f: Block -> Block, flags: Flags,
                    input: int, mask: Option<int>, output: int, m: Memory, n: nat)
    requires Fits(SetUp(flags, input, mask, output, n), |m|, n)
    ensures (flags.allowParallel ==> RunSafe(widths, SetUp(flags, input, mask, output, n), 0, n)) ==>
              Run(unit, widths, f, flags, input, mask, output, m, n)
                == Serial(f, SetUp(flags, input, mask, output, n), m, 0, n)
  {
    var l := SetUp(flags, input, mask, output, n);
    if flags.allowParallel && RunSafe(widths, l, 0, n) {
      BatchedIsSerial(unit, widths, f, l, m, 0, n);
    }
  }
}

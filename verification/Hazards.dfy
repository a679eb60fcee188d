/** Exactly when batches may replace single blocks (adv_simd.h), for pointers that move: the
    condition of `RunSafe` is not only sufficient but necessary. */
module Hazards {
  import opened Blocks
  import opened BlockProcessing
  import opened Wrappers

  /** The layouts of calls without BT_DontIncrementInOutPointers. */
  predicate Moving(l: Layout) {
    && l.outputStride != Stay
    && l.inputStride == (if l.counter then Stay else l.outputStride)
    && (l.Masked() ==> l.maskStride == l.outputStride)
    && !(l.xorInput && l.xorOutput)
  }

  lemma SetUpMoves(flags: Flags, input: int, mask: Option<int>, output: int, n: nat)
    requires !flags.dontIncrementInOutPointers
    ensures Moving(SetUp(flags, input, mask, output, n))
  {}

  function Zeros(size: nat): (m: Memory)
    ensures |m| == size
  {
    seq(size, _ => ZERO)
  }

  // ----- what the rest of a run does to one block -----

  /** A block that is not stored to: only the counter moves on, once a step. */
  function Later(l: Layout, a: int, b: Block, k: nat): Block {
    if l.counter && a == l.input then Bumps(b, k) else b
  }

  lemma {:induction false} BumpsAdd(b: Block, j: nat, k: nat)
    ensures Bumps(Bumps(b, j), k) == Bumps(b, j + k)
  {
    if k > 0 {
      BumpsAdd(b, j, k - 1);
    }
  }

  lemma {:induction false} BumpsInjective(b: Block, c: Block, k: nat)
    ensures Bumps(b, k) == Bumps(c, k) <==> b == c
  {
    if k > 0 {
      BumpsInjective(b, c, k - 1);
      BumpInjective(Bumps(b, k - 1), Bumps(c, k - 1));
    }
  }

  lemma BumpInjective(b: Block, c: Block)
    ensures BumpByte(b) == BumpByte(c) <==> b == c
  {
    if BumpByte(b) == BumpByte(c) {
      forall i | 0 <= i < 16 ensures b[i] == c[i] {
        assert BumpByte(b)[i] == BumpByte(c)[i];
      }
    }
  }

  lemma LaterAdds(l: Layout, a: int, b: Block, j: nat, k: nat)
    ensures Later(l, a, Later(l, a, b, j), k) == Later(l, a, b, j + k)
  {
    BumpsAdd(b, j, k);
  }

  lemma LaterInjective(l: Layout, a: int, b: Block, c: Block, k: nat)
    ensures Later(l, a, b, k) == Later(l, a, c, k) <==> b == c
  {
    BumpsInjective(b, c, k);
  }

  predicate NotStored(l: Layout, a: int, i: nat, n: nat) {
    forall j :: i <= j < n ==> l.Out(j) != a
  }

  lemma StepLater(f: Block -> Block, l: Layout, m: Memory, i: nat, a: nat)
    requires CounterStays(l) && StepFits(l, |m|, i) && a < |m| && l.Out(i) != a
    ensures Step(f, l, m, i)[a] == Later(l, a, m[a], 1)
  {
    hide Output, BumpByte;
    assert Bumps(m[a], 0) == m[a] && Bumps(m[a], 1) == BumpByte(Bumps(m[a], 0));
  }

  lemma {:induction false} SerialLater(f: Block -> Block, l: Layout, m: Memory, i: nat, n: nat, a: nat)
    requires CounterStays(l) && i <= n && Fits(l, |m|, n) && a < |m| && NotStored(l, a, i, n)
    ensures Serial(f, l, m, i, n)[a] == Later(l, a, m[a], n - i)
    decreases n - i
  {
    hide Step;
    if i < n {
      assert StepFits(l, |m|, i) && l.Out(i) != a;
      StepLater(f, l, m, i, a);
      SerialLater(f, l, Step(f, l, m, i), i + 1, n, a);
      LaterAdds(l, a, m[a], 1, n - i - 1);
    }
  }

  lemma BatchLater(unit: Unit, f: Block -> Block, l: Layout, m: Memory, i: nat, k: nat, a: nat)
    requires CounterStays(l) && 0 < k && Fits(l, |m|, i + k) && a < |m| && NotStored(l, a, i, i + k)
    ensures Batch(unit, f, l, m, i, k)[a] == Later(l, a, m[a], k)
  {
    hide BatchOutputs, LaneBumps;
    BatchIsStore(unit, f, l, m, i, k);
    StoreFrame(l, BatchCounter(unit, l, m, i, k), i, BatchOutputs(unit, f, l, m, i, k), a);
    LaneBumpsAreBumps(unit, m[a], k);
  }

  lemma {:induction false} BatchedLater(unit: Unit, widths: seq<Width>, f: Block -> Block, l: Layout, m: Memory,
                                        i: nat, n: nat, a: nat)
    requires CounterStays(l) && i <= n && Fits(l, |m|, n) && a < |m| && NotStored(l, a, i, n)
    ensures Batched(unit, widths, f, l, m, i, n)[a] == Later(l, a, m[a], n - i)
    decreases n - i, |widths|
  {
    hide Batch, Later;
    if widths == [] {
      SerialLater(f, l, m, i, n, a);
    } else if n - i >= widths[0] {
      var k := widths[0];
      BatchLater(unit, f, l, m, i, k, a);
      BatchedLater(unit, widths, f, l, Batch(unit, f, l, m, i, k), i + k, n, a);
      LaterAdds(l, a, m[a], k, n - i - k);
    } else {
      BatchedLater(unit, widths[1..], f, l, m, i, n, a);
    }
  }

  lemma OutputsApart(l: Layout, i: int, j: int)
    requires Moving(l) && i != j
    ensures l.Out(i) != l.Out(j)
  {}

  /** What step `t` stores, seen at step `n`. */
  lemma SerialAt(f: Block -> Block, l: Layout, m: Memory, i: nat, t: nat, n: nat)
    requires Moving(l) && i <= t < n && Fits(l, |m|, n)
    ensures StepFits(l, |m|, t)
    ensures Serial(f, l, m, i, n)[l.Out(t)]
         == Later(l, l.Out(t), Output(f, l, Serial(f, l, m, i, t), t), n - t - 1)
  {
    assert CounterStays(l);
    hide Later, Output, Bumped, Moving;
    assert StepFits(l, |m|, t);
    SerialSplits(f, l, m, i, t, n);
    var s := Serial(f, l, m, i, t);
    forall j | t + 1 <= j < n ensures l.Out(j) != l.Out(t) {
      OutputsApart(l, j, t);
    }
    SerialLater(f, l, Step(f, l, s, t), t + 1, n, l.Out(t));
  }

  /** What a batch stores for its block `t`. */
  lemma BatchAt(unit: Unit, f: Block -> Block, l: Layout, m: Memory, a: nat, k: nat, t: nat)
    requires Moving(l) && a <= t < a + k && Fits(l, |m|, a + k)
    ensures StepFits(l, |m|, t) && StepFits(l, |m|, a)
    ensures Batch(unit, f, l, m, a, k)[l.Out(t)]
         == Transformed(f, l, BatchCounter(unit, l, m, a, k), BatchInput(unit, l, m, a, t - a), t)
  {
    hide Transformed, BatchInput, BatchCounter;
    BatchIsStore(unit, f, l, m, a, k);
    assert StepFits(l, |m|, t);
    StoredLast(l, BatchCounter(unit, l, m, a, k), a, BatchOutputs(unit, f, l, m, a, k), t - a);
  }

  lemma {:induction false} StoredLast(l: Layout, m: Memory, i: nat, ys: seq<Block>, k: nat)
    requires Moving(l) && k < |ys| && Fits(l, |m|, i + |ys|)
    ensures StepFits(l, |m|, i + k) && Store(l, m, i, ys)[l.Out(i + k)] == ys[k]
    decreases |ys|
  {
    assert StepFits(l, |m|, i + k);
    if k < |ys| - 1 {
      OutputsApart(l, i + k, i + |ys| - 1);
      StoredLast(l, m, i, ys[..|ys| - 1], k);
    }
  }

  // ----- one diverging batch is enough -----

  /** From memory `m` at step `a`, the batch of `k` blocks stores something else for block `t`
      than single steps leave there. */
  predicate Diverges(unit: Unit, f: Block -> Block, l: Layout, m: Memory, a: nat, k: nat, t: nat)
    requires Fits(l, |m|, a + k)
  {
    && a <= t < a + k && StepFits(l, |m|, t)
    && Batch(unit, f, l, m, a, k)[l.Out(t)] != Serial(f, l, m, a, a + k)[l.Out(t)]
  }

  /** The first batch with a hazard: where it starts and how wide it is. */
  function FirstHazard(widths: seq<Width>, l: Layout, i: nat, n: nat): (h: (nat, nat))
    requires i <= n && !RunSafe(widths, l, i, n)
    ensures i <= h.0 && 0 < h.1 && h.0 + h.1 <= n && h.1 in widths && !BatchSafe(l, h.0, h.1)
    decreases n - i, |widths|
  {
    if n - i >= widths[0] then
      if BatchSafe(l, i, widths[0]) then FirstHazard(widths, l, i + widths[0], n) else (i, widths[0])
    else FirstHazard(widths[1..], l, i, n)
  }

  lemma NeverStoredAgain(l: Layout, t: int, i: nat, n: nat)
    requires Moving(l) && t < i
    ensures CounterStays(l) && NotStored(l, l.Out(t), i, n)
  {}

  /** Two memories that differ in a block which is not stored to stay different there. */
  lemma DifferenceStays(unit: Unit, widths: seq<Width>, f: Block -> Block, l: Layout, b: Memory, s: Memory,
                        i: nat, n: nat, p: nat)
    requires CounterStays(l) && i <= n && |b| == |s| && Fits(l, |b|, n) && p < |b| && NotStored(l, p, i, n)
    requires b[p] != s[p]
    ensures Batched(unit, widths, f, l, b, i, n)[p] != Serial(f, l, s, i, n)[p]
  {
    hide Batched, Serial, Later, CounterStays, Fits, NotStored;
    BatchedLater(unit, widths, f, l, b, i, n, p);
    SerialLater(f, l, s, i, n, p);
    LaterInjective(l, p, b[p], s[p], n - i);
  }

  lemma DivergenceStays(unit: Unit, widths: seq<Width>, f: Block -> Block, l: Layout, m: Memory, a: nat, k: nat,
                        n: nat, t: nat)
    requires Moving(l) && 0 < k && a + k <= n && Fits(l, |m|, n) && Fits(l, |m|, a + k)
    requires Diverges(unit, f, l, m, a, k, t)
    ensures Batched(unit, widths, f, l, Batch(unit, f, l, m, a, k), a + k, n) != Serial(f, l, m, a, n)
  {
    hide Batch, Batched, Serial, Moving, CounterStays, Fits, NotStored;
    NeverStoredAgain(l, t, a + k, n);
    DifferenceStays(unit, widths, f, l, Batch(unit, f, l, m, a, k), Serial(f, l, m, a, a + k), a + k, n, l.Out(t));
    SerialSplits(f, l, m, a, a + k, n);
  }

  /** Up to the first hazard both runs agree; what differs there is never made up for. */
  lemma {:induction false} RunDiverges(unit: Unit, widths: seq<Width>, f: Block -> Block, l: Layout, m: Memory,
                                       i: nat, n: nat, t: nat)
    requires Moving(l) && CounterStays(l) && i <= n && Fits(l, |m|, n) && !RunSafe(widths, l, i, n)
    requires var (a, k) := FirstHazard(widths, l, i, n);
      Fits(l, |m|, a) && Fits(l, |m|, a + k) && Diverges(unit, f, l, Serial(f, l, m, i, a), a, k, t)
    ensures Batched(unit, widths, f, l, m, i, n) != Serial(f, l, m, i, n)
    decreases n - i, |widths|
  {
    hide Batch, Step, BatchSafe, Diverges, Moving;
    if n - i >= widths[0] {
      var w := widths[0];
      if BatchSafe(l, i, w) {
        BatchIsSerial(unit, f, l, m, i, w);
        var m' := Serial(f, l, m, i, i + w);
        var a := FirstHazard(widths, l, i + w, n).0;
        SerialSplits(f, l, m, i, i + w, a);
        SerialSplits(f, l, m, i, i + w, n);
        RunDiverges(unit, widths, f, l, m', i + w, n, t);
      } else {
        DivergenceStays(unit, widths, f, l, m, i, w, n, t);
      }
    } else {
      RunDiverges(unit, widths[1..], f, l, m, i, n, t);
    }
  }
}

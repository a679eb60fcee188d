/** Exactly when batches may replace single blocks (adv_simd.h) for BT_DontIncrementInOutPointers,
    where every step stores to one block and only the mask moves. */
module FixedPointers {
  import opened Blocks
  import opened BlockProcessing
  import opened Hazards
  import opened Wrappers

  /** The layouts of calls with BT_DontIncrementInOutPointers. */
  predicate Fixed(l: Layout) {
    && l.inputStride == Stay && l.outputStride == Stay
    && (l.Masked() ==> l.maskStride != Stay)
    && !(l.xorInput && l.xorOutput)
  }

  lemma SetUpStays(flags: Flags, input: int, mask: Option<int>, output: int, n: nat)
    requires flags.dontIncrementInOutPointers
    ensures Fixed(SetUp(flags, input, mask, output, n))
  {}

  lemma MasksApart(l: Layout, i: int, j: int)
    requires Fixed(l) && l.Masked()
    ensures l.Mask(i) == l.Mask(j) <==> i == j
  {}

  // ----- how a run is cut up -----

  /** Step `t` is the last of its batch, or a single step. */
  predicate Ends(widths: seq<Width>, i: nat, n: nat, t: int)
    requires i <= n
    decreases n - i, |widths|
  {
    if widths == [] then true
    else if n - i < widths[0] then Ends(widths[1..], i, n, t)
    else if t < i + widths[0] then t == i + widths[0] - 1
    else Ends(widths, i + widths[0], n, t)
  }

  /** Step `t` is the first of its batch, or a single step. */
  predicate Starts(widths: seq<Width>, i: nat, n: nat, t: int)
    requires i <= n
  {
    i < t ==> Ends(widths, i, n, t - 1)
  }

  /** Every step is the last of its batch: no batch of two or more runs. */
  predicate AllEnd(widths: seq<Width>, i: nat, n: nat)
    requires i <= n
  {
    forall t :: i <= t < n ==> Ends(widths, i, n, t)
  }

  /** Step `t` is left to the one-block loop. */
  predicate Single(widths: seq<Width>, i: nat, n: nat, t: int)
    requires i <= n
    decreases n - i, |widths|
  {
    if widths == [] then true
    else if n - i < widths[0] then Single(widths[1..], i, n, t)
    else i + widths[0] <= t && Single(widths, i + widths[0], n, t)
  }

  lemma {:induction false} LastEnds(widths: seq<Width>, i: nat, n: nat)
    requires i < n
    ensures Ends(widths, i, n, n - 1)
    decreases n - i, |widths|
  {
    if widths != [] {
      if n - i < widths[0] {
        LastEnds(widths[1..], i, n);
      } else if i + widths[0] < n {
        LastEnds(widths, i + widths[0], n);
      }
    }
  }

  // ----- which steps the result depends on -----

  /** What step `t` stores depends on what the output block held. */
  predicate Reads(l: Layout, t: int) {
    if l.input == l.output then !(l.xorInput && l.Mask(t) == l.output) else l.Masked() && l.Mask(t) == l.output
  }

  /** The result depends on what step `t` stores: every later step reads it on. */
  predicate Matters(l: Layout, t: int, n: nat) {
    forall k :: t < k < n ==> Reads(l, k)
  }

  /** Step `t` comes out as a single step would: what it reads was stored before its batch began, and
      its input mask is not the counter, which a batch writes back too early. */
  predicate Alone(widths: seq<Width>, l: Layout, i: nat, n: nat, t: nat)
    requires i <= n
  {
    && (Reads(l, t) ==> Starts(widths, i, n, t))
    && (l.counter && l.xorInput && l.Mask(t) == l.input ==> Single(widths, i, n, t))
  }

  predicate FixedSafe(widths: seq<Width>, l: Layout, i: nat, n: nat)
    requires i <= n
  {
    forall t :: i <= t < n && Matters(l, t, n) ==> Alone(widths, l, i, n, t)
  }

  // ----- one batch, one step -----

  /** `a` and `b` hold the same off the output block. */
  predicate Agree(l: Layout, a: Memory, b: Memory) {
    && |a| == |b|
    && (forall p :: 0 <= p < |a| && p != l.output ==> a[p] == b[p])
  }

  /** The block the last of `k` steps works on, and its mask, by what the first one finds. */
  lemma BatchLast(unit: Unit, f: Block -> Block, l: Layout, m: Memory, i: nat, k: nat)
    requires Fixed(l) && 0 < k && Fits(l, |m|, i + k)
    ensures 0 <= l.input < |m| && 0 <= l.output < |m| && (l.Masked() ==> 0 <= l.Mask(i + k - 1) < |m|)
    ensures var c := if l.counter then m[l.input := Bumps(m[l.input], k)] else m;
      var x := if l.counter then Bumps(m[l.input], k - 1) else m[l.input];
      Batch(unit, f, l, m, i, k) == c[l.output := Masked(f, l, x, if l.Masked() then c[l.Mask(i + k - 1)] else x)]
  {
    hide Masked, LaneBumps, Bumps;
    BatchIsStore(unit, f, l, m, i, k);
    assert StepFits(l, |m|, i) && StepFits(l, |m|, i + k - 1);
    LaneBumpsAreBumps(unit, m[l.input], k);
    LaneBumpsAreBumps(unit, m[l.input], k - 1);
    var ys := BatchOutputs(unit, f, l, m, i, k);
    var c := BatchCounter(unit, l, m, i, k);
    StoredOnOne(l, c, i, ys);
    assert ys[k - 1] == Transformed(f, l, c, BatchInput(unit, l, m, i, k - 1), i + (k - 1));
  }

  lemma {:induction false} StoredOnOne(l: Layout, m: Memory, i: nat, ys: seq<Block>)
    requires Fixed(l) && ys != [] && Fits(l, |m|, i + |ys|)
    ensures StepFits(l, |m|, i) && Store(l, m, i, ys) == m[l.output := ys[|ys| - 1]]
    decreases |ys|
  {
    assert StepFits(l, |m|, i) && StepFits(l, |m|, i + |ys| - 1);
    if |ys| > 1 {
      StoredOnOne(l, m, i, ys[..|ys| - 1]);
    }
  }

  /** A single step is what a batch of one would be, but for the counter as an input mask. */
  lemma StepLast(f: Block -> Block, l: Layout, m: Memory, i: nat)
    requires Fixed(l) && StepFits(l, |m|, i)
    ensures var c := if l.counter then m[l.input := BumpByte(m[l.input])] else m;
      Step(f, l, m, i)
      == c[l.output := Masked(f, l, m[l.input], if !l.Masked() then m[l.input]
                                                else if l.xorInput then m[l.Mask(i)] else c[l.Mask(i)])]
  {
    hide Xor, BumpByte;
  }

  // ----- the condition suffices -----

  /** Off the output block nothing moves but the counter, in batches as in single steps. */
  lemma OffOutput(unit: Unit, f: Block -> Block, l: Layout, a: Memory, b: Memory, i: nat, k: nat)
    requires Fixed(l) && 0 < k && Agree(l, a, b) && Fits(l, |a|, i + k)
    ensures Agree(l, Batch(unit, f, l, a, i, k), Serial(f, l, b, i, i + k))
    ensures Agree(l, Serial(f, l, a, i, i + k), Serial(f, l, b, i, i + k))
  {
    hide Batch, Serial, Fits;
    forall p | 0 <= p < |a| && p != l.output
      ensures Batch(unit, f, l, a, i, k)[p] == Serial(f, l, b, i, i + k)[p]
      ensures Serial(f, l, a, i, i + k)[p] == Serial(f, l, b, i, i + k)[p]
    {
      BatchLater(unit, f, l, a, i, k, p);
      SerialLater(f, l, a, i, i + k, p);
      SerialLater(f, l, b, i, i + k, p);
    }
  }

  lemma OneStep(f: Block -> Block, l: Layout, m: Memory, i: nat)
    requires Fits(l, |m|, i + 1)
    ensures StepFits(l, |m|, i) && Serial(f, l, m, i, i + 1) == Step(f, l, m, i)
  {
    hide Step;
    assert StepFits(l, |m|, i);
  }

  /** What the last of `k` single steps stores. */
  lemma SerialLast(f: Block -> Block, l: Layout, m: Memory, i: nat, k: nat)
    requires Fixed(l) && 0 < k && Fits(l, |m|, i + k)
    ensures Fits(l, |m|, i + k - 1) && StepFits(l, |m|, i + k - 1)
    ensures Serial(f, l, m, i, i + k) == Step(f, l, Serial(f, l, m, i, i + k - 1), i + k - 1)
  {
    hide Step, Serial;
    assert StepFits(l, |m|, i + k - 1);
    SerialSplits(f, l, m, i, i + k - 1, i + k);
    OneStep(f, l, Serial(f, l, m, i, i + k - 1), i + k - 1);
  }

  /** A batch whose last step reads nothing and is not masked with the counter. */
  lemma BatchForgets(unit: Unit, f: Block -> Block, l: Layout, a: Memory, b: Memory, i: nat, k: nat)
    requires Fixed(l) && 0 < k && Agree(l, a, b) && Fits(l, |a|, i + k)
    requires !Reads(l, i + k - 1) && !(l.counter && l.xorInput && l.Mask(i + k - 1) == l.input)
    ensures Batch(unit, f, l, a, i, k) == Serial(f, l, b, i, i + k)
  {
    OffOutput(unit, f, l, a, b, i, k);
    hide Xor, Serial, Batch, Step, Bumps, Bumped;
    SerialLast(f, l, b, i, k);
    BatchLast(unit, f, l, a, i, k);
    var t := i + k - 1;
    var s := Serial(f, l, b, i, t);
    StepLast(f, l, s, t);
    SerialHere(f, l, b, i, t);
    if l.input == l.output {
      XorItself(s[l.input]);
      XorItself(a[l.input]);
    }
  }

  /** Where input and mask stand after single steps. */
  lemma SerialHere(f: Block -> Block, l: Layout, m: Memory, i: nat, t: nat)
    requires Fixed(l) && i <= t && Fits(l, |m|, t)
    ensures forall p :: 0 <= p < |m| && p != l.output ==>
      Serial(f, l, m, i, t)[p] == if l.counter && p == l.input then Bumps(m[p], t - i) else m[p]
  {
    hide Serial, Fits, Bumps;
    forall p | 0 <= p < |m| && p != l.output
      ensures Serial(f, l, m, i, t)[p] == if l.counter && p == l.input then Bumps(m[p], t - i) else m[p]
    {
      SerialLater(f, l, m, i, t, p);
    }
  }

  /** The same for a single step, whose mask is loaded before the counter moves. */
  lemma StepForgets(f: Block -> Block, l: Layout, a: Memory, b: Memory, i: nat)
    requires Fixed(l) && Agree(l, a, b) && StepFits(l, |a|, i)
    ensures Agree(l, Step(f, l, a, i), Step(f, l, b, i))
    ensures !Reads(l, i) ==> Step(f, l, a, i) == Step(f, l, b, i)
  {
    hide Xor, BumpByte, Step;
    StepLast(f, l, a, i);
    StepLast(f, l, b, i);
    if l.input == l.output {
      XorItself(a[l.input]);
      XorItself(b[l.input]);
    }
  }

  lemma OneIsStep(unit: Unit, f: Block -> Block, l: Layout, m: Memory, i: nat)
    requires Fixed(l) && Fits(l, |m|, i + 1) && !(l.counter && l.xorInput && l.Mask(i) == l.input)
    ensures Batch(unit, f, l, m, i, 1) == Serial(f, l, m, i, i + 1)
  {
    hide Batch, Step;
    OneStep(f, l, m, i);
    BatchOfOne(unit, f, l, m, i);
  }

  predicate SomeForgets(l: Layout, i: nat, n: nat) {
    exists t :: i <= t < n && !Reads(l, t)
  }

  /** After a safe batch the two runs hold the same, unless a later step forgets the difference. */
  lemma SafeBatch(unit: Unit, widths: seq<Width>, f: Block -> Block, l: Layout, a: Memory, b: Memory, i: nat, n: nat)
    requires Fixed(l) && i <= n && Fits(l, |a|, n) && Agree(l, a, b) && (a == b || SomeForgets(l, i, n))
    requires widths != [] && n - i >= widths[0] && FixedSafe(widths, l, i, n)
    ensures var k := widths[0];
      && Agree(l, Batch(unit, f, l, a, i, k), Serial(f, l, b, i, i + k))
      && (Batch(unit, f, l, a, i, k) == Serial(f, l, b, i, i + k) || SomeForgets(l, i + k, n))
  {
    hide Batch, Serial, Fits;
    var k := widths[0];
    var t: nat := i + k - 1;
    FitsShorter(l, |a|, i + k, n);
    OffOutput(unit, f, l, a, b, i, k);
    if !SomeForgets(l, i + k, n) {
      assert Matters(l, t, n);
      assert Alone(widths, l, i, n, t);
      assert !Single(widths, i, n, t);
      if Reads(l, t) {
        if k > 1 {
          NotLast(widths, i, n);
        }
        OneIsStep(unit, f, l, a, i);
      } else {
        BatchForgets(unit, f, l, a, b, i, k);
      }
    }
  }

  lemma NotLast(widths: seq<Width>, i: nat, n: nat)
    requires i <= n && widths != [] && n - i >= widths[0] > 1
    ensures !Ends(widths, i, n, i + widths[0] - 2)
  {}

  lemma FitsShorter(l: Layout, size: nat, k: nat, n: nat)
    requires Fits(l, size, n) && k <= n
    ensures Fits(l, size, k)
  {}

  lemma SafeRest(widths: seq<Width>, l: Layout, i: nat, n: nat)
    requires i <= n && FixedSafe(widths, l, i, n) && widths != []
    ensures n - i >= widths[0] ==> FixedSafe(widths, l, i + widths[0], n)
    ensures n - i < widths[0] ==> FixedSafe(widths[1..], l, i, n)
  {
    hide Reads, Matters;
    if n - i >= widths[0] {
      forall t | i + widths[0] <= t < n && Matters(l, t, n) ensures Alone(widths, l, i + widths[0], n, t) {
        assert Alone(widths, l, i, n, t);
      }
    } else {
      forall t | i <= t < n && Matters(l, t, n) ensures Alone(widths[1..], l, i, n, t) {
        assert Alone(widths, l, i, n, t);
      }
    }
  }

  lemma {:induction false} FixedRunIsSerial(unit: Unit, widths: seq<Width>, f: Block -> Block, l: Layout,
                                            a: Memory, b: Memory, i: nat, n: nat)
    requires Fixed(l) && i <= n && |a| == |b| && Fits(l, |a|, n) && Agree(l, a, b)
    requires a == b || SomeForgets(l, i, n)
    requires FixedSafe(widths, l, i, n)
    ensures Batched(unit, widths, f, l, a, i, n) == Serial(f, l, b, i, n)
    decreases n - i, |widths|
  {
    hide Batch, Step, Fixed, Agree, Fits, FixedSafe, Reads;
    if widths == [] {
      if i < n {
        FitsAtStart(l, |a|, i, n);
        StepForgets(f, l, a, b, i);
        SafeAlone(l, i + 1, n);
        FixedRunIsSerial(unit, [], f, l, Step(f, l, a, i), Step(f, l, b, i), i + 1, n);
      }
    } else {
      SafeRest(widths, l, i, n);
      if n - i >= widths[0] {
        var k := widths[0];
        FitsShorter(l, |a|, i + k, n);
        SafeBatch(unit, widths, f, l, a, b, i, n);
        SerialSplits(f, l, b, i, i + k, n);
        FixedRunIsSerial(unit, widths, f, l, Batch(unit, f, l, a, i, k), Serial(f, l, b, i, i + k), i + k, n);
      } else {
        FixedRunIsSerial(unit, widths[1..], f, l, a, b, i, n);
      }
    }
  }

  lemma FitsAtStart(l: Layout, size: nat, i: nat, n: nat)
    requires Fits(l, size, n) && i < n
    ensures StepFits(l, size, i)
  {}

  lemma SafeAlone(l: Layout, i: nat, n: nat)
    requires i <= n
    ensures FixedSafe([], l, i, n)
  {
    hide Reads, Matters;
  }
}

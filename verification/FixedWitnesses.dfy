/** For every run with pointers that do not move and a step that is not alone, a cipher and a memory
    that show it (adv_simd.h). */
module FixedWitnesses {
  import opened Octets
  import opened Blocks
  import opened BlockProcessing
  import opened Hazards
  import opened HazardWitnesses
  import opened FixedPointers
  import opened Powers

  // ----- what a batch or a step stores, up to the counter byte -----

  /** Blocks that differ at most in the counter byte. */
  predicate Near(a: Block, b: Block) { forall j :: 0 <= j < 15 ==> a[j] == b[j] }

  /** Memory `r` is `m` after a batch, or a single step, whose last step is `t`. */
  ghost predicate After(f: Block -> Block, l: Layout, m: Memory, r: Memory, t: int) {
    && |r| == |m|
    && 0 <= l.input < |m| && 0 <= l.output < |m| && (l.Masked() ==> 0 <= l.Mask(t) < |m|)
    && (forall p :: 0 <= p < |m| && p != l.output ==> Near(r[p], m[p]))
    && exists x: Block, y: Block ::
         Near(x, m[l.input]) && (l.Masked() ==> Near(y, m[l.Mask(t)])) && r[l.output] == Masked(f, l, x, y)
  }

  lemma NearBumps(b: Block, k: nat)
    ensures Near(Bumps(b, k), b) && Near(b, b) && Near(BumpByte(b), b)
  {
    hide CounterByte, Bumps;
    BumpsAddModulo256(b, k);
  }

  lemma BatchAfter(unit: Unit, f: Block -> Block, l: Layout, m: Memory, i: nat, k: nat)
    requires Fixed(l) && 0 < k && Fits(l, |m|, i + k)
    ensures After(f, l, m, Batch(unit, f, l, m, i, k), i + k - 1)
  {
    hide Masked, Bumps, Batch, Near, BumpByte, Fits;
    BatchLast(unit, f, l, m, i, k);
    forall b: Block ensures Near(b, b) && Near(Bumps(b, k), b) && Near(Bumps(b, k - 1), b) {
      NearBumps(b, k);
      NearBumps(b, k - 1);
    }
    var c := if l.counter then m[l.input := Bumps(m[l.input], k)] else m;
    var x := if l.counter then Bumps(m[l.input], k - 1) else m[l.input];
    var y := if l.Masked() then c[l.Mask(i + k - 1)] else x;
    assert Near(x, m[l.input]);
    assert l.Masked() ==> Near(y, m[l.Mask(i + k - 1)]);
    assert Batch(unit, f, l, m, i, k)[l.output] == Masked(f, l, x, y);
  }

  lemma StepAfter(f: Block -> Block, l: Layout, m: Memory, i: nat)
    requires Fixed(l) && StepFits(l, |m|, i)
    ensures After(f, l, m, Step(f, l, m, i), i)
  {
    hide Masked, Bumps, Step, Near, BumpByte;
    StepLast(f, l, m, i);
    forall b: Block ensures Near(BumpByte(b), b) && Near(b, b) {
      NearBumps(b, 0);
    }
  }

  // ----- blocks that are dark or lit -----

  predicate Lit(b: Block) { b[0] != 0 }

  /** A cipher that takes dark blocks to dark ones and lit blocks to lit ones. */
  ghost predicate KeepsLight(f: Block -> Block) { forall b :: Lit(f(b)) <==> Lit(b) }

  /** Besides, no lit block keeps its first byte. */
  ghost predicate Turns(f: Block -> Block) { forall b :: Lit(b) ==> f(b)[0] != b[0] }

  /** All is dark but, perhaps, the output block and block `p`. */
  predicate DarkBut(l: Layout, m: Memory, p: int) {
    && p != l.input
    && (forall q :: 0 <= q < |m| && q != p && q != l.output ==> !Lit(m[q]))
  }

  lemma XorLights(a: Block, b: Block)
    ensures Xor(a, b)[0] == a[0] ^ b[0]
    ensures !Lit(a) ==> (Lit(Xor(a, b)) <==> Lit(b))
    ensures !Lit(b) ==> (Lit(Xor(a, b)) <==> Lit(a))
    ensures Lit(Xor(a, b)) <==> a[0] != b[0]
  {
    XorByte(a[0], b[0]);
  }

  lemma XorByte(a: byte, b: byte)
    ensures a == 0 ==> a ^ b == b
    ensures b == 0 ==> a ^ b == a
    ensures a ^ b == 0 <==> a == b
  {}

  lemma StaysDarkBut(f: Block -> Block, l: Layout, m: Memory, r: Memory, t: int, p: int)
    requires After(f, l, m, r, t) && DarkBut(l, m, p)
    ensures DarkBut(l, r, p) && (0 <= p < |m| && p != l.output ==> (Lit(r[p]) <==> Lit(m[p])))
  {
    hide Masked;
    forall q | 0 <= q < |m| && q != l.output ensures Lit(r[q]) <==> Lit(m[q]) {
      assert Near(r[q], m[q]);
    }
  }

  /** A step that finds no light stores none. */
  lemma AfterDark(f: Block -> Block, l: Layout, m: Memory, r: Memory, t: int, p: int)
    requires Fixed(l) && After(f, l, m, r, t) && KeepsLight(f) && DarkBut(l, m, p)
    requires !Lit(m[l.output]) && (l.Masked() ==> l.Mask(t) != p)
    ensures !Lit(r[l.output])
  {
    hide Xor;
    var x: Block, y: Block :|
      Near(x, m[l.input]) && (l.Masked() ==> Near(y, m[l.Mask(t)])) && r[l.output] == Masked(f, l, x, y);
    XorLights(x, y);
    XorLights(f(x), y);
  }

  /** A step that reads a lit output block leaves it lit. */
  lemma AfterLit(f: Block -> Block, l: Layout, m: Memory, r: Memory, t: int, p: int)
    requires Fixed(l) && After(f, l, m, r, t) && KeepsLight(f) && DarkBut(l, m, p)
    requires Lit(m[l.output]) && Reads(l, t) && (l.Masked() ==> l.Mask(t) != p)
    requires l.input == l.output && l.Masked() && l.Mask(t) == l.output ==> Turns(f)
    ensures Lit(r[l.output])
  {
    hide Xor;
    var x: Block, y: Block :|
      Near(x, m[l.input]) && (l.Masked() ==> Near(y, m[l.Mask(t)])) && r[l.output] == Masked(f, l, x, y);
    XorLights(x, y);
    XorLights(f(x), y);
  }

  /** A lit mask lights the output block. */
  lemma AfterKindled(f: Block -> Block, l: Layout, m: Memory, r: Memory, t: int, p: int)
    requires Fixed(l) && After(f, l, m, r, t) && KeepsLight(f) && DarkBut(l, m, p)
    requires l.Masked() && l.Mask(t) == p != l.output && Lit(m[p]) && !Lit(m[l.output])
    ensures Lit(r[l.output])
  {
    hide Xor;
    var x: Block, y: Block :|
      Near(x, m[l.input]) && (l.Masked() ==> Near(y, m[l.Mask(t)])) && r[l.output] == Masked(f, l, x, y);
    XorLights(x, y);
    XorLights(f(x), y);
  }

  /** A masked step that does not let the light of the output block through. */
  predicate Shuts(l: Layout, t: int, p: int) {
    && l.Masked()
    && if l.input == l.output then l.Mask(t) == l.output else l.Mask(t) != l.output && l.Mask(t) != p
  }

  lemma AfterShut(l: Layout, m: Memory, r: Memory, t: int, p: int)
    requires Fixed(l) && After(Same, l, m, r, t) && DarkBut(l, m, p) && Shuts(l, t, p)
    ensures !Lit(r[l.output])
  {
    hide Xor;
    var x: Block, y: Block :|
      Near(x, m[l.input]) && (l.Masked() ==> Near(y, m[l.Mask(t)])) && r[l.output] == Masked(Same, l, x, y);
    XorLights(x, y);
  }

  // ----- whole runs -----

  /** The first batch or step of a run: what it leaves, its last step, and the widths still to come. */
  lemma {:induction false} Unroll(unit: Unit, widths: seq<Width>, f: Block -> Block, l: Layout, m: Memory,
                                  i: nat, n: nat) returns (rest: seq<Width>, r: Memory, t: nat)
    requires Fixed(l) && i < n && Fits(l, |m|, n)
    ensures i <= t < n && After(f, l, m, r, t) && |r| == |m|
    ensures Batched(unit, widths, f, l, m, i, n) == Batched(unit, rest, f, l, r, t + 1, n)
    ensures forall s :: i <= s < n ==> (Ends(widths, i, n, s) <==> s == t || (t < s && Ends(rest, t + 1, n, s)))
    decreases |widths|
  {
    hide After, Batch, Step, Fixed;
    if widths == [] {
      FitsAtStart(l, |m|, i, n);
      rest, r, t := [], Step(f, l, m, i), i;
      StepAfter(f, l, m, i);
    } else if n - i >= widths[0] {
      FitsShorter(l, |m|, i + widths[0], n);
      rest, r, t := widths, Batch(unit, f, l, m, i, widths[0]), i + widths[0] - 1;
      BatchAfter(unit, f, l, m, i, widths[0]);
    } else {
      rest, r, t := Unroll(unit, widths[1..], f, l, m, i, n);
    }
  }

  /** Dark all the way: the lit block is the mask of no step that counts. */
  lemma {:induction false} Quiet(unit: Unit, widths: seq<Width>, f: Block -> Block, l: Layout, m: Memory,
                                 i: nat, n: nat, p: int)
    requires Fixed(l) && i <= n && Fits(l, |m|, n) && 0 <= l.output < |m|
    requires KeepsLight(f) && DarkBut(l, m, p) && !Lit(m[l.output])
    requires l.Masked() ==> forall t :: i <= t < n && Ends(widths, i, n, t) ==> l.Mask(t) != p
    ensures !Lit(Batched(unit, widths, f, l, m, i, n)[l.output])
    decreases n - i
  {
    hide After, KeepsLight, DarkBut, Lit, Fixed, Fits, Ends, Batched;
    if i < n {
      var rest, r, t := Unroll(unit, widths, f, l, m, i, n);
      StaysDarkBut(f, l, m, r, t, p);
      AfterDark(f, l, m, r, t, p);
      Quiet(unit, rest, f, l, r, t + 1, n, p);
    } else {
      RunOfNone(unit, widths, f, l, m, n);
    }
  }

  lemma {:induction false} RunOfNone(unit: Unit, widths: seq<Width>, f: Block -> Block, l: Layout, m: Memory, n: nat)
    requires Fits(l, |m|, n)
    ensures Batched(unit, widths, f, l, m, n, n) == m
    decreases |widths|
  {
    if widths != [] {
      RunOfNone(unit, widths[1..], f, l, m, n);
    }
  }

  /** Every step that counts from `i` reads the output block on, and masks with no lit block. */
  predicate ReadsOn(widths: seq<Width>, l: Layout, i: nat, n: nat, p: int)
    requires i <= n
  {
    forall t :: i <= t < n && Ends(widths, i, n, t) ==> Reads(l, t) && (l.Masked() ==> l.Mask(t) != p)
  }

  /** Among the steps that count from `i`, no mask is the output block, when that is the input too. */
  predicate NoHit(widths: seq<Width>, l: Layout, i: nat, n: nat)
    requires i <= n
  {
    l.input == l.output && l.Masked() ==> forall t :: i <= t < n && Ends(widths, i, n, t) ==> l.Mask(t) != l.output
  }

  /** Lit all the way. */
  lemma {:induction false} Loud(unit: Unit, widths: seq<Width>, f: Block -> Block, l: Layout, m: Memory,
                                i: nat, n: nat, p: int)
    requires Fixed(l) && i <= n && Fits(l, |m|, n) && 0 <= l.output < |m|
    requires KeepsLight(f) && DarkBut(l, m, p) && Lit(m[l.output])
    requires ReadsOn(widths, l, i, n, p) && (Turns(f) || NoHit(widths, l, i, n))
    ensures Lit(Batched(unit, widths, f, l, m, i, n)[l.output])
    decreases n - i
  {
    hide After, KeepsLight, Turns, DarkBut, Lit, Fixed, Fits, Ends, Batched, Reads;
    if i < n {
      var rest, r, t := Unroll(unit, widths, f, l, m, i, n);
      StaysDarkBut(f, l, m, r, t, p);
      AfterLit(f, l, m, r, t, p);
      Loud(unit, rest, f, l, r, t + 1, n, p);
    } else {
      RunOfNone(unit, widths, f, l, m, n);
    }
  }

  /** A mask lights the output block at step `u`, and the light is read on to the end. */
  lemma {:induction false} Kindled(unit: Unit, widths: seq<Width>, f: Block -> Block, l: Layout, m: Memory,
                                   i: nat, n: nat, p: nat, u: nat)
    requires Fixed(l) && l.Masked() && i <= u < n && Fits(l, |m|, n) && 0 <= l.output < |m| && p < |m|
    requires KeepsLight(f) && DarkBut(l, m, p) && !Lit(m[l.output]) && Lit(m[p]) && p != l.output
    requires l.Mask(u) == p && Ends(widths, i, n, u)
    requires forall t :: u < t < n && Ends(widths, i, n, t) ==> Reads(l, t)
    requires Turns(f) || NoHit(widths, l, i, n)
    ensures Lit(Batched(unit, widths, f, l, m, i, n)[l.output])
    decreases n - i
  {
    hide After, KeepsLight, Turns, DarkBut, Lit, Fits, Ends, Batched, Reads;
    var rest, r, t := Unroll(unit, widths, f, l, m, i, n);
    StaysDarkBut(f, l, m, r, t, p);
    assert t <= u;
    MasksApart(l, t, u);
    if t < u {
      AfterDark(f, l, m, r, t, p);
      Kindled(unit, rest, f, l, r, t + 1, n, p, u);
    } else {
      AfterKindled(f, l, m, r, t, p);
      forall s | t < s < n ensures l.Mask(s) != p {
        MasksApart(l, s, u);
      }
      Loud(unit, rest, f, l, r, t + 1, n, p);
    }
  }

  /** Step `u` lets no light through, and none comes after it. */
  lemma {:induction false} Shut(unit: Unit, widths: seq<Width>, l: Layout, m: Memory, i: nat, n: nat, p: int, u: nat)
    requires Fixed(l) && i <= u < n && Fits(l, |m|, n) && 0 <= l.output < |m| && DarkBut(l, m, p)
    requires Ends(widths, i, n, u) && Shuts(l, u, p)
    requires forall t :: u < t < n ==> l.Mask(t) != p
    ensures !Lit(Batched(unit, widths, Same, l, m, i, n)[l.output])
    decreases n - i
  {
    hide After, KeepsLight, DarkBut, Lit, Fixed, Fits, Ends, Batched, Shuts;
    var rest, r, t := Unroll(unit, widths, Same, l, m, i, n);
    StaysDarkBut(Same, l, m, r, t, p);
    assert t <= u;
    if t < u {
      Shut(unit, rest, l, r, t + 1, n, p, u);
    } else {
      AfterShut(l, m, r, t, p);
      SameKeepsLight();
      Quiet(unit, rest, Same, l, r, t + 1, n, p);
    }
  }

  lemma SameKeepsLight()
    ensures KeepsLight(Same)
  {}

  // ----- without a mask: a cipher that counts how often it is applied -----

  function Value(s: seq<byte>): nat {
    if s == [] then 0 else Digit(s[0]) + 256 * Value(s[1..])
  }

  /** One more, least significant byte first. */
  function Next(s: seq<byte>): (r: seq<byte>)
    ensures |r| == |s|
  {
    if s == [] then [] else if s[0] == 255 then [0] + Next(s[1..]) else [s[0] + 1] + s[1..]
  }

  lemma {:induction false} NextCounts(s: seq<byte>)
    requires Value(s) + 1 < Pow256(|s|)
    ensures Value(Next(s)) == Value(s) + 1
  {
    hide Digit;
    if s != [] {
      IncrementWraps(s[0]);
      DigitBound(s[0]);
      LastDigit(s[0]);
      if s[0] == 255 {
        NextCounts(s[1..]);
      }
    }
  }

  lemma LastDigit(b: byte)
    ensures Digit(b) == 255 <==> b == 255
    ensures Digit(0) == 0
  {}

  lemma {:induction false} NextInjective(a: seq<byte>, b: seq<byte>)
    requires |a| == |b|
    ensures Next(a) == Next(b) ==> a == b
  {
    if a != [] && Next(a) == Next(b) {
      NextByte(a[0], b[0]);
      assert Next(a)[0] == Next(b)[0] && Next(a)[1..] == Next(b)[1..];
      NextInjective(a[1..], b[1..]);
      assert a == [a[0]] + a[1..] && b == [b[0]] + b[1..];
    }
  }

  lemma NextByte(a: byte, b: byte)
    ensures a + 1 == b + 1 ==> a == b
    ensures a + 1 == 0 ==> a == 255
  {}

  function Low(b: Block): seq<byte> { b[..8] }

  function Counting(b: Block): Block { Next(b[..8]) + b[8..] }

  lemma CountingOneToOne()
    ensures OneToOne(Counting)
  {
    hide Next;
    forall a: Block, b: Block | Counting(a) == Counting(b) ensures a == b {
      assert Counting(a)[..8] == Next(Low(a)) && Counting(b)[..8] == Next(Low(b));
      assert Counting(a)[8..] == a[8..] && Counting(b)[8..] == b[8..];
      NextInjective(Low(a), Low(b));
      assert a == a[..8] + a[8..] && b == b[..8] + b[8..];
    }
  }

  function Count(l: Layout, m: Memory): nat
    requires 0 <= l.output < |m|
  {
    Value(Low(m[l.output]))
  }

  lemma AfterCounts(l: Layout, m: Memory, r: Memory, t: int)
    requires After(Counting, l, m, r, t) && l.input == l.output && !l.Masked() && Count(l, m) + 1 < Pow256(8)
    ensures Count(l, r) == Count(l, m) + 1
  {
    hide Value, Next, Pow256;
    var x: Block, y: Block :| Near(x, m[l.input]) && r[l.output] == Masked(Counting, l, x, y);
    assert Low(x) == Low(m[l.input]);
    assert Low(Counting(x)) == Next(Low(x));
    NextCounts(Low(x));
  }

  lemma AllEndUnrolls(widths: seq<Width>, rest: seq<Width>, i: nat, u: nat, n: nat)
    requires i < u <= n
    requires forall s :: i <= s < n ==> (Ends(widths, i, n, s) <==> s == u - 1 || (u <= s && Ends(rest, u, n, s)))
    ensures AllEnd(widths, i, n) <==> u == i + 1 && AllEnd(rest, u, n)
  {
    hide Ends;
    if AllEnd(widths, i, n) {
      assert Ends(widths, i, n, i);
      forall s | u <= s < n ensures Ends(rest, u, n, s) {
        assert Ends(widths, i, n, s);
      }
    }
  }

  lemma NoneEnd(widths: seq<Width>, n: nat)
    ensures AllEnd(widths, n, n)
  {}

  /** The cipher is applied once a batch: as often as there are steps only when each is its own. */
  lemma {:induction false} Counts(unit: Unit, widths: seq<Width>, l: Layout, m: Memory, i: nat, n: nat)
    requires Fixed(l) && l.input == l.output && !l.Masked() && i <= n && Fits(l, |m|, n) && 0 <= l.output < |m|
    requires Count(l, m) + (n - i) < Pow256(8)
    ensures var c := Count(l, Batched(unit, widths, Counting, l, m, i, n));
      && c <= Count(l, m) + (n - i)
      && (c == Count(l, m) + (n - i) <==> AllEnd(widths, i, n))
    decreases n - i
  {
    hide After, Fixed, Fits, Ends, AllEnd, Batched, Counting, Count, Pow256;
    if i < n {
      var rest, r, t := Unroll(unit, widths, Counting, l, m, i, n);
      AfterCounts(l, m, r, t);
      Counts(unit, rest, l, r, t + 1, n);
      AllEndUnrolls(widths, rest, i, t + 1, n);
    } else {
      assert AllEnd(widths, i, n) by { NoneEnd(widths, n); }
      RunOfNone(unit, widths, Counting, l, m, n);
    }
  }

  // ----- every step that is not alone shows -----

  /** Turns every first byte but zero, in a circle. */
  function Turn(b: Block): Block { b[0 := if b[0] == 0 then 0 else if b[0] == 255 then 1 else b[0] + 1] }

  lemma TurnOneToOne()
    ensures OneToOne(Turn) && KeepsLight(Turn) && Turns(Turn) && OneToOne(Same)
  {
    forall a: Block, b: Block | Turn(a) == Turn(b) ensures a == b {
      assert Turn(a)[0] == Turn(b)[0];
      TurnByte(a[0], b[0]);
      forall j | 0 < j < 16 ensures a[j] == b[j] {
        assert Turn(a)[j] == Turn(b)[j];
      }
    }
    forall b: Block ensures (Lit(Turn(b)) <==> Lit(b)) && (Lit(b) ==> Turn(b)[0] != b[0]) {
      TurnByte(b[0], b[0]);
    }
  }

  lemma TurnByte(a: byte, b: byte)
    ensures a != 255 ==> a + 1 != 0
    ensures a + 1 == b + 1 ==> a == b
    ensures a + 1 == 1 ==> a == 0
    ensures a != a + 1
  {}

  /** Cipher `f` and memory `m` tell the batched run from the one-block loop. */
  ghost predicate Tells(unit: Unit, widths: seq<Width>, l: Layout, n: nat, f: Block -> Block, m: Memory)
    requires Fits(l, |m|, n)
  {
    OneToOne(f) && Batched(unit, widths, f, l, m, 0, n) != Serial(f, l, m, 0, n)
  }

  ghost predicate Told(unit: Unit, widths: seq<Width>, l: Layout, n: nat, size: nat)
    requires Fits(l, size, n)
  {
    exists f: Block -> Block, m: Memory :: |m| == size && Tells(unit, widths, l, n, f, m)
  }

  lemma ZerosDark(l: Layout, size: nat, p: nat)
    requires p < size && p != l.input
    ensures |Zeros(size)[p := ONE]| == size && DarkBut(l, Zeros(size)[p := ONE], p) && Lit(Zeros(size)[p := ONE][p])
    ensures 0 <= l.output < size && l.output != p ==> !Lit(Zeros(size)[p := ONE][l.output])
  {}

  lemma OutputLit(l: Layout, size: nat)
    requires 0 <= l.output < size && 0 <= l.input
    ensures |Zeros(size)[l.output := ONE]| == size && DarkBut(l, Zeros(size)[l.output := ONE], -1)
    ensures Lit(Zeros(size)[l.output := ONE][l.output])
  {}

  /** Step `u` is skipped by its batch although step `u + 1` reads what it stores, with no mask. */
  lemma UnmaskedTold(unit: Unit, widths: seq<Width>, l: Layout, n: nat, size: nat, u: nat)
    requires Fixed(l) && Fits(l, size, n) && n < Pow256(8) && u < n && !Ends(widths, 0, n, u)
    requires !l.Masked() && l.input == l.output
    ensures Told(unit, widths, l, n, size)
  {
    hide Pow256, Fixed, Fits, Ends, Serial, Batched, OneToOne, Counting;
    FitsAtStart(l, size, 0, n);
    var m := Zeros(size);
    assert Count(l, m) == 0 by { ZeroCounts(l, size); }
    CountingOneToOne();
    Counts(unit, widths, l, m, 0, n);
    Counts(unit, [], l, m, 0, n);
    NothingSkipped(n);
    BatchedByNothing(unit, Counting, l, m, 0, n);
    assert !AllEnd(widths, 0, n);
    assert Tells(unit, widths, l, n, Counting, m);
  }

  lemma NothingSkipped(n: nat)
    ensures AllEnd([], 0, n)
  {}

  lemma ZeroCounts(l: Layout, size: nat)
    requires 0 <= l.output < size
    ensures Count(l, Zeros(size)) == 0
  {
    hide Digit;
    LastDigit(0);
    ZeroValue(8);
    assert Low(ZERO) == seq(8, _ => 0);
  }

  lemma {:induction false} ZeroValue(k: nat)
    ensures Value(seq(k, _ => 0 as byte)) == 0
  {
    hide Digit;
    LastDigit(0);
    if k > 0 {
      var s := seq(k, _ => 0 as byte);
      assert s[1..] == seq(k - 1, _ => 0 as byte);
      ZeroValue(k - 1);
    }
  }

  /** Every step after `u` reads the output block on. */
  predicate Followed(l: Layout, u: nat, n: nat) { u + 1 < n && forall k :: u < k < n ==> Reads(l, k) }

  /** One run ends lit, the other dark. */
  lemma Contrast(unit: Unit, widths: seq<Width>, f: Block -> Block, l: Layout, m: Memory, n: nat)
    requires Fits(l, |m|, n) && OneToOne(f) && 0 <= l.output < |m|
    requires Lit(Batched(unit, widths, f, l, m, 0, n)[l.output]) != Lit(Batched(unit, [], f, l, m, 0, n)[l.output])
    ensures Told(unit, widths, l, n, |m|)
  {
    hide Fits, Serial, Batched, OneToOne, Lit;
    BatchedByNothing(unit, f, l, m, 0, n);
    assert Tells(unit, widths, l, n, f, m);
  }

  /** The same with a mask apart from output and input: lit, it shows in single steps only. */
  lemma MaskTold(unit: Unit, widths: seq<Width>, l: Layout, n: nat, size: nat, u: nat)
    requires Fixed(l) && Fits(l, size, n) && u < n && !Ends(widths, 0, n, u) && Followed(l, u, n)
    requires l.Masked() && l.Mask(u) != l.output && l.Mask(u) != l.input
    ensures Told(unit, widths, l, n, size)
  {
    hide Fits, Ends, Serial, Batched, OneToOne, KeepsLight, Turns, Turn, DarkBut, Lit, Reads, Told;
    FitsAtStart(l, size, u, n);
    var p: nat := l.Mask(u);
    var m := Zeros(size)[p := ONE];
    ZerosDark(l, size, p);
    TurnOneToOne();
    forall t | 0 <= t < n && Ends(widths, 0, n, t) ensures l.Mask(t) != p {
      MasksApart(l, t, u);
    }
    Quiet(unit, widths, Turn, l, m, 0, n, p);
    AllSingle(n, u);
    Kindled(unit, [], Turn, l, m, 0, n, p, u);
    Contrast(unit, widths, Turn, l, m, n);
  }

  lemma AllSingle(n: nat, u: nat)
    ensures Ends([], 0, n, u)
  {}

  /** A lit output block stays lit when the only step it masks is skipped. */
  lemma HitLoud(unit: Unit, widths: seq<Width>, l: Layout, m: Memory, n: nat, u: nat)
    requires Fixed(l) && Fits(l, |m|, n) && u < n && !Ends(widths, 0, n, u)
    requires l.Masked() && l.Mask(u) == l.output == l.input && 0 <= l.output < |m|
    requires DarkBut(l, m, -1) && Lit(m[l.output])
    ensures Lit(Batched(unit, widths, Same, l, m, 0, n)[l.output])
  {
    hide Fits, Ends, Batched, KeepsLight, DarkBut, Lit;
    SameKeepsLight();
    forall t | 0 <= t < n && t != u ensures l.Mask(t) != l.output {
      MasksApart(l, t, u);
    }
    MasksInside(l, |m|, n);
    Loud(unit, widths, Same, l, m, 0, n, -1);
  }

  /** The same where input and output are one block and mask the skipped step, which blots it out. */
  lemma HitTold(unit: Unit, widths: seq<Width>, l: Layout, n: nat, size: nat, u: nat)
    requires Fixed(l) && Fits(l, size, n) && u < n && !Ends(widths, 0, n, u)
    requires l.Masked() && l.Mask(u) == l.output == l.input
    ensures Told(unit, widths, l, n, size)
  {
    hide Fits, Ends, Serial, Batched, OneToOne, DarkBut, Lit, Told, Fixed, Zeros;
    FitsAtStart(l, size, u, n);
    var m := Zeros(size)[l.output := ONE];
    OutputLit(l, size);
    HitLoud(unit, widths, l, m, n, u);
    AllSingle(n, u);
    MasksInside(l, size, n);
    Shut(unit, [], l, m, 0, n, -1, u);
    TurnOneToOne();
    Contrast(unit, widths, Same, l, m, n);
  }

  lemma MasksInside(l: Layout, size: nat, n: nat)
    requires Fits(l, size, n) && l.Masked()
    ensures forall t :: 0 <= t < n ==> l.Mask(t) != -1
  {
    forall t | 0 <= t < n ensures l.Mask(t) != -1 {
      assert StepFits(l, size, t);
    }
  }

  /** The step before `u` that is the last of its batch, if there is one. */
  function Earlier(widths: seq<Width>, n: nat, u: nat): (r: int)
    ensures -1 <= r < u && (0 <= r ==> Ends(widths, 0, n, r))
    ensures forall t :: r < t < u && 0 <= t ==> !Ends(widths, 0, n, t)
  {
    if u == 0 then -1 else if Ends(widths, 0, n, u - 1) then u - 1 else Earlier(widths, n, u - 1)
  }

  /** The last step is masked with the output block, and the one before, which its batch skips, with
      the input: single steps end dark, whatever held light before. */
  predicate LastIsMaskedTwice(widths: seq<Width>, l: Layout, n: nat) {
    && Fixed(l) && 2 <= n && !Ends(widths, 0, n, n - 2)
    && l.Masked() && l.input != l.output && l.Mask(n - 1) == l.output && l.Mask(n - 2) == l.input
  }

  lemma LastShut(unit: Unit, widths: seq<Width>, l: Layout, m: Memory, n: nat, p: int)
    requires LastIsMaskedTwice(widths, l, n) && Fits(l, |m|, n) && 0 <= l.output < |m| && DarkBut(l, m, p)
    requires l.Mask(n - 1) != p
    ensures !Lit(Batched(unit, [], Same, l, m, 0, n)[l.output])
  {
    hide Fits, Ends, Batched, DarkBut, Lit;
    AllSingle(n, n - 2);
    assert p != l.input by { DarkIsNotInput(l, m, p); }
    Shut(unit, [], l, m, 0, n, p, n - 2);
  }

  lemma DarkIsNotInput(l: Layout, m: Memory, p: int)
    requires DarkBut(l, m, p)
    ensures p != l.input
  {}

  /** The batched run still sees what the batch before left ... */
  lemma LastSeesBatch(unit: Unit, widths: seq<Width>, l: Layout, n: nat, size: nat, r: nat)
    requires LastIsMaskedTwice(widths, l, n) && Fits(l, size, n) && r < n - 2 && Ends(widths, 0, n, r)
    requires forall t :: r < t < n - 2 ==> !Ends(widths, 0, n, t)
    ensures Told(unit, widths, l, n, size)
  {
    hide Fits, Ends, Serial, Batched, OneToOne, KeepsLight, DarkBut, Lit, Told, Zeros, Turns;
    FitsAtStart(l, size, n - 1, n);
    FitsAtStart(l, size, r, n);
    MasksApart(l, r, n - 1);
    MasksApart(l, r, n - 2);
    var p: nat := l.Mask(r);
    var m := Zeros(size)[p := ONE];
    ZerosDark(l, size, p);
    SameKeepsLight();
    Kindled(unit, widths, Same, l, m, 0, n, p, r);
    LastShut(unit, widths, l, m, n, p);
    TurnOneToOne();
    Contrast(unit, widths, Same, l, m, n);
  }

  /** ... or the start. */
  lemma LastSeesStart(unit: Unit, widths: seq<Width>, l: Layout, n: nat, size: nat)
    requires LastIsMaskedTwice(widths, l, n) && Fits(l, size, n)
    requires forall t :: 0 <= t < n - 2 ==> !Ends(widths, 0, n, t)
    ensures Told(unit, widths, l, n, size)
  {
    hide Fits, Ends, Serial, Batched, OneToOne, KeepsLight, DarkBut, Lit, Told, Zeros, Turns;
    FitsAtStart(l, size, n - 1, n);
    var m := Zeros(size)[l.output := ONE];
    OutputLit(l, size);
    SameKeepsLight();
    MasksInside(l, size, n);
    Loud(unit, widths, Same, l, m, 0, n, -1);
    LastShut(unit, widths, l, m, n, -1);
    TurnOneToOne();
    Contrast(unit, widths, Same, l, m, n);
  }

  /** Whatever the layout: a skipped step that later steps read on shows. */
  lemma SkippedTold(unit: Unit, widths: seq<Width>, l: Layout, n: nat, size: nat, u: nat)
    requires Fixed(l) && Fits(l, size, n) && n < Pow256(8)
    requires u < n && !Ends(widths, 0, n, u) && Followed(l, u, n)
    ensures Told(unit, widths, l, n, size)
  {
    hide Told, Ends, Fits, Pow256;
    assert Reads(l, u + 1) && Reads(l, n - 1);
    if !l.Masked() {
      UnmaskedTold(unit, widths, l, n, size, u);
    } else if l.Mask(u) != l.output && l.Mask(u) != l.input {
      MaskTold(unit, widths, l, n, size, u);
    } else if l.input == l.output {
      HitTold(unit, widths, l, n, size, u);
    } else {
      MasksApart(l, u + 1, n - 1);
      MasksApart(l, u, u + 1);
      var r := Earlier(widths, n, n - 2);
      if 0 <= r {
        LastSeesBatch(unit, widths, l, n, size, r);
      } else {
        LastSeesStart(unit, widths, l, n, size);
      }
    }
  }
}

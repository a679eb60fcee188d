/** CBC and counter mode (NIST SP 800-38A, sections 6.2 and 6.5) obtained from the block
    routine by laying out its three pointers. `enc` and `dec` stand for the cipher under
    one key. */
module Modes {
  import opened Blocks
  import opened BlockProcessing
  import opened Hazards
  import opened HazardWitnesses
  import opened FixedPointers
  import opened ExactFixedPointers
  import opened Powers
  import opened Wrappers

  // ----- the standard's recurrences -----

  /** C[0] = E(P[0] xor IV), C[i] = E(P[i] xor C[i-1]). */
  function CbcEncrypt(enc: Block -> Block, iv: Block, ps: seq<Block>): (cs: seq<Block>)
    ensures |cs| == |ps|
    decreases |ps|
  {
    if ps == [] then [] else
      var c := enc(Xor(ps[0], iv));
      [c] + CbcEncrypt(enc, c, ps[1..])
  }

  /** P[0] = D(C[0]) xor IV, P[i] = D(C[i]) xor C[i-1]. */
  function CbcDecrypt(dec: Block -> Block, iv: Block, cs: seq<Block>): (ps: seq<Block>)
    ensures |ps| == |cs|
    decreases |cs|
  {
    if cs == [] then [] else [Xor(dec(cs[0]), iv)] + CbcDecrypt(dec, cs[0], cs[1..])
  }

  /** What block `k` is chained to. */
  function Before(iv: Block, cs: seq<Block>, k: nat): Block
    requires k <= |cs|
  {
    if k == 0 then iv else cs[k - 1]
  }

  ghost predicate Inverse(dec: Block -> Block, enc: Block -> Block) {
    forall b :: dec(enc(b)) == b
  }

  lemma {:induction false} CbcInverse(enc: Block -> Block, dec: Block -> Block, iv: Block, ps: seq<Block>)
    requires Inverse(dec, enc)
    ensures CbcDecrypt(dec, iv, CbcEncrypt(enc, iv, ps)) == ps
    decreases |ps|
  {
    hide Xor;
    if ps == [] {
    } else {
      var c := enc(Xor(ps[0], iv));
      CbcInverse(enc, dec, c, ps[1..]);
      var cs := CbcEncrypt(enc, iv, ps);
      assert cs[0] == c && cs[1..] == CbcEncrypt(enc, c, ps[1..]);
      assert dec(c) == Xor(ps[0], iv);
      XorCancels(ps[0], iv);
    }
  }

  lemma {:induction false} CbcDecryptAt(dec: Block -> Block, iv: Block, cs: seq<Block>, k: nat)
    requires k < |cs|
    ensures CbcDecrypt(dec, iv, cs)[k] == Xor(dec(cs[k]), Before(iv, cs, k))
    decreases k
  {
    hide Xor;
    if k > 0 {
      CbcDecryptAt(dec, cs[0], cs[1..], k - 1);
    }
  }

  /** `cs` satisfies the recurrence of section 6.2 for `ps`. */
  ghost predicate Chained(enc: Block -> Block, iv: Block, ps: seq<Block>, cs: seq<Block>) {
    && |cs| == |ps|
    && (forall k :: 0 <= k < |cs| ==> cs[k] == enc(Xor(ps[k], Before(iv, cs, k))))
  }

  /** The recurrence has exactly one solution. */
  lemma {:induction false} CbcChainUnique(enc: Block -> Block, iv: Block, ps: seq<Block>, cs: seq<Block>)
    requires |cs| == |ps|
    ensures Chained(enc, iv, ps, cs) <==> cs == CbcEncrypt(enc, iv, ps)
    decreases |ps|
  {
    hide Xor;
    if ps != [] {
      ChainSplits(enc, iv, ps, cs);
      CbcChainUnique(enc, cs[0], ps[1..], cs[1..]);
      assert cs == [cs[0]] + cs[1..];
    }
  }

  lemma ChainSplits(enc: Block -> Block, iv: Block, ps: seq<Block>, cs: seq<Block>)
    requires |cs| == |ps| > 0
    ensures Chained(enc, iv, ps, cs) <==> cs[0] == enc(Xor(ps[0], iv)) && Chained(enc, cs[0], ps[1..], cs[1..])
  {
    hide Xor;
    if Chained(enc, iv, ps, cs) {
      assert cs[0] == enc(Xor(ps[0], Before(iv, cs, 0)));
      forall k | 0 <= k < |cs| - 1 ensures cs[1..][k] == enc(Xor(ps[1..][k], Before(cs[0], cs[1..], k))) {
        assert cs[k + 1] == enc(Xor(ps[k + 1], Before(iv, cs, k + 1)));
      }
    }
    if cs[0] == enc(Xor(ps[0], iv)) && Chained(enc, cs[0], ps[1..], cs[1..]) {
      forall k | 0 <= k < |cs| ensures cs[k] == enc(Xor(ps[k], Before(iv, cs, k))) {
        if k > 0 {
          assert cs[1..][k - 1] == enc(Xor(ps[1..][k - 1], Before(cs[0], cs[1..], k - 1)));
        }
      }
    }
  }

  // ----- CBC encryption: forward, mask one block behind the output -----

  const CBC_ENCRYPT := Flags(false, false, true, false, false)

  /** A block precedes the output, and both buffers lie in memory. */
  predicate Regions(src: nat, dst: nat, n: nat, size: nat) {
    0 < dst && src + n <= size && dst + n <= size
  }

  function CbcEncryptLayout(flags: Flags, src: nat, dst: nat, n: nat): (l: Layout)
    requires flags.(allowParallel := false) == CBC_ENCRYPT && 0 < dst
    ensures forall size :: Regions(src, dst, n, size) ==> Fits(l, size, n)
  {
    SetUp(flags, src, Some(dst - 1), dst, n)
  }

  /** The call that encrypts `n` blocks from `src` to `dst`, chained to the block before `dst`. */
  function CbcEncryptRun(unit: Unit, widths: seq<Width>, flags: Flags, enc: Block -> Block, src: nat, dst: nat,
                         m: Memory, n: nat): (r: Memory)
    requires flags.(allowParallel := false) == CBC_ENCRYPT && Regions(src, dst, n, |m|)
    ensures |r| == |m|
  {
    assert Fits(CbcEncryptLayout(flags, src, dst, n), |m|, n);
    Run(unit, widths, enc, flags, src, Some(dst - 1), dst, m, n)
  }

  lemma CbcEncryptStep(enc: Block -> Block, flags: Flags, src: nat, dst: nat, m: Memory, i: nat,
                       n: nat) returns (m': Memory)
    requires flags.(allowParallel := false) == CBC_ENCRYPT
    requires Regions(src, dst, n, |m|) && i < n
    ensures StepFits(CbcEncryptLayout(flags, src, dst, n), |m|, i)
    ensures m' == Step(enc, CbcEncryptLayout(flags, src, dst, n), m, i)
    ensures m' == m[dst + i := enc(Xor(m[src + i], m[dst + i - 1]))]
  {
    hide Xor;
    assert StepFits(CbcEncryptLayout(flags, src, dst, n), |m|, i);
    m' := Step(enc, CbcEncryptLayout(flags, src, dst, n), m, i);
  }

  /** Memory with blocks `i` to `n` of the source chained into the destination. */
  function Enciphered(enc: Block -> Block, src: nat, dst: nat, m: Memory, i: nat, n: nat): (r: Memory)
    requires Regions(src, dst, n, |m|) && i <= n
    ensures |r| == |m|
  {
    m[..dst + i] + CbcEncrypt(enc, m[dst + i - 1], m[src + i..src + n]) + m[dst + n..]
  }

  lemma EncipheredAt(enc: Block -> Block, src: nat, dst: nat, m: Memory, n: nat, k: nat)
    requires Regions(src, dst, n, |m|) && k < n
    ensures Enciphered(enc, src, dst, m, 0, n)[dst + k] == CbcEncrypt(enc, m[dst - 1], m[src..src + n])[k]
  {
    hide CbcEncrypt;
  }

  lemma EncipheredFirst(enc: Block -> Block, src: nat, dst: nat, m: Memory, i: nat, n: nat)
    requires Regions(src, dst, n, |m|) && i < n && !(src < dst < src + n)
    ensures Enciphered(enc, src, dst, m[dst + i := enc(Xor(m[src + i], m[dst + i - 1]))], i + 1, n)
         == Enciphered(enc, src, dst, m, i, n)
  {
    hide Xor;
    var c, ps := enc(Xor(m[src + i], m[dst + i - 1])), m[src + i..src + n];
    var m' := m[dst + i := c];
    assert ps[0] == m[src + i] && ps[1..] == m[src + i + 1..src + n] == m'[src + i + 1..src + n];
    hide CbcEncrypt;
    ChainUnfolds(enc, m[dst + i - 1], ps);
    assert m'[..dst + i + 1] == m[..dst + i] + [c];
    assert m'[dst + n..] == m[dst + n..];
  }

  lemma ChainUnfolds(enc: Block -> Block, iv: Block, ps: seq<Block>)
    requires ps != []
    ensures CbcEncrypt(enc, iv, ps) == [enc(Xor(ps[0], iv))] + CbcEncrypt(enc, enc(Xor(ps[0], iv)), ps[1..])
  {
    hide Xor;
  }

  lemma {:induction false} CbcEncryptSerial(enc: Block -> Block, flags: Flags, src: nat, dst: nat, m: Memory,
      i: nat, n: nat)
    requires flags.(allowParallel := false) == CBC_ENCRYPT
    requires Regions(src, dst, n, |m|) && i <= n && !(src < dst < src + n)
    ensures Serial(enc, CbcEncryptLayout(flags, src, dst, n), m, i, n) == Enciphered(enc, src, dst, m, i, n)
    decreases n - i
  {
    hide Xor, Enciphered, Step, CbcEncryptLayout;
    if i < n {
      var m' := CbcEncryptStep(enc, flags, src, dst, m, i, n);
      EncipheredFirst(enc, src, dst, m, i, n);
      CbcEncryptSerial(enc, flags, src, dst, m', i + 1, n);
    } else {
      EncipheredNone(enc, src, dst, m, n);
    }
  }

  lemma EncipheredNone(enc: Block -> Block, src: nat, dst: nat, m: Memory, n: nat)
    requires Regions(src, dst, n, |m|)
    ensures Enciphered(enc, src, dst, m, n, n) == m
  {
    assert m[src + n..src + n] == [];
  }

  /** The output holds the chain of section 6.2 started from the block before it, and nothing
      else moves, as long as the output does not start inside the input. */
  lemma CbcEncryptChains(unit: Unit, widths: seq<Width>, enc: Block -> Block, src: nat, dst: nat, m: Memory, n: nat)
    requires Regions(src, dst, n, |m|) && !(src < dst < src + n)
    ensures var r := CbcEncryptRun(unit, widths, CBC_ENCRYPT, enc, src, dst, m, n);
            && r[dst..dst + n] == CbcEncrypt(enc, m[dst - 1], m[src..src + n])
            && (forall a :: 0 <= a < |m| && !(dst <= a < dst + n) ==> r[a] == m[a])
  {
    hide Xor, Serial;
    var l := CbcEncryptLayout(CBC_ENCRYPT, src, dst, n);
    assert Fits(l, |m|, n);
    RunIsSerial(unit, widths, enc, CBC_ENCRYPT, src, Some(dst - 1), dst, m, n);
    CbcEncryptSerial(enc, CBC_ENCRYPT, src, dst, m, 0, n);
  }

  // ----- CBC decryption in place: backwards, mask one block before the input -----

  const CBC_DECRYPT := Flags(false, false, false, true, true)

  function CbcDecryptLayout(at: nat, n: nat): (l: Layout)
    requires 0 < at
    ensures forall size :: Regions(at, at, n, size) ==> Fits(l, size, n)
    ensures NoHazard(l, 0, n)
  {
    SetUp(CBC_DECRYPT, at, Some(at - 1), at, n)
  }

  /** The batched call that decrypts `n` blocks in place. */
  function CbcDecryptRun(unit: Unit, widths: seq<Width>, dec: Block -> Block, at: nat, m: Memory, n: nat): (r: Memory)
    requires Regions(at, at, n, |m|)
    ensures |r| == |m|
  {
    assert Fits(CbcDecryptLayout(at, n), |m|, n);
    Run(unit, widths, dec, CBC_DECRYPT, at, Some(at - 1), at, m, n)
  }

  /** Memory with the first `k` blocks from `at` decrypted. */
  function Deciphered(dec: Block -> Block, at: nat, m: Memory, k: nat): (r: Memory)
    requires Regions(at, at, k, |m|)
    ensures |r| == |m|
  {
    seq(|m|, a requires 0 <= a < |m| => if at <= a < at + k then Xor(dec(m[a]), m[a - 1]) else m[a])
  }

  lemma CbcDecryptStep(dec: Block -> Block, at: nat, m: Memory, i: nat, n: nat)
    requires Regions(at, at, n, |m|) && i < n
    ensures var l, a := CbcDecryptLayout(at, n), at + n - 1 - i;
      && StepFits(l, |m|, i)
      && Step(dec, l, m, i) == m[a := Xor(dec(m[a]), m[a - 1])]
  {
    hide Xor;
    assert StepFits(CbcDecryptLayout(at, n), |m|, i);
  }

  lemma DecipheredNone(dec: Block -> Block, at: nat, m: Memory)
    requires Regions(at, at, 0, |m|)
    ensures Deciphered(dec, at, m, 0) == m
  {}

  lemma DecipheredLast(dec: Block -> Block, at: nat, m: Memory, k: nat)
    requires 0 < k && Regions(at, at, k, |m|)
    ensures var a := at + k - 1;
      Deciphered(dec, at, m[a := Xor(dec(m[a]), m[a - 1])], k - 1) == Deciphered(dec, at, m, k)
  {
    hide Xor;
  }

  /** Going backwards, every step still finds the two ciphertext blocks it needs. */
  lemma {:induction false} CbcDecryptSerial(dec: Block -> Block, at: nat, m: Memory, i: nat, n: nat)
    requires Regions(at, at, n, |m|) && i <= n
    ensures Serial(dec, CbcDecryptLayout(at, n), m, i, n) == Deciphered(dec, at, m, n - i)
    decreases n - i
  {
    hide Xor, Step, Deciphered, CbcDecryptLayout;
    DecipheredNone(dec, at, m);
    if i < n {
      CbcDecryptStep(dec, at, m, i, n);
      DecipheredLast(dec, at, m, n - i);
      CbcDecryptSerial(dec, at, Step(dec, CbcDecryptLayout(at, n), m, i), i + 1, n);
    }
  }

  /** Batched decryption in place is the standard's decryption, for any number of blocks,
      any batch widths and either vector unit, although the buffer is overwritten as it runs. */
  lemma CbcDecryptInPlace(unit: Unit, widths: seq<Width>, dec: Block -> Block, at: nat, m: Memory, n: nat)
    requires Regions(at, at, n, |m|)
    ensures var r := CbcDecryptRun(unit, widths, dec, at, m, n);
            && r[at..at + n] == CbcDecrypt(dec, m[at - 1], m[at..at + n])
            && (forall a :: 0 <= a < |m| && !(at <= a < at + n) ==> r[a] == m[a])
  {
    hide Xor, Serial, Run;
    assert Fits(CbcDecryptLayout(at, n), |m|, n);
    NoHazardIsSafe(widths, CbcDecryptLayout(at, n), 0, n);
    RunIsSerial(unit, widths, dec, CBC_DECRYPT, at, Some(at - 1), at, m, n);
    CbcDecryptSerial(dec, at, m, 0, n);
    var r := CbcDecryptRun(unit, widths, dec, at, m, n);
    var ps, qs := r[at..at + n], CbcDecrypt(dec, m[at - 1], m[at..at + n]);
    forall k | 0 <= k < n ensures ps[k] == qs[k] {
      CbcDecryptAt(dec, m[at - 1], m[at..at + n], k);
      var a := at + k;
      assert r[a] == Xor(dec(m[a]), m[a - 1]);
    }
  }

  /** One routine, two pointer layouts: encrypt `src` into `dst` (or in place), then decrypt
      `dst` in place, and the plaintext is back. */
  lemma CbcRoundTrip(unit: Unit, widths: seq<Width>, enc: Block -> Block, dec: Block -> Block, src: nat, dst: nat,
                     m: Memory, n: nat)
    requires Inverse(dec, enc) && Regions(src, dst, n, |m|) && !(src < dst < src + n)
    ensures var c := CbcEncryptRun(unit, widths, CBC_ENCRYPT, enc, src, dst, m, n);
            var r := CbcDecryptRun(unit, widths, dec, dst, c, n);
            && r[dst..dst + n] == m[src..src + n]
            && (forall a :: 0 <= a < |m| && !(dst <= a < dst + n) ==> r[a] == m[a])
  {
    hide Xor, CbcEncryptRun, CbcDecryptRun;
    CbcEncryptChains(unit, widths, enc, src, dst, m, n);
    var c := CbcEncryptRun(unit, widths, CBC_ENCRYPT, enc, src, dst, m, n);
    CbcDecryptInPlace(unit, widths, dec, dst, c, n);
    CbcInverse(enc, dec, m[dst - 1], m[src..src + n]);
  }

  // ----- when CBC encryption survives BT_AllowParallel -----

  const PARALLEL_CBC_ENCRYPT := CBC_ENCRYPT.(allowParallel := true)

  /** A permutation of the blocks that moves ZERO. */
  function Flip(b: Block): Block { Xor(b, ONE) }

  /** Some batch of `widths` runs on `n` blocks. */
  predicate SomeBatchRuns(widths: seq<Width>, n: nat) {
    exists w :: w in widths && w <= n
  }

  lemma {:induction false} NoBatchRuns(unit: Unit, widths: seq<Width>, f: Block -> Block, l: Layout, m: Memory, n: nat)
    requires Fits(l, |m|, n) && !SomeBatchRuns(widths, n)
    ensures Batched(unit, widths, f, l, m, 0, n) == Serial(f, l, m, 0, n)
    decreases |widths|
  {
    if widths != [] {
      assert widths[0] in widths && (forall w :: w in widths[1..] ==> w in widths);
      NoBatchRuns(unit, widths[1..], f, l, m, n);
    }
  }

  /** The first batch that runs masks its second block with the output of an earlier call,
      not with the block just produced. */
  lemma {:induction false} FirstBatchUnchained(unit: Unit, widths: seq<Width>, src: nat, dst: nat, n: nat, size: nat)
    requires Regions(src, dst, n, size) && SomeBatchRuns(widths, n) && (forall w :: w in widths ==> 2 <= w)
    requires 2 <= n && Fits(CbcEncryptLayout(PARALLEL_CBC_ENCRYPT, src, dst, n), size, n)
    ensures Batched(unit, widths, Flip, CbcEncryptLayout(PARALLEL_CBC_ENCRYPT, src, dst, n), Zeros(size), 0, n)[dst + 1]
         == Flip(Xor(ZERO, ZERO))
    decreases |widths|
  {
    hide Xor, Flip;
    var l, m := CbcEncryptLayout(PARALLEL_CBC_ENCRYPT, src, dst, n), Zeros(size);
    var k := widths[0];
    assert k in widths;
    if n >= k {
      var ys := BatchOutputs(unit, Flip, l, m, 0, k);
      assert StepFits(l, size, 0) && StepFits(l, size, 1);
      assert ys[1] == Flip(Xor(ZERO, ZERO));
      StoredLast(l, m, 0, ys, 1);
      BatchedLater(unit, widths, Flip, l, Batch(unit, Flip, l, m, 0, k), k, n, dst + 1);
    } else {
      var w :| w in widths && w <= n;
      assert w in widths[1..] && (forall x :: x in widths[1..] ==> x in widths);
      FirstBatchUnchained(unit, widths[1..], src, dst, n, size);
    }
  }

  /** BT_AllowParallel is harmless on the chaining layout, for every cipher and memory, exactly
      when the run is too short for any batch. */
  lemma ParallelChaining(unit: Unit, widths: seq<Width>, src: nat, dst: nat, n: nat, size: nat)
    requires Regions(src, dst, n, size) && !(src < dst < src + n) && (forall w :: w in widths ==> 2 <= w)
    ensures !SomeBatchRuns(widths, n) <==>
            forall enc: Block -> Block, m: Memory | |m| == size ::
              CbcEncryptRun(unit, widths, PARALLEL_CBC_ENCRYPT, enc, src, dst, m, n)
              == CbcEncryptRun(unit, widths, CBC_ENCRYPT, enc, src, dst, m, n)
  {
    hide Xor, Serial;
    var l := CbcEncryptLayout(PARALLEL_CBC_ENCRYPT, src, dst, n);
    assert Fits(l, size, n) && l == CbcEncryptLayout(CBC_ENCRYPT, src, dst, n);
    forall enc: Block -> Block, m: Memory | |m| == size && !SomeBatchRuns(widths, n)
      ensures CbcEncryptRun(unit, widths, PARALLEL_CBC_ENCRYPT, enc, src, dst, m, n)
              == CbcEncryptRun(unit, widths, CBC_ENCRYPT, enc, src, dst, m, n)
    {
      NoBatchRuns(unit, widths, enc, l, m, n);
    }
    if SomeBatchRuns(widths, n) {
      ParallelDiffers(unit, widths, src, dst, n, size);
    }
  }

  lemma ParallelDiffers(unit: Unit, widths: seq<Width>, src: nat, dst: nat, n: nat, size: nat)
    requires Regions(src, dst, n, size) && !(src < dst < src + n) && (forall w :: w in widths ==> 2 <= w)
    requires SomeBatchRuns(widths, n)
    ensures CbcEncryptRun(unit, widths, PARALLEL_CBC_ENCRYPT, Flip, src, dst, Zeros(size), n)
         != CbcEncryptRun(unit, widths, CBC_ENCRYPT, Flip, src, dst, Zeros(size), n)
  {
    hide Xor, Serial, Flip, CbcEncrypt;
    var l, m := CbcEncryptLayout(PARALLEL_CBC_ENCRYPT, src, dst, n), Zeros(size);
    assert Fits(l, size, n) && l == CbcEncryptLayout(CBC_ENCRYPT, src, dst, n);
    FirstBatchUnchained(unit, widths, src, dst, n, size);
    BatchedByNothing(unit, Flip, l, m, 0, n);
    CbcEncryptSerial(Flip, CBC_ENCRYPT, src, dst, m, 0, n);
    EncipheredAt(Flip, src, dst, m, n, 1);
    var ps := m[src..src + n];
    assert ps[0] == ZERO && ps[1] == ZERO && m[dst - 1] == ZERO;
    SecondOfChain(Flip, ZERO, ps);
    FlipMoves();
    hide Enciphered, Batched, CbcEncryptLayout;
    assert CbcEncryptRun(unit, widths, PARALLEL_CBC_ENCRYPT, Flip, src, dst, m, n)
        == Batched(unit, widths, Flip, l, m, 0, n);
    assert CbcEncryptRun(unit, widths, CBC_ENCRYPT, Flip, src, dst, m, n) == Batched(unit, [], Flip, l, m, 0, n);
    assert CbcEncryptRun(unit, widths, PARALLEL_CBC_ENCRYPT, Flip, src, dst, m, n)[dst + 1]
        != CbcEncryptRun(unit, widths, CBC_ENCRYPT, Flip, src, dst, m, n)[dst + 1];
  }

  lemma SecondOfChain(enc: Block -> Block, iv: Block, ps: seq<Block>)
    requires |ps| >= 2
    ensures CbcEncrypt(enc, iv, ps)[1] == enc(Xor(ps[1], enc(Xor(ps[0], iv))))
  {
    hide Xor;
    ChainUnfolds(enc, iv, ps);
    ChainUnfolds(enc, enc(Xor(ps[0], iv)), ps[1..]);
  }

  lemma FlipMoves()
    ensures Flip(Xor(ZERO, Flip(Xor(ZERO, ZERO)))) != Flip(Xor(ZERO, ZERO))
  {
    var a := Flip(Xor(ZERO, ZERO));
    assert a[0] == 1;
    assert Flip(Xor(ZERO, a))[0] == 0;
  }

  // ----- counter mode: fixed input block, data as mask -----

  const CTR := Flags(true, false, false, false, true)

  /** The counter lies outside both buffers and the output does not start inside the data. */
  predicate CtrBuffers(ctr: nat, data: nat, out: nat, n: nat, size: nat) {
    && ctr < size && data + n <= size && out + n <= size
    && !(data <= ctr < data + n) && !(out <= ctr < out + n)
    && !(data < out < data + n)
  }

  function CtrLayout(ctr: nat, data: nat, out: nat, n: nat): (l: Layout)
    ensures forall size :: CtrBuffers(ctr, data, out, n, size) ==> Fits(l, size, n) && NoHazard(l, 0, n)
  {
    SetUp(CTR, ctr, Some(data), out, n)
  }

  function CtrRun(unit: Unit, widths: seq<Width>, enc: Block -> Block, ctr: nat, data: nat, out: nat, m: Memory,
                  n: nat): (r: Memory)
    requires CtrBuffers(ctr, data, out, n, |m|)
    ensures |r| == |m|
  {
    assert Fits(CtrLayout(ctr, data, out, n), |m|, n);
    Run(unit, widths, enc, CTR, ctr, Some(data), out, m, n)
  }

  lemma {:induction false} CtrSerial(enc: Block -> Block, ctr: nat, data: nat, out: nat, m: Memory, i: nat, n: nat)
    requires CtrBuffers(ctr, data, out, n, |m|) && i <= n
    ensures var r := Serial(enc, CtrLayout(ctr, data, out, n), m, i, n);
            && (forall a :: out + i <= a < out + n ==> r[a] == Xor(enc(Bumps(m[ctr], a - out - i)), m[a - out + data]))
            && r[ctr] == Bumps(m[ctr], n - i)
            && (forall a :: 0 <= a < |m| && a != ctr && !(out + i <= a < out + n) ==> r[a] == m[a])
    decreases n - i
  {
    hide Xor, BumpByte;
    if i < n {
      var l := CtrLayout(ctr, data, out, n);
      assert StepFits(l, |m|, i);
      var m' := Step(enc, l, m, i);
      assert m'[ctr] == BumpByte(m[ctr]);
      CtrSerial(enc, ctr, data, out, m', i + 1, n);
      forall k | 0 <= k < n - i ensures Bumps(m'[ctr], k) == Bumps(m[ctr], k + 1) {
        BumpsShift(m[ctr], k);
      }
      var r := Serial(enc, l, m, i, n);
      forall a | out + i <= a < out + n ensures r[a] == Xor(enc(Bumps(m[ctr], a - out - i)), m[a - out + data]) {
        if a > out + i {
          assert Bumps(m'[ctr], a - out - (i + 1)) == Bumps(m[ctr], a - out - i);
          assert m'[a - out + data] == m[a - out + data];
        }
      }
    }
  }

  /** Section 6.5, with only byte 15 of the counter moving: output i is data i masked with
      the image of the counter advanced i times, and the counter ends n further on. */
  lemma CounterMode(unit: Unit, widths: seq<Width>, enc: Block -> Block, ctr: nat, data: nat, out: nat, m: Memory,
                    n: nat)
    requires CtrBuffers(ctr, data, out, n, |m|)
    ensures var r := CtrRun(unit, widths, enc, ctr, data, out, m, n);
            && (forall a :: out <= a < out + n ==> r[a] == Xor(enc(Bumps(m[ctr], a - out)), m[a - out + data]))
            && CounterByte(r[ctr]) == (CounterByte(m[ctr]) + n) % 256
            && (forall i :: 0 <= i < 15 ==> r[ctr][i] == m[ctr][i])
            && (forall a :: 0 <= a < |m| && a != ctr && !(out <= a < out + n) ==> r[a] == m[a])
  {
    hide Xor, Serial, Run, Bumps, CounterByte;
    var l := CtrLayout(ctr, data, out, n);
    assert Fits(l, |m|, n) && NoHazard(l, 0, n);
    NoHazardIsSafe(widths, l, 0, n);
    RunIsSerial(unit, widths, enc, CTR, ctr, Some(data), out, m, n);
    CtrSerial(enc, ctr, data, out, m, 0, n);
    BumpsAddModulo256(m[ctr], n);
  }

  /** A second pass from the same counter restores the data, whatever units and widths the
      two passes use. */
  lemma CounterModeTwice(unit: Unit, widths: seq<Width>, unit': Unit, widths': seq<Width>, enc: Block -> Block,
                         ctr: nat, data: nat, out: nat, back: nat, m: Memory, n: nat)
    requires CtrBuffers(ctr, data, out, n, |m|) && CtrBuffers(ctr, out, back, n, |m|)
    ensures var c := CtrRun(unit, widths, enc, ctr, data, out, m, n);
            var r := CtrRun(unit', widths', enc, ctr, out, back, c[ctr := m[ctr]], n);
            r[back..back + n] == m[data..data + n]
  {
    hide Xor, CtrRun, Bumps, CounterByte;
    CounterMode(unit, widths, enc, ctr, data, out, m, n);
    var c := CtrRun(unit, widths, enc, ctr, data, out, m, n);
    var c' := c[ctr := m[ctr]];
    CounterMode(unit', widths', enc, ctr, out, back, c', n);
    var r := CtrRun(unit', widths', enc, ctr, out, back, c', n);
    forall a | back <= a < back + n ensures r[a] == m[a - back + data] {
      var e, x := enc(Bumps(m[ctr], a - back)), m[a - back + data];
      var b := a - back + out;
      assert c'[b] == Xor(enc(Bumps(m[ctr], b - out)), m[b - out + data]);
      XorCommutes(e, Xor(e, x));
      XorCommutes(e, x);
      XorCancels(x, e);
    }
  }

  // ----- a chain in one register: fixed input and output, data as mask -----

  const CBC_MAC := Flags(false, true, true, false, false)

  /** The last block of the chain, or the vector when there is none. */
  function LastOfChain(enc: Block -> Block, iv: Block, ps: seq<Block>): Block {
    if ps == [] then iv else CbcEncrypt(enc, iv, ps)[|ps| - 1]
  }

  lemma LastOfChainStep(enc: Block -> Block, iv: Block, ps: seq<Block>)
    requires ps != []
    ensures LastOfChain(enc, iv, ps) == LastOfChain(enc, enc(Xor(iv, ps[0])), ps[1..])
  {
    hide Xor;
    XorCommutes(iv, ps[0]);
  }

  lemma {:induction false} MacSerial(enc: Block -> Block, reg: nat, data: nat, m: Memory, i: nat, n: nat)
    requires reg < |m| && data + n <= |m| && !(data <= reg < data + n) && i <= n
    requires Fits(SetUp(CBC_MAC, reg, Some(data), reg, n), |m|, n)
    ensures Serial(enc, SetUp(CBC_MAC, reg, Some(data), reg, n), m, i, n)
         == m[reg := LastOfChain(enc, m[reg], m[data + i..data + n])]
    decreases n - i
  {
    hide Xor, LastOfChain;
    var l := SetUp(CBC_MAC, reg, Some(data), reg, n);
    if i < n {
      assert StepFits(l, |m|, i);
      var m' := Step(enc, l, m, i);
      assert m' == m[reg := enc(Xor(m[reg], m[data + i]))];
      MacSerial(enc, reg, data, m', i + 1, n);
      var ps := m[data + i..data + n];
      LastOfChainStep(enc, m[reg], ps);
      assert ps[1..] == m'[data + i + 1..data + n];
    } else {
      NothingChained(enc, m[reg], m[data + n..data + n]);
    }
  }

  lemma NothingChained(enc: Block -> Block, iv: Block, ps: seq<Block>)
    requires ps == []
    ensures LastOfChain(enc, iv, ps) == iv
  {}

  function MacRun(unit: Unit, widths: seq<Width>, enc: Block -> Block, reg: nat, data: nat, m: Memory,
                  n: nat): (r: Memory)
    requires reg < |m| && data + n <= |m|
    ensures |r| == |m|
  {
    assert Fits(SetUp(CBC_MAC, reg, Some(data), reg, n), |m|, n);
    Run(unit, widths, enc, CBC_MAC, reg, Some(data), reg, m, n)
  }

  /** With pointers that do not move, the register ends as the last block of the section 6.2
      chain of the data, which is a CBC message authentication code; nothing else changes. */
  lemma FixedPointersChain(unit: Unit, widths: seq<Width>, enc: Block -> Block, reg: nat, data: nat, m: Memory, n: nat)
    requires reg < |m| && data + n <= |m| && !(data <= reg < data + n)
    ensures MacRun(unit, widths, enc, reg, data, m, n) == m[reg := LastOfChain(enc, m[reg], m[data..data + n])]
  {
    hide Xor, Serial, LastOfChain;
    assert Fits(SetUp(CBC_MAC, reg, Some(data), reg, n), |m|, n);
    RunIsSerial(unit, widths, enc, CBC_MAC, reg, Some(data), reg, m, n);
    MacSerial(enc, reg, data, m, 0, n);
  }

  const PARALLEL_CBC_MAC := CBC_MAC.(allowParallel := true)

  lemma {:induction false} AllEndExactly(widths: seq<Width>, n: nat)
    requires forall w :: w in widths ==> 2 <= w
    ensures AllEnd(widths, 0, n) <==> !SomeBatchRuns(widths, n)
    decreases |widths|
  {
    if widths != [] {
      if widths[0] <= n {
        assert widths[0] in widths && !Ends(widths, 0, n, 0);
      } else {
        assert forall w :: w in widths <==> w == widths[0] || w in widths[1..];
        AllEndExactly(widths[1..], n);
        forall t: int ensures Ends(widths, 0, n, t) <==> Ends(widths[1..], 0, n, t) {}
      }
    }
  }

  /** When every step reads the register on, no step may be skipped. */
  lemma ReadsAlways(widths: seq<Width>, l: Layout, n: nat)
    requires !l.counter && (forall t :: 0 <= t < n ==> Reads(l, t))
    ensures FixedSafe(widths, l, 0, n) <==> AllEnd(widths, 0, n)
  {
    hide Reads, Ends;
    if FixedSafe(widths, l, 0, n) {
      forall t | 0 <= t < n ensures Ends(widths, 0, n, t) {
        LastEnds(widths, 0, n);
        if t + 1 < n {
          assert Matters(l, t + 1, n) && Alone(widths, l, 0, n, t + 1);
          assert Starts(widths, 0, n, t + 1);
        }
      }
    }
  }

  /** BT_AllowParallel is harmless on the chain in one register, for every one-to-one cipher and every
      memory, exactly when the run is too short for any batch. */
  lemma ParallelRegister(unit: Unit, widths: seq<Width>, reg: nat, data: nat, size: nat, n: nat)
    requires reg < size && data + n <= size && !(data <= reg < data + n) && BLOCK_SIZE * n < Pow256(8)
    requires forall w :: w in widths ==> 2 <= w
    ensures Fits(SetUp(PARALLEL_CBC_MAC, reg, Some(data), reg, n), size, n)
    ensures !SomeBatchRuns(widths, n) <==>
            forall enc: Block -> Block, m: Memory | OneToOne(enc) && |m| == size ::
              Run(unit, widths, enc, PARALLEL_CBC_MAC, reg, Some(data), reg, m, n)
              == MacRun(unit, widths, enc, reg, data, m, n)
  {
    hide Batched, Serial, FixedSafe, OneToOne, Pow256, SomeBatchRuns, AllEnd;
    var l := SetUp(PARALLEL_CBC_MAC, reg, Some(data), reg, n);
    assert Fits(l, size, n) && l == SetUp(CBC_MAC, reg, Some(data), reg, n);
    FixedExactlySafe(unit, widths, PARALLEL_CBC_MAC, reg, Some(data), reg, size, n);
    ReadsAlways(widths, l, n);
    AllEndExactly(widths, n);
    forall enc: Block -> Block, m: Memory | |m| == size
      ensures MacRun(unit, widths, enc, reg, data, m, n) == Serial(enc, l, m, 0, n)
    {
      RunIsSerial(unit, widths, enc, CBC_MAC, reg, Some(data), reg, m, n);
    }
  }
}

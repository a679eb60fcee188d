/** RandomNumberGenerator::Shuffle (cryptlib.h), with the random draws given as a sequence. */
module Shuffle {
  const WORD32 := 0x1_0000_0000

  /** Step `i` of `n` draws from 0 up to the number of later elements, cut to 32 bits. */
  predicate InRange(draws: seq<nat>, n: nat) {
    && |draws| == n
    && forall i :: 0 <= i < n ==> draws[i] <= (n - 1 - i) % WORD32
  }

  function Swapped<T>(s: seq<T>, i: nat, j: nat): (t: seq<T>)
    requires i < |s| && j < |s|
    ensures |t| == |s|
  {
    s[i := s[j]][j := s[i]]
  }

  function Shuffled<T>(s: seq<T>, draws: seq<nat>): (t: seq<T>)
    requires InRange(draws, |s|)
    ensures |t| == |s|
    decreases |s|
  {
    if s == [] then []
    else
      var t := Swapped(s, 0, draws[0]);
      assert draws[0] <= (|s| - 1 - 0) % WORD32;
      RestInRange(draws, |s|);
      [t[0]] + Shuffled(t[1..], draws[1..])
  }

  lemma RestInRange(draws: seq<nat>, n: nat)
    requires n > 0 && InRange(draws, n)
    ensures InRange(draws[1..], n - 1)
    ensures draws[0] < n
  {
    assert draws[0] <= (n - 1 - 0) % WORD32;
    forall i | 0 <= i < n - 1 ensures draws[1..][i] <= (n - 1 - 1 - i) % WORD32 {
      assert draws[i + 1] <= (n - 1 - (i + 1)) % WORD32;
    }
  }

  lemma {:induction false} TailInRange(draws: seq<nat>, n: nat, k: nat)
    requires InRange(draws, n) && k <= n
    ensures InRange(draws[k..], n - k)
  {
    forall i | 0 <= i < n - k ensures draws[k..][i] <= (n - k - 1 - i) % WORD32 {
      assert draws[k + i] <= (n - 1 - (k + i)) % WORD32;
    }
  }

  method ShuffleInPlace<T>(a: array<T>, draws: seq<nat>)
    requires InRange(draws, a.Length)
    modifies a
    ensures a[..] == Shuffled(old(a[..]), draws)
  {
    var n := a.Length;
    TailInRange(draws, n, 0);
    assert draws[0..] == draws && a[0..] == a[..];
    for i := 0 to n
      invariant InRange(draws[i..], n - i)
      invariant a[..i] + Shuffled(a[i..], draws[i..]) == Shuffled(old(a[..]), draws)
    {
      ghost var was := a[..];
      TailInRange(draws, n, i + 1);
      RestInRange(draws[i..], n - i);
      a[i], a[i + draws[i]] := a[i + draws[i]], a[i];
      Unfold(was, a[..], draws, i);
    }
    assert a[n..] == [] && a[..n] == a[..];
  }

  lemma Unfold<T>(was: seq<T>, now: seq<T>, draws: seq<nat>, i: nat)
    requires i < |was| == |now| == |draws|
    requires InRange(draws[i..], |was| - i) && InRange(draws[i + 1..], |was| - i - 1)
    requires i + draws[i] < |was| && now == Swapped(was, i, i + draws[i])
    ensures now[..i + 1] + Shuffled(now[i + 1..], draws[i + 1..]) == was[..i] + Shuffled(was[i..], draws[i..])
  {
    var t := Swapped(was[i..], 0, draws[i]);
    assert t[1..] == now[i + 1..];
    assert draws[i..][1..] == draws[i + 1..];
    assert now[..i + 1] == was[..i] + [t[0]];
  }

  lemma SwapKeepsElements<T>(s: seq<T>, j: nat)
    requires j < |s|
    ensures multiset(Swapped(s, 0, j)) == multiset(s)
  {}

  /** Whatever is drawn, the result is a permutation. */
  lemma {:induction false} AlwaysPermutation<T>(s: seq<T>, draws: seq<nat>)
    requires InRange(draws, |s|)
    ensures multiset(Shuffled(s, draws)) == multiset(s)
    decreases |s|
  {
    if s != [] {
      RestInRange(draws, |s|);
      var t := Swapped(s, 0, draws[0]);
      SwapKeepsElements(s, draws[0]);
      AlwaysPermutation(t[1..], draws[1..]);
      assert t == [t[0]] + t[1..];
    }
  }

  predicate Distinct<T(==)>(s: seq<T>) {
    forall i, j :: 0 <= i < j < |s| ==> s[i] != s[j]
  }

  lemma SwapKeepsDistinct<T>(s: seq<T>, j: nat)
    requires j < |s| && Distinct(s)
    ensures Distinct(Swapped(s, 0, j)[1..])
  {}

  /** Different draws give different orders of distinct elements. */
  lemma {:induction false} DrawsDetermined<T>(s: seq<T>, c: seq<nat>, d: seq<nat>)
    requires Distinct(s) && InRange(c, |s|) && InRange(d, |s|)
    requires Shuffled(s, c) == Shuffled(s, d)
    ensures c == d
    decreases |s|
  {
    if s != [] {
      RestInRange(c, |s|);
      RestInRange(d, |s|);
      assert Shuffled(s, c)[0] == s[c[0]] && Shuffled(s, d)[0] == s[d[0]];
      var t := Swapped(s, 0, c[0]);
      assert Shuffled(t[1..], c[1..]) == Shuffled(s, c)[1..];
      assert Shuffled(t[1..], d[1..]) == Shuffled(s, d)[1..];
      SwapKeepsDistinct(s, c[0]);
      DrawsDetermined(t[1..], c[1..], d[1..]);
      assert c == [c[0]] + c[1..] && d == [d[0]] + d[1..];
    }
  }

  function IndexOf<T(==)>(s: seq<T>, x: T): (i: nat)
    requires x in s
    ensures i < |s| && s[i] == x
  {
    if s[0] == x then 0 else 1 + IndexOf(s[1..], x)
  }

  /** The draws that produce the order `p`. */
  function DrawsFor<T(==)>(s: seq<T>, p: seq<T>): (d: seq<nat>)
    requires multiset(s) == multiset(p)
    ensures |d| == |s| == |p|
    decreases |s|
  {
    assert |s| == |multiset(s)| && |p| == |multiset(p)|;
    if s == [] then []
    else
      HeadBelongs(s, p);
      var t := Swapped(s, 0, IndexOf(s, p[0]));
      [IndexOf(s, p[0])] + DrawsFor(t[1..], p[1..])
  }

  lemma HeadBelongs<T>(s: seq<T>, p: seq<T>)
    requires multiset(s) == multiset(p) && |s| == |p| > 0
    ensures p[0] in s
    ensures multiset(Swapped(s, 0, IndexOf(s, p[0]))[1..]) == multiset(p[1..])
  {
    assert p[0] in multiset(p);
    var j := IndexOf(s, p[0]);
    SwapKeepsElements(s, j);
    SameHead(Swapped(s, 0, j), p);
  }

  lemma SameHead<T>(t: seq<T>, p: seq<T>)
    requires multiset(t) == multiset(p) && |t| > 0 && |p| > 0 && t[0] == p[0]
    ensures multiset(t[1..]) == multiset(p[1..])
  {
    assert t == [t[0]] + t[1..] && p == [p[0]] + p[1..];
    assert multiset(t[1..]) == multiset(t) - multiset{t[0]};
    assert multiset(p[1..]) == multiset(p) - multiset{p[0]};
  }

  lemma DrawsUnfold<T>(s: seq<T>, p: seq<T>)
    requires multiset(s) == multiset(p) && s != []
    ensures |s| == |p| && p[0] in s
    ensures var t := Swapped(s, 0, IndexOf(s, p[0]));
      multiset(t[1..]) == multiset(p[1..]) && DrawsFor(s, p) == [IndexOf(s, p[0])] + DrawsFor(t[1..], p[1..])
  {
    assert |s| == |multiset(s)| && |p| == |multiset(p)|;
    HeadBelongs(s, p);
  }

  /** The draws are in range: each is an index into what is left, and 2^32 do not cut it. */
  lemma {:induction false} DrawsInRange<T>(s: seq<T>, p: seq<T>)
    requires multiset(s) == multiset(p) && |s| <= WORD32
    ensures InRange(DrawsFor(s, p), |s|)
    decreases |s|
  {
    if s != [] {
      hide DrawsFor;
      DrawsUnfold(s, p);
      var j := IndexOf(s, p[0]);
      var t := Swapped(s, 0, j);
      DrawsInRange(t[1..], p[1..]);
      Prepended(DrawsFor(t[1..], p[1..]), j, |s|);
    }
  }

  lemma Prepended(draws: seq<nat>, j: nat, n: nat)
    requires j < n <= WORD32 && InRange(draws, n - 1)
    ensures InRange([j] + draws, n)
  {
    var d := [j] + draws;
    forall i | 0 <= i < n ensures d[i] <= (n - 1 - i) % WORD32 {
      if i > 0 {
        assert draws[i - 1] <= (n - 1 - 1 - (i - 1)) % WORD32;
      }
    }
  }

  /** Up to 2^32 elements, every order is reached. */
  lemma {:induction false} EveryOrderReached<T>(s: seq<T>, p: seq<T>)
    requires multiset(s) == multiset(p) && |s| <= WORD32
    ensures InRange(DrawsFor(s, p), |s|)
    ensures Shuffled(s, DrawsFor(s, p)) == p
    decreases |s|
  {
    DrawsInRange(s, p);
    if s != [] {
      hide DrawsFor, InRange;
      DrawsUnfold(s, p);
      var t := Swapped(s, 0, IndexOf(s, p[0]));
      EveryOrderReached(t[1..], p[1..]);
      assert DrawsFor(s, p)[1..] == DrawsFor(t[1..], p[1..]);
      assert p == [p[0]] + p[1..];
    }
  }

  ghost predicate Reached<T(!new)>(s: seq<T>, p: seq<T>) {
    exists d: seq<nat> :: InRange(d, |s|) && Shuffled(s, d) == p
  }

  /** Beyond 2^32 elements, the last one can not come first. */
  lemma LastNeverFirst<T(!new)>(s: seq<T>, draws: seq<nat>)
    requires Distinct(s) && |s| > WORD32 && InRange(draws, |s|)
    ensures Shuffled(s, draws)[0] != s[|s| - 1]
  {
    RestInRange(draws, |s|);
    assert draws[0] <= (|s| - 1 - 0) % WORD32;
    assert Shuffled(s, draws)[0] == s[draws[0]];
  }

  /** The documentation promises a uniform distribution, so every order. Together with
      `DrawsDetermined`: exactly up to 2^32 elements, the draws and the orders correspond
      one to one. */
  lemma UniformUpToWord32<T(!new)>(s: seq<T>)
    requires Distinct(s)
    ensures (forall p: seq<T> | multiset(p) == multiset(s) :: Reached(s, p)) <==> |s| <= WORD32
  {
    if |s| <= WORD32 {
      forall p: seq<T> | multiset(p) == multiset(s) ensures Reached(s, p) {
        EveryOrderReached(s, p);
      }
    } else {
      var p := Swapped(s, 0, |s| - 1);
      SwapKeepsElements(s, |s| - 1);
      forall d: seq<nat> | InRange(d, |s|) ensures Shuffled(s, d) != p {
        LastNeverFirst(s, d);
      }
      assert !Reached(s, p);
    }
  }

  /** The first place gets the element drawn for it, which takes the first element's place among the
      rest; the rest is shuffled with the later draws. */
  lemma FirstDrawn<T>(s: seq<T>, draws: seq<nat>)
    requires s != [] && InRange(draws, |s|)
    ensures draws[0] < |s| && InRange(draws[1..], |s| - 1)
    ensures Shuffled(s, draws)[0] == s[draws[0]]
    ensures Shuffled(s, draws)[1..] == Shuffled(s[draws[0] := s[0]][1..], draws[1..])
  {
    RestInRange(draws, |s|);
    assert Swapped(s, 0, draws[0])[1..] == s[draws[0] := s[0]][1..];
  }
}

/** benchmarks/fannkuch.rs: flips of every permutation, generated by rotations with counters. */
module Fannkuch {
  import opened Permutations
  import opened PowersOfTwo

  /** The first `k` + 1 elements reversed. */
  function Flip(p: seq<nat>, k: nat): (q: seq<nat>)
    requires k < |p|
    ensures |q| == |p|
    ensures forall i :: 0 <= i < |p| ==> q[i] == if i <= k then p[k - i] else p[i]
  {
    seq(|p|, i requires 0 <= i < |p| => if i <= k then p[k - i] else p[i])
  }

  /** What the elements before `m` weigh: position i >= 1 weighs 2^(i-1) when it holds i. */
  function Weight(p: seq<nat>, m: nat): nat
    requires m <= |p|
  {
    if m <= 1 then 0 else Weight(p, m - 1) + if p[m - 1] == m - 1 then Pow2(m - 2) else 0
  }

  lemma {:induction false} WeightBound(p: seq<nat>, m: nat)
    requires 1 <= m <= |p|
    ensures Weight(p, m) < Pow2(m - 1)
  {
    if m > 1 {
      WeightBound(p, m - 1);
    }
  }

  lemma FlipPermutation(p: seq<nat>, k: nat, n: nat)
    requires IsPermutation(p, n) && k < n
    ensures IsPermutation(Flip(p, k), n)
  {
  }

  /** A flip puts p[0] in its place at the cost of lighter places only, so the weight grows. */
  lemma {:induction false} FlipGains(p: seq<nat>, m: nat)
    requires IsPermutation(p, |p|) && |p| > 0 && p[0] > 0 && p[0] < m <= |p|
    ensures Weight(Flip(p, p[0]), m) > Weight(p, m)
  {
    var k := p[0];
    if m == k + 1 {
      WeightBound(p, k);
      assert p[k] != k;
    } else {
      FlipGains(p, m - 1);
    }
  }

  /** How many flips bring 0 to the front. */
  function Flips(p: seq<nat>): (f: nat)
    requires IsPermutation(p, |p|) && |p| > 0
    ensures f + Weight(p, |p|) < Pow2(|p| - 1)
    decreases Pow2(|p| - 1) - Weight(p, |p|)
  {
    WeightBound(p, |p|);
    if p[0] == 0 then 0
    else
      FlipStep(p);
      1 + Flips(Flip(p, p[0]))
  }

  lemma FlipStep(p: seq<nat>)
    requires IsPermutation(p, |p|) && |p| > 0 && p[0] != 0
    ensures IsPermutation(Flip(p, p[0]), |p|)
    ensures Weight(p, |p|) < Weight(Flip(p, p[0]), |p|) < Pow2(|p| - 1)
  {
    hide Weight, Pow2;
    FlipPermutation(p, p[0], |p|);
    FlipGains(p, |p|);
    WeightBound(Flip(p, p[0]), |p|);
  }

  /** Fewer than 2^(n-1) flips bring 0 to the front of a permutation of n elements. */
  lemma FlipsBounded(p: seq<nat>, n: nat)
    requires IsPermutation(p, n) && n >= 1
    ensures Flips(p) < Pow2(n - 1)
    ensures Flips(p) == 0 <==> p[0] == 0
    ensures p[0] != 0 ==> IsPermutation(Flip(p, p[0]), n) && Flips(p) == 1 + Flips(Flip(p, p[0]))
  {
    assert |p| == n;
    hide IsPermutation, Weight, Flip, Pow2;
    if p[0] != 0 {
      FlipStep(p);
    }
  }

  function FlipsAt(n: nat, t: nat): nat
    requires n >= 1 && t < Fact(n)
  {
    VisitIsPermutation(n, t);
    Flips(PermAt(n, t))
  }

  /** The flips of every other visit, from time `first` on and before time `t`. */
  function FlipsEvery(n: nat, first: nat, t: nat): (fs: seq<nat>)
    requires n >= 1 && first <= 1 && t <= Fact(n)
  {
    var visits := (t + 1 - first) / 2;
    seq(visits, i requires 0 <= i < visits => FlipsAt(n, 2 * i + first))
  }

  function Total(fs: seq<nat>): nat {
    if fs == [] then 0 else Total(fs[..|fs| - 1]) + fs[|fs| - 1]
  }

  lemma TotalOfMore(fs: seq<nat>, f: nat)
    ensures Total(fs + [f]) == Total(fs) + f
  {
    assert (fs + [f])[..|fs|] == fs;
  }

  /** The flips of the even visits before time `t`, less those of the odd ones. */
  function EvenLessOdd(n: nat, t: nat): int
    requires n >= 1 && t <= Fact(n)
  {
    Total(FlipsEvery(n, 0, t)) - Total(FlipsEvery(n, 1, t))
  }

  lemma NoVisits(n: nat)
    requires n >= 1
    ensures EvenLessOdd(n, 0) == 0
  {
    assert FlipsEvery(n, 0, 0) == [] && FlipsEvery(n, 1, 0) == [];
  }

  lemma OneMoreVisit(n: nat, t: nat)
    requires n >= 1 && t < Fact(n)
    ensures t % 2 == 0 ==> EvenLessOdd(n, t + 1) == EvenLessOdd(n, t) + FlipsAt(n, t)
    ensures t % 2 != 0 ==> EvenLessOdd(n, t + 1) == EvenLessOdd(n, t) - FlipsAt(n, t)
  {
    hide FlipsAt, Total;
    if t % 2 == 0 {
      assert FlipsEvery(n, 0, t + 1) == FlipsEvery(n, 0, t) + [FlipsAt(n, t)];
      assert FlipsEvery(n, 1, t + 1) == FlipsEvery(n, 1, t);
      TotalOfMore(FlipsEvery(n, 0, t), FlipsAt(n, t));
    } else {
      assert FlipsEvery(n, 0, t + 1) == FlipsEvery(n, 0, t);
      assert FlipsEvery(n, 1, t + 1) == FlipsEvery(n, 1, t) + [FlipsAt(n, t)];
      TotalOfMore(FlipsEvery(n, 1, t), FlipsAt(n, t));
    }
  }

  ghost predicate MostFlips(n: nat, t: nat, m: nat)
    requires n >= 1 && t <= Fact(n)
  {
    && (forall s :: 0 <= s < t ==> FlipsAt(n, s) <= m)
    && (t > 0 ==> exists s :: 0 <= s < t && FlipsAt(n, s) == m)
    && (t == 0 ==> m == 0)
  }

  method ReversePrefix(perm: array<nat>, k: nat)
    requires k < perm.Length
    modifies perm
    ensures perm[..] == Flip(old(perm[..]), k)
  {
    var i, j := 0, k;
    while i < j
      invariant 0 <= i <= j + 1 <= k + 1 && i + j == k
      invariant forall x :: 0 <= x < perm.Length ==>
        perm[x] == if x < i || j < x <= k then old(perm[k - x]) else old(perm[x])
      decreases j
    {
      perm[i], perm[j] := perm[j], perm[i];
      i, j := i + 1, j - 1;
    }
  }

  method CountFlips(perm: array<nat>) returns (flips: nat)
    requires perm.Length > 0 && IsPermutation(perm[..], perm.Length)
    modifies perm
    ensures flips == Flips(old(perm[..]))
  {
    flips := 0;
    while perm[0] != 0
      invariant IsPermutation(perm[..], perm.Length)
      invariant flips + Flips(perm[..]) == Flips(old(perm[..]))
      decreases Flips(perm[..])
    {
      var k := perm[0];
      FlipsBounded(perm[..], perm.Length);
      ReversePrefix(perm, k);
      flips := flips + 1;
    }
    FlipsBounded(perm[..], perm.Length);
  }

  /** The counters that belong to digits: count[m] rotations of level m are still to come. */
  ghost predicate Counts(count: seq<nat>, d: seq<nat>, from: nat) {
    |count| == |d| && forall m :: 1 <= m < |d| && m >= from ==> d[m] <= m && count[m] == m + 1 - d[m]
  }

  method ResetCounts(count: array<nat>, r0: nat, ghost d: seq<nat>)
    requires 1 <= r0 <= count.Length && Counts(count[..], d, r0) && forall m :: 0 <= m < r0 ==> d[m] == 0
    modifies count
    ensures Counts(count[..], d, 1)
  {
    var r := r0;
    while r != 1
      invariant 1 <= r <= r0 && Counts(count[..], d, r)
    {
      count[r - 1] := r;
      r := r - 1;
    }
  }

  /** One rotation to the left of the first `r` + 1 elements. */
  method RotatePrefix(perm1: array<nat>, r: nat)
    requires r < perm1.Length
    modifies perm1
    ensures perm1[..] == Rotate(old(perm1[..]), r, 1)
  {
    var perm0 := perm1[0];
    for i := 0 to r
      invariant forall x :: 0 <= x < perm1.Length ==> perm1[x] == if x < i then old(perm1[x + 1]) else old(perm1[x])
    {
      perm1[i] := perm1[i + 1];
    }
    perm1[r] := perm0;
  }

  /** Carries on to the next permutation: level r is rotated, and the next level too when level r has
      come round. Returns the level that stopped the carry, or the length when all have come round. */
  method NextPermutation(perm1: array<nat>, count: array<nat>, ghost d: seq<nat>) returns (r: nat)
    requires perm1.Length == count.Length == |d| && perm1 != count && Digits(d, |d|)
    requires Counts(count[..], d, 1) && perm1[..] == Unrank(d, 1)
    modifies perm1, count
    ensures 1 <= r <= |d| && forall m :: 0 < m < r ==> d[m] == m
    ensures r < |d| ==> d[r] < r && perm1[..] == Unrank(Carry(d, r), 1) && Counts(count[..], Carry(d, r), r)
  {
    hide Rotate, Unrank;
    r := 1;
    while true
      invariant 1 <= r <= |d| && (forall m :: 0 < m < r ==> d[m] == m)
      invariant Counts(count[..], d, r) && perm1[..] == Unrank(d, r)
      decreases |d| - r
    {
      if r == perm1.Length {
        return;
      }
      UnrankStep(d, r);
      RotateAgain(Unrank(d, r + 1), r, d[r]);
      RotatePrefix(perm1, r);
      count[r] := count[r] - 1;
      if count[r] > 0 {
        CarryUnrank(d, r);
        return;
      }
      RotateRound(Unrank(d, r + 1), r);
      r := r + 1;
    }
  }

  lemma FirstVisit(n: nat, d: seq<nat>)
    requires n >= 1 && |d| == n && forall m :: 0 <= m < n ==> d[m] == 0
    ensures Fact(n) > 0 && DigitsOf(n, 0) == d && PermAt(n, 0) == Identity(n)
    ensures EvenLessOdd(n, 0) == 0 && MostFlips(n, 0, 0)
  {
    NoVisits(n);
    RankZero(d, n);
    DigitsOfRank(d, n);
    UnrankZeros(d, n, 1);
  }

  lemma VisitAdds(n: nat, t: nat, checksum: int, m: nat)
    requires n >= 1 && t < Fact(n) && checksum == EvenLessOdd(n, t) && MostFlips(n, t, m)
    ensures IsPermutation(PermAt(n, t), n)
    ensures var f := Flips(PermAt(n, t));
            && (t % 2 == 0 ==> EvenLessOdd(n, t + 1) == checksum + f)
            && (t % 2 != 0 ==> EvenLessOdd(n, t + 1) == checksum - f)
            && MostFlips(n, t + 1, if f > m then f else m)
  {
    hide Flips, PermAt, Fact, EvenLessOdd;
    OneMoreVisit(n, t);
    VisitIsPermutation(n, t);
    MostAdds(n, t, m);
  }

  lemma MostAdds(n: nat, t: nat, m: nat)
    requires n >= 1 && t < Fact(n) && MostFlips(n, t, m)
    ensures MostFlips(n, t + 1, if FlipsAt(n, t) > m then FlipsAt(n, t) else m)
  {
    hide FlipsAt, Fact;
    var best := if FlipsAt(n, t) > m then FlipsAt(n, t) else m;
    if t > 0 && best == m {
      var s :| 0 <= s < t && FlipsAt(n, s) == m;
      assert FlipsAt(n, s) == best;
    }
  }

  /** The program: over the n! permutations in the order of visits, the flips of the even visits less those
      of the odd ones; and the largest number of flips of any permutation of n elements. */
  method Run(n: nat) returns (checksum: int, maxFlips: nat)
    requires n >= 1
    ensures checksum == Total(FlipsEvery(n, 0, Fact(n))) - Total(FlipsEvery(n, 1, Fact(n)))
    ensures forall p: seq<nat> :: IsPermutation(p, n) ==> Flips(p) <= maxFlips
    ensures exists p: seq<nat> :: IsPermutation(p, n) && Flips(p) == maxFlips
  {
    hide Rotate, Unrank, Carry, Flips, Fact, Rank, DigitsOf, EvenLessOdd, MostFlips;
    var perm := new nat[n](_ => 0);
    var perm1 := new nat[n](i => i);
    var count := new nat[n](_ => 0);
    maxFlips, checksum := 0, 0;
    var permCount := 0;
    var r := n;
    ghost var d := seq(n, i => 0);
    FirstVisit(n, d);
    assert perm1[..] == Identity(n);
    while true
      invariant 1 <= r <= n && permCount < Fact(n) && d == DigitsOf(n, permCount)
      invariant Counts(count[..], d, r) && forall m :: 0 <= m < r ==> d[m] == 0
      invariant perm1[..] == PermAt(n, permCount)
      invariant checksum == EvenLessOdd(n, permCount) && MostFlips(n, permCount, maxFlips)
      decreases Fact(n) - permCount
    {
      ResetCounts(count, r, d);
      CopyInto(perm, perm1);
      VisitAdds(n, permCount, checksum, maxFlips);
      var flips := CountFlips(perm);
      if flips > maxFlips {
        maxFlips := flips;
      }
      if permCount % 2 == 0 {
        checksum := checksum + flips;
      } else {
        checksum := checksum - flips;
      }
      r := NextPermutation(perm1, count, d);
      NextVisit(n, permCount, d, r);
      permCount := permCount + 1;
      if r == n {
        AllVisited(n, maxFlips);
        AllTotalled(n);
        return;
      }
      d := Carry(d, r);
    }
  }

  lemma AllTotalled(n: nat)
    requires n >= 1
    ensures EvenLessOdd(n, Fact(n)) == Total(FlipsEvery(n, 0, Fact(n))) - Total(FlipsEvery(n, 1, Fact(n)))
  {
  }

  method CopyInto(perm: array<nat>, perm1: array<nat>)
    requires perm.Length == perm1.Length && perm != perm1
    modifies perm
    ensures perm[..] == perm1[..]
  {
    forall i | 0 <= i < perm.Length {
      perm[i] := perm1[i];
    }
  }

  /** Where the carry has stopped: past the last level after the n!-th visit, and otherwise at the next visit. */
  lemma NextVisit(n: nat, t: nat, d: seq<nat>, r: nat)
    requires n >= 1 && t < Fact(n) && d == DigitsOf(n, t)
    requires 1 <= r <= n && (forall m :: 0 < m < r ==> d[m] == m) && (r < n ==> d[r] < r)
    ensures r == n ==> t + 1 == Fact(n)
    ensures r < n ==> t + 1 < Fact(n) && Carry(d, r) == DigitsOf(n, t + 1) && Unrank(Carry(d, r), 1) == PermAt(n, t + 1)
    ensures r < n ==> forall m :: 0 <= m < r ==> Carry(d, r)[m] == 0
  {
    hide Rotate, Unrank, Fact, Rank;
    RankOfDigits(n, t);
    if r == n {
      RankFull(d, n);
    } else {
      RankCarry(d, r, n);
      CarryUnrank(d, r);
      DigitsOfRank(Carry(d, r), n);
    }
  }

  /** A bound on the flips of every visit is a bound for every permutation. */
  lemma AllVisited(n: nat, m: nat)
    requires n >= 1 && MostFlips(n, Fact(n), m)
    ensures forall p: seq<nat> :: IsPermutation(p, n) ==> Flips(p) <= m
    ensures exists p: seq<nat> :: IsPermutation(p, n) && Flips(p) == m
  {
    forall p: seq<nat> | IsPermutation(p, n)
      ensures Flips(p) <= m
    {
      var t := EveryPermutationIsVisited(n, p);
      assert FlipsAt(n, t) <= m;
    }
    var s :| 0 <= s < Fact(n) && FlipsAt(n, s) == m;
    VisitIsPermutation(n, s);
    assert IsPermutation(PermAt(n, s), n) && Flips(PermAt(n, s)) == m;
  }
}

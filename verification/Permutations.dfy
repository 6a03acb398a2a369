/** Permutations of 0..n-1 and the factorial-base numbering in which benchmarks/fannkuch.rs visits them. */
module Permutations {
  ghost predicate IsPermutation(p: seq<nat>, n: nat) {
    && |p| == n
    && (forall i :: 0 <= i < n ==> p[i] < n)
    && forall i, j :: 0 <= i < j < n ==> p[i] != p[j]
  }

  function Identity(n: nat): (p: seq<nat>)
    ensures |p| == n && forall i :: 0 <= i < n ==> p[i] == i
  {
    seq(n, i => i)
  }

  function Fact(n: nat): (f: nat)
    ensures f >= 1
  {
    if n == 0 then 1
    else
      var f := Fact(n - 1);
      assert n * f >= 1 * f;
      n * f
  }

  /** The first `m` + 1 elements rotated to the left by `d`. */
  function Rotate(s: seq<nat>, m: nat, d: nat): (t: seq<nat>)
    requires m < |s| && d <= m + 1
    ensures |t| == |s|
  {
    s[d..m + 1] + s[..d] + s[m + 1..]
  }

  lemma RotateAgain(s: seq<nat>, m: nat, d: nat)
    requires m < |s| && d <= m
    ensures Rotate(Rotate(s, m, d), m, 1) == Rotate(s, m, d + 1)
  {
    var t := Rotate(s, m, d);
    assert t[1..m + 1] == s[d + 1..m + 1] + s[..d];
    assert t[..1] == [s[d]] && t[m + 1..] == s[m + 1..];
    assert s[..d + 1] == s[..d] + [s[d]];
  }

  lemma RotateRound(s: seq<nat>, m: nat)
    requires m < |s|
    ensures Rotate(s, m, m + 1) == s && Rotate(s, m, 0) == s
  {
  }

  /** Digit `m` counts the rotations of the first `m` + 1 elements and is at most `m`. */
  ghost predicate Digits(d: seq<nat>, n: nat) {
    n >= 1 && |d| == n && forall m :: 0 <= m < n ==> d[m] <= m
  }

  /** The value of the digits below `m` in the factorial base. */
  function Rank(d: seq<nat>, m: nat): nat
    requires 1 <= m <= |d|
  {
    if m == 1 then 0 else Rank(d, m - 1) + d[m - 1] * Fact(m - 1)
  }

  /** The identity rotated by the digits from the last down to digit `m`. */
  function Unrank(d: seq<nat>, m: nat): (p: seq<nat>)
    requires 1 <= m <= |d| && forall j :: 0 <= j < |d| ==> d[j] <= j
    ensures |p| == |d|
    decreases |d| - m
  {
    if m == |d| then Identity(|d|) else Rotate(Unrank(d, m + 1), m, d[m])
  }

  lemma UnrankStep(d: seq<nat>, m: nat)
    requires 1 <= m < |d| && forall j :: 0 <= j < |d| ==> d[j] <= j
    ensures Unrank(d, m) == Rotate(Unrank(d, m + 1), m, d[m])
  {
  }

  function Quotient(t: nat, f: nat, n: nat): (q: nat)
    requires f >= 1 && t < n * f
    ensures q < n && q * f <= t < q * f + f
  {
    var q := t / f;
    assert q < n by {
      if q >= n {
        MulLe(n, q, f);
      }
    }
    q
  }

  function DigitsOf(n: nat, t: nat): (d: seq<nat>)
    requires n >= 1 && t < Fact(n)
    ensures Digits(d, n)
  {
    if n == 1 then [0]
    else
      var q := Quotient(t, Fact(n - 1), n);
      DigitsOf(n - 1, t - q * Fact(n - 1)) + [q]
  }

  /** The permutation that is visited at time `t`. */
  function PermAt(n: nat, t: nat): (p: seq<nat>)
    requires n >= 1 && t < Fact(n)
  {
    Unrank(DigitsOf(n, t), 1)
  }

  lemma MulLe(a: nat, b: nat, f: nat)
    requires a <= b
    ensures a * f <= b * f
  {
  }

  lemma Distribute(a: nat, f: nat)
    ensures (a + 1) * f == a * f + f
  {
  }

  // Ranks are a bijection between digits and 0..n!-1.

  lemma {:induction false} RankDepends(d: seq<nat>, e: seq<nat>, m: nat)
    requires 1 <= m <= |d| && m <= |e| && forall j :: 0 < j < m ==> d[j] == e[j]
    ensures Rank(d, m) == Rank(e, m)
  {
    if m > 1 {
      RankDepends(d, e, m - 1);
    }
  }

  lemma {:induction false} RankBound(d: seq<nat>, m: nat)
    requires 1 <= m <= |d| && forall j :: 0 <= j < |d| ==> d[j] <= j
    ensures Rank(d, m) < Fact(m)
  {
    if m > 1 {
      RankBound(d, m - 1);
      MulLe(d[m - 1], m - 1, Fact(m - 1));
      Distribute(m - 1, Fact(m - 1));
    }
  }

  lemma QuotientUnique(a: nat, b: nat, x: nat, y: nat, f: nat)
    requires x < f && y < f && x + a * f == y + b * f
    ensures a == b && x == y
  {
    if a < b {
      MulLe(a + 1, b, f);
      Distribute(a, f);
    } else if b < a {
      MulLe(b + 1, a, f);
      Distribute(b, f);
    }
  }

  lemma {:induction false} RankInjective(d: seq<nat>, e: seq<nat>, m: nat)
    requires 1 <= m <= |d| && m <= |e| && Rank(d, m) == Rank(e, m)
    requires (forall j :: 0 <= j < |d| ==> d[j] <= j) && (forall j :: 0 <= j < |e| ==> e[j] <= j)
    ensures d[..m] == e[..m]
  {
    if m == 1 {
    } else {
      RankBound(d, m - 1);
      RankBound(e, m - 1);
      QuotientUnique(d[m - 1], e[m - 1], Rank(d, m - 1), Rank(e, m - 1), Fact(m - 1));
      RankInjective(d, e, m - 1);
      assert d[..m] == d[..m - 1] + [d[m - 1]] && e[..m] == e[..m - 1] + [e[m - 1]];
    }
  }

  lemma {:induction false} RankOfDigits(n: nat, t: nat)
    requires n >= 1 && t < Fact(n)
    ensures Rank(DigitsOf(n, t), n) == t
  {
    if n > 1 {
      var q := Quotient(t, Fact(n - 1), n);
      var low := DigitsOf(n - 1, t - q * Fact(n - 1));
      RankOfDigits(n - 1, t - q * Fact(n - 1));
      assert DigitsOf(n, t) == low + [q];
      RankDepends(low + [q], low, n - 1);
    }
  }

  lemma DigitsOfRank(d: seq<nat>, n: nat)
    requires Digits(d, n)
    ensures Rank(d, n) < Fact(n) && DigitsOf(n, Rank(d, n)) == d
  {
    RankBound(d, n);
    RankOfDigits(n, Rank(d, n));
    RankInjective(d, DigitsOf(n, Rank(d, n)), n);
    assert d[..n] == d && DigitsOf(n, Rank(d, n))[..n] == DigitsOf(n, Rank(d, n));
  }

  // Counting up: the digits below `r` are at their largest, digit `r` is not.

  lemma {:induction false} RankFull(d: seq<nat>, m: nat)
    requires 1 <= m <= |d| && forall j :: 0 < j < m ==> d[j] == j
    ensures Rank(d, m) == Fact(m) - 1
  {
    if m > 1 {
      RankFull(d, m - 1);
      Distribute(m - 1, Fact(m - 1));
    }
  }

  /** The digits after carrying into digit `r`. */
  function Carry(d: seq<nat>, r: nat): (e: seq<nat>)
    requires r < |d|
    ensures |e| == |d|
    ensures forall j :: 0 <= j < |d| ==> e[j] == if j < r then 0 else if j == r then d[r] + 1 else d[j]
  {
    seq(|d|, j requires 0 <= j < |d| => if j < r then 0 else if j == r then d[r] + 1 else d[j])
  }

  lemma {:induction false} RankZero(d: seq<nat>, m: nat)
    requires 1 <= m <= |d| && forall j :: 0 < j < m ==> d[j] == 0
    ensures Rank(d, m) == 0
  {
    if m > 1 {
      RankZero(d, m - 1);
    }
  }

  lemma {:induction false} RankCarry(d: seq<nat>, r: nat, m: nat)
    requires 1 <= r < m <= |d| && forall j :: 0 < j < r ==> d[j] == j
    ensures Rank(Carry(d, r), m) == Rank(d, m) + 1
  {
    if m == r + 1 {
      RankFull(d, r);
      RankZero(Carry(d, r), r);
      Distribute(d[r], Fact(r));
    } else {
      RankCarry(d, r, m - 1);
    }
  }

  // Unranking is a bijection between digits and permutations.

  lemma RotatePermutation(s: seq<nat>, m: nat, d: nat, n: nat)
    requires IsPermutation(s, n) && m < n && d <= m + 1
    ensures IsPermutation(Rotate(s, m, d), n)
  {
  }

  lemma {:induction false} UnrankPermutation(d: seq<nat>, m: nat)
    requires 1 <= m <= |d| && forall j :: 0 <= j < |d| ==> d[j] <= j
    ensures IsPermutation(Unrank(d, m), |d|)
    decreases |d| - m
  {
    if m < |d| {
      UnrankPermutation(d, m + 1);
      RotatePermutation(Unrank(d, m + 1), m, d[m], |d|);
    }
  }

  lemma {:induction false} UnrankDepends(d: seq<nat>, e: seq<nat>, m: nat)
    requires |d| == |e| && 1 <= m <= |d| && forall j :: m <= j < |d| ==> d[j] == e[j]
    requires (forall j :: 0 <= j < |d| ==> d[j] <= j) && (forall j :: 0 <= j < |e| ==> e[j] <= j)
    ensures Unrank(d, m) == Unrank(e, m)
    decreases |d| - m
  {
    if m < |d| {
      UnrankDepends(d, e, m + 1);
    }
  }

  /** Digits below `m` leave the elements from `m` on where they are. */
  lemma {:induction false} UnrankTail(d: seq<nat>, m: nat, j: nat)
    requires 1 <= m <= |d| && m <= j < |d| && forall i :: 0 <= i < |d| ==> d[i] <= i
    ensures Unrank(d, 1)[j] == Unrank(d, m)[j]
  {
    if m > 1 {
      UnrankTail(d, m - 1, j);
    }
  }

  /** Digits below `r` that are all zero do nothing. */
  lemma {:induction false} UnrankZeros(d: seq<nat>, r: nat, m: nat)
    requires 1 <= m <= r <= |d| && (forall j :: 0 <= j < |d| ==> d[j] <= j) && forall j :: 0 < j < r ==> d[j] == 0
    ensures Unrank(d, m) == Unrank(d, r)
    decreases r - m
  {
    if m < r {
      UnrankZeros(d, r, m + 1);
      RotateRound(Unrank(d, m + 1), m);
    }
  }

  /** The element at `m` after level `m` tells its digit; those after it stay. */
  lemma LevelElement(u: seq<nat>, m: nat, d: nat)
    requires m < |u| && d <= m
    ensures Rotate(u, m, d)[m] == if d == 0 then u[m] else u[d - 1]
    ensures forall j :: m < j < |u| ==> Rotate(u, m, d)[j] == u[j]
  {
  }

  lemma {:induction false} UnrankInjective(d: seq<nat>, e: seq<nat>, m: nat)
    requires |d| == |e| && 1 <= m <= |d|
    requires (forall j :: 0 <= j < |d| ==> d[j] <= j) && (forall j :: 0 <= j < |e| ==> e[j] <= j)
    requires Unrank(d, 1) == Unrank(e, 1)
    ensures forall j :: m <= j < |d| ==> d[j] == e[j]
    decreases |d| - m
  {
    hide Rotate;
    if m < |d| {
      UnrankInjective(d, e, m + 1);
      UnrankDepends(d, e, m + 1);
      UnrankTail(d, m, m);
      UnrankTail(e, m, m);
      var u := Unrank(d, m + 1);
      assert Unrank(d, m) == Rotate(u, m, d[m]) && Unrank(e, m) == Rotate(u, m, e[m]);
      UnrankPermutation(d, m + 1);
      SameDigit(u, m, d[m], e[m]);
    }
  }

  lemma SameDigit(u: seq<nat>, m: nat, d: nat, e: nat)
    requires IsPermutation(u, |u|) && m < |u| && d <= m && e <= m && Rotate(u, m, d)[m] == Rotate(u, m, e)[m]
    ensures d == e
  {
    LevelElement(u, m, d);
    LevelElement(u, m, e);
  }

  lemma {:induction false} Upto(n: nat) returns (s: set<nat>)
    ensures |s| == n && forall v: nat :: v in s <==> v < n
  {
    if n == 0 {
      s := {};
    } else {
      s := Upto(n - 1);
      s := s + {n - 1};
    }
  }

  function Elements(p: seq<nat>): set<nat> {
    if p == [] then {} else {p[0]} + Elements(p[1..])
  }

  lemma {:induction false} ElementsAre(p: seq<nat>, v: nat)
    ensures v in Elements(p) <==> v in p
  {
    if p != [] {
      ElementsAre(p[1..], v);
      assert p == [p[0]] + p[1..];
    }
  }

  lemma {:induction false} CountElements(p: seq<nat>)
    requires forall i, j :: 0 <= i < j < |p| ==> p[i] != p[j]
    ensures |Elements(p)| == |p|
  {
    if p != [] {
      CountElements(p[1..]);
      ElementsAre(p[1..], p[0]);
    }
  }

  lemma SubsetEqual<T>(a: set<T>, b: set<T>)
    requires a <= b && |a| == |b|
    ensures a == b
  {
    assert b == a + (b - a);
    assert |b| == |a| + |b - a|;
  }

  /** A permutation takes every value below its length. */
  lemma PermutationOnto(p: seq<nat>, n: nat, v: nat)
    requires IsPermutation(p, n) && v < n
    ensures v in p
  {
    var all := Upto(n);
    CountElements(p);
    forall x | x in Elements(p)
      ensures x in all
    {
      ElementsAre(p, x);
    }
    SubsetEqual(Elements(p), all);
    ElementsAre(p, v);
  }

  /** The digits of a permutation, found from the last element down. */
  lemma {:induction false} FindDigits(p: seq<nat>, n: nat, m: nat) returns (d: seq<nat>)
    requires n >= 1 && IsPermutation(p, n) && 1 <= m <= n
    ensures Digits(d, n)
    ensures forall j :: m <= j < n ==> Unrank(d, m)[j] == p[j]
    decreases n - m
  {
    hide Rotate, Unrank;
    if m == n {
      d := seq(n, i => 0);
    } else {
      var e := FindDigits(p, n, m + 1);
      var u := Unrank(e, m + 1);
      UnrankPermutation(e, m + 1);
      PermutationOnto(u, n, p[m]);
      var k :| 0 <= k < n && u[k] == p[m];
      assert forall j :: m < j < n ==> u[j] == p[j];
      assert k <= m;
      d := e[m := if k == m then 0 else k + 1];
      UnrankDepends(d, e, m + 1);
      LevelElement(u, m, d[m]);
      UnrankStep(d, m);
    }
  }

  lemma SameLast(p: seq<nat>, q: seq<nat>, n: nat)
    requires n >= 1 && IsPermutation(p, n) && IsPermutation(q, n)
    requires forall j :: 1 <= j < n ==> p[j] == q[j]
    ensures p == q
  {
    PermutationOnto(q, n, p[0]);
  }

  // The three facts about the order of visits.

  lemma VisitIsPermutation(n: nat, t: nat)
    requires n >= 1 && t < Fact(n)
    ensures IsPermutation(PermAt(n, t), n)
  {
    UnrankPermutation(DigitsOf(n, t), 1);
  }

  /** No permutation is visited twice. */
  lemma VisitsAreDistinct(n: nat, s: nat, t: nat)
    requires n >= 1 && s < Fact(n) && t < Fact(n) && PermAt(n, s) == PermAt(n, t)
    ensures s == t
  {
    UnrankInjective(DigitsOf(n, s), DigitsOf(n, t), 1);
    RankDepends(DigitsOf(n, s), DigitsOf(n, t), n);
    RankOfDigits(n, s);
    RankOfDigits(n, t);
  }

  /** Every permutation is visited, at the time that its digits name. */
  lemma EveryPermutationIsVisited(n: nat, p: seq<nat>) returns (t: nat)
    requires n >= 1 && IsPermutation(p, n)
    ensures t < Fact(n) && PermAt(n, t) == p
  {
    var d := FindDigits(p, n, 1);
    DigitsOfRank(d, n);
    t := Rank(d, n);
    UnrankPermutation(d, 1);
    SameLast(Unrank(d, 1), p, n);
  }

  lemma CarryUnrank(d: seq<nat>, r: nat)
    requires Digits(d, |d|) && 1 <= r < |d| && d[r] < r
    ensures Digits(Carry(d, r), |d|) && Unrank(Carry(d, r), 1) == Rotate(Unrank(d, r + 1), r, d[r] + 1)
  {
    hide Rotate, Carry, Unrank;
    var e := Carry(d, r);
    UnrankZeros(e, r, 1);
    UnrankDepends(d, e, r + 1);
    UnrankStep(e, r);
  }

  // From one visit to the next, element by element.

  /** `q` is `p` with its first `m` + 1 elements moved one place to the left, the first of them to the end. */
  ghost predicate MovedLeft(p: seq<nat>, q: seq<nat>, m: nat) {
    && m < |p| == |q| && q[m] == p[0]
    && (forall i :: 0 <= i < m ==> q[i] == p[i + 1])
    && forall i :: m < i < |p| ==> q[i] == p[i]
  }

  lemma RotateMoves(p: seq<nat>, m: nat)
    requires m < |p|
    ensures MovedLeft(p, Rotate(p, m, 1), m)
  {
  }

  /** The digits from `m` on count in multiples of m!. */
  lemma {:induction false} RankAbove(d: seq<nat>, m: nat, n: nat) returns (h: nat)
    requires 1 <= m <= n <= |d|
    ensures Rank(d, n) == Rank(d, m) + h * Fact(m)
  {
    if m == n {
      h := 0;
    } else {
      h := RankAbove(d, m, n - 1);
      var k := FactAbove(m, n - 1);
      Regroup(h, d[n - 1], k, Fact(m));
      h := h + d[n - 1] * k;
    }
  }

  lemma Regroup(h: nat, d: nat, k: nat, f: nat)
    ensures h * f + d * (k * f) == (h + d * k) * f
  {
  }

  lemma FactStep(n: nat)
    requires n >= 1
    ensures Fact(n) == n * Fact(n - 1)
  {
  }

  lemma {:induction false} FactAbove(m: nat, n: nat) returns (k: nat)
    requires m <= n
    ensures Fact(n) == k * Fact(m)
  {
    hide Fact;
    if m == n {
      k := 1;
    } else {
      k := FactAbove(m, n - 1);
      FactStep(n);
      Regroup(0, n, k, Fact(m));
      k := n * k;
    }
  }

  lemma Remainder(h: nat, f: nat, x: nat)
    requires x < f
    ensures (h * f + x) % f == x
  {
    var t := h * f + x;
    QuotientUnique(t / f, h, t % f, x, f);
  }

  /** The level that stops the carry tells how often 2, 3, ... divide the time. */
  lemma StopDivides(n: nat, t: nat, r: nat)
    requires n >= 1 && t < Fact(n) && 1 <= r < n
    requires var d := DigitsOf(n, t); (forall m :: 0 < m < r ==> d[m] == m) && d[r] < r
    ensures (t + 1) % Fact(r) == 0 && (t + 1) % Fact(r + 1) != 0
  {
    hide DigitsOf;
    var d := DigitsOf(n, t);
    RankOfDigits(n, t);
    RankFull(d, r);
    var g := RankAbove(d, r, n);
    Distribute(g, Fact(r));
    Remainder(g + 1, Fact(r), 0);
    var h := RankAbove(d, r + 1, n);
    Distribute(d[r], Fact(r));
    MulLe(d[r] + 1, r, Fact(r));
    Distribute(r, Fact(r));
    Remainder(h, Fact(r + 1), (d[r] + 1) * Fact(r));
    MulLe(1, d[r] + 1, Fact(r));
  }

  /** The first digit that is not at its largest. */
  lemma FirstFree(d: seq<nat>, t: nat) returns (r: nat)
    requires Digits(d, |d|) && t == Rank(d, |d|) && t + 1 < Fact(|d|)
    ensures 1 <= r < |d| && (forall m :: 0 < m < r ==> d[m] == m) && d[r] < r
  {
    r := 1;
    while r < |d| && d[r] == r
      invariant 1 <= r <= |d| && forall m :: 0 < m < r ==> d[m] == m
    {
      r := r + 1;
    }
    if r == |d| {
      RankFull(d, |d|);
    }
  }

  /** The first visit is the identity. */
  lemma FirstVisitIsIdentity(n: nat)
    requires n >= 1
    ensures |PermAt(n, 0)| == n && forall i :: 0 <= i < n ==> PermAt(n, 0)[i] == i
  {
    var d := seq(n, i => 0);
    RankZero(d, n);
    DigitsOfRank(d, n);
    UnrankZeros(d, n, 1);
  }

  /** From the visit at time t to the next, the first 2, then the first 3, and at last the first r + 1 elements
      are moved to the left by one place, where r! divides t + 1 and (r + 1)! does not. */
  lemma SuccessiveVisits(n: nat, t: nat) returns (r: nat, ps: seq<seq<nat>>)
    requires n >= 1 && t + 1 < Fact(n)
    ensures 1 <= r < n && (t + 1) % Fact(r) == 0 && (t + 1) % Fact(r + 1) != 0
    ensures |ps| == r + 1 && ps[0] == PermAt(n, t) && ps[r] == PermAt(n, t + 1)
    ensures forall m :: 1 <= m <= r ==> MovedLeft(ps[m - 1], ps[m], m)
  {
    hide Rotate, Unrank, DigitsOf, Rank, Fact, MovedLeft;
    var d := DigitsOf(n, t);
    RankOfDigits(n, t);
    r := FirstFree(d, t);
    StopDivides(n, t, r);
    var e := Carry(d, r);
    RankCarry(d, r, n);
    DigitsOfRank(e, n);
    var last := Rotate(Unrank(d, r), r, 1);
    CarriedUnrank(d, r);
    ps := seq(r, m requires 0 <= m < r => Unrank(d, m + 1)) + [last];
    forall m | 1 <= m <= r
      ensures MovedLeft(ps[m - 1], ps[m], m)
    {
      RotateMoves(Unrank(d, m), m);
      if m < r {
        UnrankStep(d, m);
        RotateAgain(Unrank(d, m + 1), m, m);
        RotateRound(Unrank(d, m + 1), m);
      }
    }
  }

  lemma CarriedUnrank(d: seq<nat>, r: nat)
    requires Digits(d, |d|) && 1 <= r < |d| && d[r] < r
    ensures Digits(Carry(d, r), |d|) && Unrank(Carry(d, r), 1) == Rotate(Unrank(d, r), r, 1)
  {
    hide Rotate, Carry, Unrank;
    CarryUnrank(d, r);
    UnrankStep(d, r);
    RotateAgain(Unrank(d, r + 1), r, d[r]);
  }
}

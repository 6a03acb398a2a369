/** Bitmaps of 64-bit words in which a set bit marks a free slot. */
module Bitmaps {
  import opened PowersOfTwo

  const BITS := 64

  predicate Bit(x: nat, i: nat) {
    if i == 0 then x % 2 == 1 else Bit(x / 2, i - 1)
  }

  function BitOr(x: nat, y: nat): nat
    decreases x + y
  {
    if x == 0 then y
    else if y == 0 then x
    else 2 * BitOr(x / 2, y / 2) + if x % 2 == 1 || y % 2 == 1 then 1 else 0
  }

  function TrailingZeros(x: nat): nat
    requires x > 0
  {
    if x % 2 == 1 then 0 else 1 + TrailingZeros(x / 2)
  }

  function Ones(x: nat): nat {
    if x == 0 then 0 else x % 2 + Ones(x / 2)
  }

  predicate IsWord(x: nat) {
    x < Pow2(BITS)
  }

  // Single words.

  lemma {:induction false} ZeroHasNoBits(i: nat)
    ensures !Bit(0, i)
  {
    if i > 0 {
      ZeroHasNoBits(i - 1);
    }
  }

  lemma {:induction false} BitOfPow2(k: nat, i: nat)
    ensures Bit(Pow2(k), i) <==> i == k
  {
    if k > 0 && i > 0 {
      BitOfPow2(k - 1, i - 1);
    } else if i > 0 {
      ZeroHasNoBits(i - 1);
    }
  }

  lemma {:induction false} BitOfAndNot(x: nat, y: nat, i: nat)
    ensures Bit(AndNot(x, y), i) <==> Bit(x, i) && !Bit(y, i)
  {
    if x == 0 {
      ZeroHasNoBits(i);
    } else if i > 0 {
      BitOfAndNot(x / 2, y / 2, i - 1);
    }
  }

  lemma {:induction false} BitOfBitOr(x: nat, y: nat, i: nat)
    ensures Bit(BitOr(x, y), i) <==> Bit(x, i) || Bit(y, i)
  {
    if x == 0 || y == 0 {
      ZeroHasNoBits(i);
    } else if i > 0 {
      BitOfBitOr(x / 2, y / 2, i - 1);
    }
  }

  lemma {:induction false} AndNotIsSmaller(x: nat, y: nat)
    ensures AndNot(x, y) <= x
  {
    if x > 0 {
      AndNotIsSmaller(x / 2, y / 2);
    }
  }

  lemma {:induction false} BitOrIsBounded(x: nat, y: nat, n: nat)
    requires x < Pow2(n) && y < Pow2(n)
    ensures BitOr(x, y) < Pow2(n)
  {
    if x > 0 && y > 0 {
      BitOrIsBounded(x / 2, y / 2, n - 1);
    }
  }

  lemma {:induction false} Pow2Grows(k: nat, n: nat)
    requires k < n
    ensures Pow2(k) < Pow2(n)
  {
    if k < n - 1 {
      Pow2Grows(k, n - 1);
    }
  }

  /** A word is its bits. */
  lemma {:induction false} SameBits(x: nat, y: nat, n: nat)
    requires x < Pow2(n) && y < Pow2(n)
    requires forall i :: 0 <= i < n ==> Bit(x, i) == Bit(y, i)
    ensures x == y
  {
    if n > 0 {
      forall i | 0 <= i < n - 1
        ensures Bit(x / 2, i) == Bit(y / 2, i)
      {
        assert Bit(x, i + 1) == Bit(y, i + 1);
      }
      SameBits(x / 2, y / 2, n - 1);
      assert Bit(x, 0) == Bit(y, 0);
    }
  }

  /** Trailing zeros find the lowest set bit. */
  lemma {:induction false} LowestSetBit(x: nat, n: nat)
    requires 0 < x < Pow2(n)
    ensures TrailingZeros(x) < n && Bit(x, TrailingZeros(x))
    ensures forall i :: 0 <= i < TrailingZeros(x) ==> !Bit(x, i)
  {
    if x % 2 == 0 {
      LowestSetBit(x / 2, n - 1);
      forall i | 0 <= i < TrailingZeros(x)
        ensures !Bit(x, i)
      {
        assert i > 0 ==> !Bit(x / 2, i - 1);
      }
    }
  }

  lemma OnesOfDouble(x: nat, b: nat)
    requires b <= 1
    ensures Ones(2 * x + b) == Ones(x) + b
  {
    assert (2 * x + b) / 2 == x && (2 * x + b) % 2 == b;
  }

  lemma {:induction false} OnesOfAndNot(x: nat, k: nat)
    requires Bit(x, k)
    ensures Ones(AndNot(x, Pow2(k))) == Ones(x) - 1
  {
    hide Ones;
    OnesOfDouble(x / 2, x % 2);
    if x == 0 {
      ZeroHasNoBits(k);
    } else if k > 0 {
      OnesOfAndNot(x / 2, k - 1);
      assert Pow2(k) / 2 == Pow2(k - 1) && Pow2(k) % 2 == 0;
      OnesOfDouble(AndNot(x / 2, Pow2(k - 1)), x % 2);
    } else {
      AndNotZero(x / 2);
      OnesOfDouble(x / 2, 0);
    }
  }

  lemma {:induction false} OnesOfBitOr(x: nat, k: nat)
    requires !Bit(x, k)
    ensures Ones(BitOr(x, Pow2(k))) == Ones(x) + 1
  {
    assert Ones(0) == 0;
    hide Ones;
    OnesOfDouble(x / 2, x % 2);
    if x == 0 {
      OnesOfPow2(k);
    } else if k > 0 {
      OnesOfBitOr(x / 2, k - 1);
      assert Pow2(k) / 2 == Pow2(k - 1) && Pow2(k) % 2 == 0;
      OnesOfDouble(BitOr(x / 2, Pow2(k - 1)), x % 2);
    } else {
      BitOrZero(x / 2);
      OnesOfDouble(x / 2, 1);
    }
  }

  lemma {:induction false} OnesOfPow2(k: nat)
    ensures Ones(Pow2(k)) == 1
  {
    if k > 0 {
      hide Ones;
      OnesOfPow2(k - 1);
      OnesOfDouble(Pow2(k - 1), 0);
      assert Pow2(k) == 2 * Pow2(k - 1) + 0;
    } else {
      assert Ones(0) == 0;
      hide Ones;
      OnesOfDouble(0, 1);
    }
  }

  lemma BitOrZero(x: nat)
    ensures BitOr(x, 0) == x
  {
  }

  lemma {:induction false} OnesOfAllOnes(n: nat)
    ensures Ones(Pow2(n) - 1) == n
  {
    if n > 0 {
      assert (Pow2(n) - 1) / 2 == Pow2(n - 1) - 1;
      OnesOfAllOnes(n - 1);
    }
  }

  // Whole bitmaps.

  predicate Words(bm: seq<nat>) {
    forall i :: 0 <= i < |bm| ==> IsWord(bm[i])
  }

  predicate Free(bm: seq<nat>, k: nat) {
    k / BITS < |bm| && Bit(bm[k / BITS], k % BITS)
  }

  function CountFree(bm: seq<nat>): nat {
    if bm == [] then 0 else Ones(bm[0]) + CountFree(bm[1..])
  }

  function Take(bm: seq<nat>, k: nat): seq<nat>
    requires k / BITS < |bm|
  {
    bm[k / BITS := AndNot(bm[k / BITS], Pow2(k % BITS))]
  }

  function Give(bm: seq<nat>, k: nat): seq<nat>
    requires k / BITS < |bm|
  {
    bm[k / BITS := BitOr(bm[k / BITS], Pow2(k % BITS))]
  }

  lemma TakeClears(bm: seq<nat>, k: nat)
    requires Words(bm) && k / BITS < |bm|
    ensures Words(Take(bm, k))
    ensures forall j: nat :: Free(Take(bm, k), j) <==> Free(bm, j) && j != k
    ensures Free(bm, k) ==> CountFree(Take(bm, k)) == CountFree(bm) - 1
  {
    hide AndNot, Pow2, Bit;
    var i, w := k / BITS, AndNot(bm[k / BITS], Pow2(k % BITS));
    AndNotIsSmaller(bm[i], Pow2(k % BITS));
    forall j: nat
      ensures Free(Take(bm, k), j) <==> Free(bm, j) && j != k
    {
      BitOfAndNot(bm[i], Pow2(k % BITS), j % BITS);
      BitOfPow2(k % BITS, j % BITS);
    }
    CountAfterUpdate(bm, i, w);
    if Free(bm, k) {
      OnesOfAndNot(bm[i], k % BITS);
    }
  }

  lemma GiveSets(bm: seq<nat>, k: nat)
    requires Words(bm) && k / BITS < |bm|
    ensures Words(Give(bm, k))
    ensures forall j: nat :: Free(Give(bm, k), j) <==> Free(bm, j) || j == k
    ensures !Free(bm, k) ==> CountFree(Give(bm, k)) == CountFree(bm) + 1
  {
    hide BitOr, Pow2, Bit;
    var i, w := k / BITS, BitOr(bm[k / BITS], Pow2(k % BITS));
    Pow2Grows(k % BITS, BITS);
    BitOrIsBounded(bm[i], Pow2(k % BITS), BITS);
    forall j: nat
      ensures Free(Give(bm, k), j) <==> Free(bm, j) || j == k
    {
      BitOfBitOr(bm[i], Pow2(k % BITS), j % BITS);
      BitOfPow2(k % BITS, j % BITS);
    }
    CountAfterUpdate(bm, i, w);
    if !Free(bm, k) {
      OnesOfBitOr(bm[i], k % BITS);
    }
  }

  lemma {:induction false} CountAfterUpdate(bm: seq<nat>, i: nat, w: nat)
    requires i < |bm|
    ensures CountFree(bm[i := w]) == CountFree(bm) - Ones(bm[i]) + Ones(w)
  {
    if i == 0 {
      assert bm[i := w][1..] == bm[1..];
    } else {
      assert bm[i := w][1..] == bm[1..][i - 1 := w];
      CountAfterUpdate(bm[1..], i - 1, w);
    }
  }

  /** A bitmap is its free slots. */
  lemma SameFree(a: seq<nat>, b: seq<nat>)
    requires Words(a) && Words(b) && |a| == |b|
    requires forall k: nat :: Free(a, k) <==> Free(b, k)
    ensures a == b
  {
    hide Bit;
    forall i | 0 <= i < |a|
      ensures a[i] == b[i]
    {
      forall j | 0 <= j < BITS
        ensures Bit(a[i], j) == Bit(b[i], j)
      {
        assert Free(a, i * BITS + j) == Free(b, i * BITS + j);
      }
      SameBits(a[i], b[i], BITS);
    }
  }

  lemma {:induction false} NoneFree(bm: seq<nat>)
    ensures CountFree(bm) == 0 <==> forall i :: 0 <= i < |bm| ==> bm[i] == 0
  {
    if bm != [] {
      NoneFree(bm[1..]);
      assert forall i :: 0 <= i < |bm| - 1 ==> bm[1..][i] == bm[i + 1];
      NoOnes(bm[0]);
      if forall i :: 0 <= i < |bm| - 1 ==> bm[1..][i] == 0 {
        assert forall i :: 1 <= i < |bm| ==> bm[i] == bm[1..][i - 1];
      }
    }
  }

  lemma {:induction false} NoOnes(x: nat)
    ensures Ones(x) == 0 <==> x == 0
  {
    if x > 0 {
      NoOnes(x / 2);
    }
  }

  /** `k` is the lowest free slot. */
  ghost predicate IsLowest(bm: seq<nat>, k: nat) {
    Free(bm, k) && forall j: nat :: j < k ==> !Free(bm, j)
  }

  /** The slot that the first non-zero word and its trailing zeros point to is the lowest free one. */
  lemma FirstWordIsLowest(bm: seq<nat>, i: nat)
    requires Words(bm) && i < |bm| && bm[i] != 0 && forall j :: 0 <= j < i ==> bm[j] == 0
    ensures TrailingZeros(bm[i]) < BITS && IsLowest(bm, i * BITS + TrailingZeros(bm[i]))
  {
    hide Bit, TrailingZeros, Pow2;
    var bit := TrailingZeros(bm[i]);
    LowestSetBit(bm[i], BITS);
    forall j: nat | j < i * BITS + bit
      ensures !Free(bm, j)
    {
      if j / BITS < i {
        ZeroHasNoBits(j % BITS);
      } else {
        assert j / BITS == i && j % BITS < bit;
      }
    }
  }

  lemma AllZero(bm: seq<nat>)
    requires forall j :: 0 <= j < |bm| ==> bm[j] == 0
    ensures CountFree(bm) == 0 && forall k: nat :: !Free(bm, k)
  {
    hide Bit;
    NoneFree(bm);
    forall k: nat
      ensures !Free(bm, k)
    {
      ZeroHasNoBits(k % BITS);
    }
  }
}

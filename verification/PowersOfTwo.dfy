/** Rounding up to an alignment with a bit mask, as the size calculator does. */
module PowersOfTwo {
  function Pow2(k: nat): (p: nat)
    ensures p >= 1
  {
    if k == 0 then 1 else 2 * Pow2(k - 1)
  }

  predicate IsPow2(a: nat) {
    a == 1 || (a > 1 && a % 2 == 0 && IsPow2(a / 2))
  }

  lemma {:induction false} Exponent(a: nat) returns (k: nat)
    requires IsPow2(a)
    ensures a == Pow2(k)
  {
    if a == 1 {
      k := 0;
    } else {
      k := Exponent(a / 2);
      k := k + 1;
    }
  }

  /** The bits of `x` that are not in `y`. */
  function AndNot(x: nat, y: nat): nat {
    if x == 0 then 0 else 2 * AndNot(x / 2, y / 2) + if x % 2 == 1 && y % 2 == 0 then 1 else 0
  }

  /** (offset + align - 1) & !(align - 1) */
  function RoundUp(offset: nat, align: nat): nat
    requires align >= 1
  {
    AndNot(offset + align - 1, align - 1)
  }

  lemma {:induction false} AndNotZero(x: nat)
    ensures AndNot(x, 0) == x
  {
    if x > 0 {
      AndNotZero(x / 2);
    }
  }

  /** Masking off the low `k` bits leaves the multiple of 2^k at or below `x`. */
  lemma {:induction false} AndNotMask(x: nat, k: nat) returns (q: nat)
    ensures AndNot(x, Pow2(k) - 1) == q * Pow2(k) <= x < q * Pow2(k) + Pow2(k)
  {
    if k == 0 {
      AndNotZero(x);
      q := x;
    } else {
      q := AndNotMask(x / 2, k - 1);
      AndNotHalves(x, k);
      TwiceTimes(q, Pow2(k - 1));
    }
  }

  lemma AndNotHalves(x: nat, k: nat)
    requires k > 0
    ensures Pow2(k) == 2 * Pow2(k - 1)
    ensures AndNot(x, Pow2(k) - 1) == 2 * AndNot(x / 2, Pow2(k - 1) - 1)
  {
    var p := Pow2(k - 1);
    assert Pow2(k) - 1 == 2 * (p - 1) + 1;
    Halves(p - 1);
  }

  lemma Halves(y: nat)
    ensures (2 * y + 1) / 2 == y && (2 * y + 1) % 2 == 1
  {
  }

  lemma TwiceTimes(q: nat, p: nat)
    ensures q * (2 * p) == 2 * (q * p)
  {
  }

  /** For a power of two, rounding up gives the least multiple at or above the offset. */
  lemma RoundUpAligned(offset: nat, align: nat)
    requires IsPow2(align)
    ensures offset <= RoundUp(offset, align) < offset + align && RoundUp(offset, align) % align == 0
  {
    var k := Exponent(align);
    var q := AndNotMask(offset + align - 1, k);
    MultipleMod(q, align);
  }

  lemma MultipleMod(q: nat, a: nat)
    requires a >= 1
    ensures (q * a) % a == 0
  {
    var x := q * a;
    assert x == a * (x / a) + x % a;
    OnlyZeroIsSmaller(a, q - x / a, x % a);
  }

  lemma OnlyZeroIsSmaller(a: nat, k: int, r: nat)
    requires r == a * k && r < a
    ensures r == 0
  {
    assert k >= 1 ==> a * k >= a;
  }

  /** The lowest set bit. */
  lemma {:induction false} LowestBit(a: nat)
    requires a >= 1
    ensures 1 <= AndNot(a, a - 1) <= a
    ensures AndNot(a, a - 1) == a <==> IsPow2(a)
    decreases a
  {
    if a % 2 == 0 {
      assert (a - 1) / 2 == a / 2 - 1;
      LowestBit(a / 2);
    } else {
      assert (a - 1) / 2 == a / 2;
      AndNotSelf(a / 2);
    }
  }

  lemma {:induction false} AndNotSelf(a: nat)
    ensures AndNot(a, a) == 0
  {
    if a > 0 {
      AndNotSelf(a / 2);
    }
  }

  /** The mask trick rounds up to a multiple for every offset exactly when the alignment is a power of two. */
  lemma RoundUpExact(align: nat)
    requires align >= 1
    ensures IsPow2(align) <==> forall offset: nat :: RoundUp(offset, align) % align == 0
  {
    if IsPow2(align) {
      forall offset: nat
        ensures RoundUp(offset, align) % align == 0
      {
        RoundUpAligned(offset, align);
      }
    } else {
      RoundUpOne(align);
    }
  }

  /** An alignment that is no power of two already misplaces what comes after one byte. */
  lemma RoundUpOne(align: nat)
    requires align >= 1
    ensures RoundUp(1, align) % align == 0 <==> IsPow2(align)
  {
    if IsPow2(align) {
      RoundUpAligned(1, align);
    } else {
      LowestBit(align);
      SmallMod(RoundUp(1, align), align);
    }
  }

  lemma SmallMod(x: nat, a: nat)
    requires 0 < x < a
    ensures x % a == x
  {
    var q := x / a;
    assert x == a * q + x % a;
    assert q >= 1 ==> a * q >= a;
  }

  /** Of two powers of two, the smaller divides the larger. */
  lemma {:induction false} Pow2Divides(a: nat, b: nat)
    requires IsPow2(a) && IsPow2(b) && a <= b
    ensures b % a == 0
    decreases a
  {
    if a > 1 {
      Pow2Divides(a / 2, b / 2);
      assert a == 2 * (a / 2) && b == 2 * (b / 2);
      DoubleMod(b / 2, a / 2);
    }
  }

  lemma DoubleMod(b: nat, a: nat)
    requires a >= 1 && b % a == 0
    ensures (2 * b) % (2 * a) == 0
  {
    var q := b / a;
    assert b == q * a;
    assert 2 * b == q * (2 * a);
    MultipleMod(q, 2 * a);
  }

  /** A multiple times anything is a multiple. */
  lemma TimesMod(x: nat, n: nat, a: nat)
    requires a >= 1 && x % a == 0
    ensures (x * n) % a == 0
  {
    var q := x / a;
    assert x == q * a;
    assert x * n == (q * n) * a;
    MultipleMod(q * n, a);
  }
}

/** The u64 arithmetic of inc/bitwise.h, on naturals. */
module Bits {

  const U64 := 0x1_0000_0000_0000_0000

  function Pow2(k: nat): (p: nat)
    ensures 1 <= p
  {
    if k == 0 then 1 else 2 * Pow2(k - 1)
  }

  lemma {:induction false} Pow2Add(j: nat, k: nat)
    ensures Pow2(j + k) == Pow2(j) * Pow2(k)
  {
    if j > 0 {
      Pow2Add(j - 1, k);
      assert Pow2(j + k) == 2 * (Pow2(j - 1) * Pow2(k));
    }
  }

  lemma {:induction false} Pow2Monotone(j: nat, k: nat)
    requires j <= k
    ensures Pow2(j) <= Pow2(k)
    decreases k - j
  {
    if j < k {
      Pow2Monotone(j + 1, k);
    }
  }

  ghost predicate IsPow2(n: nat) {
    exists k: nat :: Pow2(k) == n
  }

  /** v & ~m */
  function AndNot(v: nat, m: nat): nat {
    if v == 0 then 0 else 2 * AndNot(v / 2, m / 2) + if v % 2 == 1 && m % 2 == 0 then 1 else 0
  }

  /** v | w */
  function Or(v: nat, w: nat): nat
    decreases v + w
  {
    if v == 0 then w
    else if w == 0 then v
    else 2 * Or(v / 2, w / 2) + if v % 2 == 1 || w % 2 == 1 then 1 else 0
  }

  /** ALIGN_POW2(v, to) */
  function AlignPow2(v: nat, to: nat): nat
    requires 0 < to
  {
    AndNot(v, to - 1)
  }

  /** ALIGN_UP_TO(v, to), in which -v is an unsigned 64-bit negation.  When v is not aligned
    * this lies a whole `to` above the next multiple. */
  function AlignUpTo(v: nat, to: nat): nat
    requires 0 < to && v < U64
  {
    if v % to == 0 then v else v + (U64 - v) % to + to
  }

  lemma {:induction false} AndNotAtMost(v: nat, m: nat)
    ensures AndNot(v, m) <= v
  {
    if v > 0 {
      AndNotAtMost(v / 2, m / 2);
    }
  }

  lemma MulTwice(a: nat, b: nat)
    ensures a * (2 * b) == 2 * (a * b)
  {
  }

  /** Clearing the low k bits leaves the multiple of 2^k below v. */
  lemma {:induction false} AndNotMask(v: nat, k: nat, m: nat) returns (q: nat, r: nat)
    requires m == Pow2(k) - 1
    ensures v == q * Pow2(k) + r && r < Pow2(k) && AndNot(v, m) == q * Pow2(k)
  {
    if k == 0 {
      AndNotZero(v);
      q, r := v, 0;
    } else if v == 0 {
      q, r := 0, 0;
    } else {
      var p := Pow2(k - 1);
      assert m == 2 * (p - 1) + 1;
      var half;
      q, half := AndNotMask(v / 2, k - 1, p - 1);
      r := 2 * half + v % 2;
      var h := q * p;
      MulTwice(q, p);
      assert v / 2 == h + half && AndNot(v / 2, m / 2) == h;
      assert q * Pow2(k) == 2 * h;
    }
  }

  lemma {:induction false} AndNotZero(v: nat)
    ensures AndNot(v, 0) == v
  {
    if v > 0 {
      AndNotZero(v / 2);
    }
  }

  lemma MulAtLeast(x: int, d: nat)
    requires 1 <= x
    ensures d <= x * d
  {
    assert x * d == d + (x - 1) * d;
    MulNat(x - 1, d);
  }

  lemma MulNat(x: nat, y: nat)
    ensures 0 <= x * y
  {
  }

  lemma DivModUnique(v: int, d: nat, q: int, r: nat)
    requires 0 < d && v == q * d + r && r < d
    ensures v / d == q && v % d == r
  {
    var q', r' := v / d, v % d;
    assert v == q' * d + r' by { assert v == d * (v / d) + v % d; }
    assert (q - q') * d == r' - r && (q' - q) * d == r - r';
    if q' < q {
      MulAtLeast(q - q', d);
    } else if q < q' {
      MulAtLeast(q' - q, d);
    }
  }

  /** Rounding down never goes up, whatever the alignment, and lands on a multiple if the
    * alignment is a power of two. */
  lemma AlignPow2Spec(v: nat, to: nat)
    requires 0 < to
    ensures AlignPow2(v, to) <= v
    ensures IsPow2(to) ==> AlignPow2(v, to) % to == 0 && v < AlignPow2(v, to) + to
  {
    AndNotAtMost(v, to - 1);
    if IsPow2(to) {
      var k :| Pow2(k) == to;
      var q, r := AndNotMask(v, k, to - 1);
      DivModUnique(q * to, to, q, 0);
    }
  }

  lemma Pow2Is64()
    ensures Pow2(64) == U64
  {
    assert Pow2(8) == 256;
    Pow2Add(8, 8);
    assert Pow2(16) == 0x1_0000;
    Pow2Add(16, 16);
    assert Pow2(32) == 0x1_0000_0000;
    Pow2Add(32, 32);
  }

  lemma Pow2Above64(k: nat)
    requires 64 < k
    ensures U64 < Pow2(k)
  {
    Pow2Is64();
    Pow2Monotone(65, k);
    assert Pow2(65) == 2 * Pow2(64);
  }

  lemma Pow2DividesU64(k: nat)
    requires k <= 64
    ensures U64 % Pow2(k) == 0
  {
    Pow2Is64();
    Pow2Add(64 - k, k);
    DivModUnique(U64, Pow2(k), Pow2(64 - k), 0);
  }

  lemma RoundedUp(v: nat, to: nat)
    requires 0 < to && v <= U64 && U64 % to == 0
    ensures AlignUpToAligned(v, to)
  {
    if v < U64 && v % to != 0 {
      var q, r, d := v / to, v % to, U64 / to;
      assert U64 == d * to && v == q * to + r;
      NegatedRemainder(q, r, d, to);
      DivModUnique(AlignUpTo(v, to), to, q + 2, 0);
    }
  }

  /** What is left of a negated number that is not a multiple. */
  lemma NegatedRemainder(q: nat, r: nat, d: nat, to: nat)
    requires 0 < r < to && q * to + r <= d * to
    ensures (d * to - (q * to + r)) % to == to - r
    ensures q * to + r + (to - r) + to == (q + 2) * to
  {
    if d <= q {
      MulMonotone(d, q, to);
    }
    assert (d - q - 1) * to == d * to - q * to - to;
    DivModUnique(d * to - (q * to + r), to, d - q - 1, to - r);
    assert (q + 2) * to == q * to + to + to;
  }

  lemma MulMonotone(a: nat, b: nat, c: nat)
    requires a <= b
    ensures a * c <= b * c
  {
    assert b * c == a * c + (b - a) * c;
    MulNat(b - a, c);
  }

  predicate AlignUpToAligned(v: nat, to: nat)
    requires 0 < to
  {
    v < U64 ==> AlignUpTo(v, to) % to == 0 && AlignUpTo(v, to) == if v % to == 0 then v else v - v % to + 2 * to
  }

  /** Rounding up never goes down and stays below two alignments; it lands on a multiple if the
    * alignment is a power of two: the one after the next, unless the number is a multiple. */
  lemma AlignUpToSpec(v: nat, to: nat)
    requires 0 < to && v < U64
    ensures v <= AlignUpTo(v, to) < v + 2 * to
    ensures IsPow2(to) && to <= U64 ==> AlignUpTo(v, to) % to == 0
    ensures IsPow2(to) && to <= U64 && v % to != 0 ==> AlignUpTo(v, to) == v - v % to + 2 * to
  {
    if IsPow2(to) && to <= U64 {
      var k :| Pow2(k) == to;
      if 64 < k {
        Pow2Above64(k);
      } else {
        Pow2DividesU64(k);
        RoundedUp(v, to);
      }
    }
  }
}

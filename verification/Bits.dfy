/** The bit arithmetic of the butterfly: &, ^ and >> on non-negative integers, bit by bit. */
module Bits {
  import opened Base

  function Pow2(k: nat): (p: nat)
    ensures p > 0
  {
    if k == 0 then 1 else 2 * Pow2(k - 1)
  }

  /** a ^ b */
  function Xor(a: nat, b: nat): nat
    decreases a + b
  {
    if a == 0 && b == 0 then 0 else (a % 2 + b % 2) % 2 + 2 * Xor(a / 2, b / 2)
  }

  /** a & b */
  function And(a: nat, b: nat): nat
    decreases a + b
  {
    if a == 0 && b == 0 then 0 else (a % 2) * (b % 2) + 2 * And(a / 2, b / 2)
  }

  /** a >> k */
  function Shift(a: nat, k: nat): nat
    decreases k
  {
    if k == 0 then a else Shift(a / 2, k - 1)
  }

  predicate IsPowerOfTwo(p: int) {
    p > 0 && And(p, p - 1) == 0
  }

  /** The rank at distance 2^k: bit k of r flipped. */
  function Partner(r: nat, k: nat): nat {
    Xor(r, Pow2(k))
  }

  lemma {:induction false} XorZero(a: nat)
    ensures Xor(a, 0) == a
  {
    if a > 0 {
      XorZero(a / 2);
    }
  }

  lemma {:induction false} AndSelf(a: nat)
    ensures And(a, a) == a
  {
    if a > 0 {
      AndSelf(a / 2);
    }
  }

  /** p is 2^k for some k. */
  ghost predicate Power(p: nat) {
    exists k: nat :: Pow2(k) == p
  }

  lemma {:induction false} PowerHalves(p: nat)
    requires p > 1
    ensures Power(p) <==> p % 2 == 0 && Power(p / 2)
  {
    if k: nat :| Pow2(k) == p {
      assert k > 0 && Pow2(k) == 2 * Pow2(k - 1);
    }
    if p % 2 == 0 && Power(p / 2) {
      var k: nat :| Pow2(k) == p / 2;
      assert Pow2(k + 1) == p;
    }
  }

  lemma {:induction false} AndPred(p: nat)
    requires p > 1
    ensures And(p, p - 1) == if p % 2 == 1 then 2 * (p / 2) else 2 * And(p / 2, p / 2 - 1)
  {
    if p % 2 == 1 {
      AndSelf(p / 2);
    } else {
      assert (p - 1) / 2 == p / 2 - 1;
    }
  }

  /** The test p & (p - 1) == 0 holds exactly for the powers of two. */
  lemma {:induction false} PowerOfTwoTest(p: nat)
    ensures IsPowerOfTwo(p) <==> Power(p)
  {
    if p == 1 {
      assert Pow2(0) == p && And(1, 0) == 0;
    } else if p > 1 {
      AndPred(p);
      PowerHalves(p);
      PowerOfTwoTest(p / 2);
    }
  }

  lemma {:induction false} ShiftStep(a: nat, k: nat)
    ensures Shift(a, k + 1) == Shift(a, k) / 2
  {
    if k > 0 {
      ShiftStep(a / 2, k - 1);
    }
  }

  /** A rank below 2^m has no bit at m or above. */
  lemma {:induction false} ShiftBelow(a: nat, m: nat)
    ensures a < Pow2(m) <==> Shift(a, m) == 0
  {
    if m > 0 {
      ShiftBelow(a / 2, m - 1);
    }
  }

  /** The step-count loop finds the exponent of the world size. */
  method CountSteps(ranks: nat) returns (steps: nat)
    requires IsPowerOfTwo(ranks)
    ensures Pow2(steps) == ranks
  {
    PowerOfTwoTest(ranks);
    ghost var m: nat :| Pow2(m) == ranks;
    steps := 0;
    var p := ranks;
    while p > 1
      invariant steps <= m && p == Pow2(m - steps)
      decreases p
    {
      p := p / 2;
      steps := steps + 1;
    }
  }

  // ----- the pairing of step k

  /** Flipping the same bit twice gives the rank back, and once never does. */
  lemma {:induction false} PartnerInvolution(r: nat, k: nat)
    ensures Partner(Partner(r, k), k) == r && Partner(r, k) != r
  {
    if k == 0 {
      XorZero(r / 2);
      assert Partner(r, 0) == (r % 2 + 1) % 2 + 2 * (r / 2);
      XorZero(Partner(r, 0) / 2);
    } else {
      PartnerInvolution(r / 2, k - 1);
      PartnerStep(r, k);
      PartnerStep(Partner(r, k), k);
    }
  }

  lemma {:induction false} PartnerStep(r: nat, k: nat)
    requires k > 0
    ensures Partner(r, k) == r % 2 + 2 * Partner(r / 2, k - 1)
    ensures Partner(r, k) / 2 == Partner(r / 2, k - 1) && Partner(r, k) % 2 == r % 2
  {
    assert Pow2(k) == 2 * Pow2(k - 1);
  }

  /** The partner is 2^k ranks up if bit k is clear, and 2^k ranks down if it is set. */
  lemma {:induction false} PartnerDistance(r: nat, k: nat)
    ensures Partner(r, k) == if r / Pow2(k) % 2 == 0 then r + Pow2(k) else r - Pow2(k)
  {
    if k == 0 {
      PartnerZero(r);
    } else {
      PartnerDistance(r / 2, k - 1);
      PartnerStep(r, k);
      HalfQuotient(r, Pow2(k - 1));
    }
  }

  lemma {:induction false} HalfQuotient(r: nat, p: nat)
    requires p > 0
    ensures r / 2 / p == r / (2 * p)
  {
    var h := r / 2;
    var q := h / p;
    assert h == p * q + h % p;
    assert (2 * p) * q == 2 * (p * q);
    DivModUnique(r, 2 * p, q, 2 * (h % p) + r % 2);
  }

  lemma {:induction false} PartnerZero(r: nat)
    ensures Partner(r, 0) == if r % 2 == 0 then r + 1 else r - 1
  {
    XorZero(r / 2);
  }

  /** In the bits from k up, the partner differs from r in the lowest one only. */
  lemma {:induction false} PartnerShift(r: nat, k: nat)
    ensures Shift(Partner(r, k), k) == Partner(Shift(r, k), 0)
  {
    if k > 0 {
      PartnerStep(r, k);
      PartnerShift(r / 2, k - 1);
    }
  }

  /** The ranks that agree with r above bit k are those that agree from bit k up with r or
      with its partner, and no rank does both. */
  lemma {:induction false} BlockHalves(v: nat, r: nat, k: nat)
    ensures Shift(v, k + 1) == Shift(r, k + 1) <==>
              Shift(v, k) == Shift(r, k) || Shift(v, k) == Shift(Partner(r, k), k)
    ensures Shift(r, k) != Shift(Partner(r, k), k)
    ensures Shift(Partner(r, k), k + 1) == Shift(r, k + 1)
  {
    ShiftStep(v, k);
    ShiftStep(r, k);
    ShiftStep(Partner(r, k), k);
    PartnerShift(r, k);
    PartnerZero(Shift(r, k));
  }

  lemma {:induction false} ShiftMore(a: nat, b: nat, k: nat, m: nat)
    requires k <= m && Shift(a, k) == Shift(b, k)
    ensures Shift(a, m) == Shift(b, m)
    decreases m
  {
    if k < m {
      ShiftMore(a, b, k, m - 1);
      ShiftStep(a, m - 1);
      ShiftStep(b, m - 1);
    }
  }

  /** Every partner of a rank below 2^m is below 2^m: the pairing of each step is a perfect
      matching of the ranks. */
  lemma {:induction false} PartnerInRange(r: nat, k: nat, m: nat)
    requires r < Pow2(m) && k < m
    ensures Partner(r, k) < Pow2(m)
  {
    BlockHalves(r, r, k);
    ShiftMore(Partner(r, k), r, k + 1, m);
    ShiftBelow(r, m);
    ShiftBelow(Partner(r, k), m);
  }

  lemma {:induction false} Pow2Monotone(a: nat, b: nat)
    requires a <= b
    ensures Pow2(a) <= Pow2(b)
    decreases b
  {
    if a < b {
      Pow2Monotone(a, b - 1);
    }
  }

  /** The pairing of every step k with 2^(k+1) <= p keeps the p ranks among themselves. */
  ghost predicate PairsWithin(p: nat) {
    forall r: nat, k: nat :: r < p && Pow2(k + 1) <= p ==> Partner(r, k) < p
  }

  lemma {:induction false} PairsWithinHalf(p: nat)
    requires p % 2 == 0 && PairsWithin(p)
    ensures PairsWithin(p / 2)
  {
    forall r: nat, k: nat | r < p / 2 && Pow2(k + 1) <= p / 2 ensures Partner(r, k) < p / 2 {
      assert Pow2(k + 2) == 2 * Pow2(k + 1);
      assert Partner(2 * r, k + 1) < p;
      PartnerStep(2 * r, k + 1);
    }
  }

  lemma {:induction false} PairsWithinPower(p: nat)
    requires p > 0 && PairsWithin(p)
    ensures Power(p)
  {
    if p == 1 {
      assert Pow2(0) == 1;
    } else {
      assert Pow2(1) == 2 * Pow2(0);
      assert Partner(p - 1, 0) < p;
      PartnerZero(p - 1);
      PairsWithinHalf(p);
      PairsWithinPower(p / 2);
      PowerHalves(p);
    }
  }

  /** The pairing works for exactly the powers of two. Rank 2 of three ranks, whose first
      partner would be rank 3, is the smallest failure. */
  lemma {:induction false} PairsWithinIffPower(p: nat)
    requires p > 0
    ensures PairsWithin(p) <==> Power(p)
    ensures Partner(2, 0) == 3 && !PairsWithin(3)
  {
    if PairsWithin(p) {
      PairsWithinPower(p);
    }
    if Power(p) {
      var m: nat :| Pow2(m) == p;
      forall r: nat, k: nat | r < p && Pow2(k + 1) <= p ensures Partner(r, k) < p {
        if m <= k {
          Pow2Monotone(m, k);
        }
        PartnerInRange(r, k, m);
      }
    }
    PartnerZero(2);
    assert Pow2(1) == 2 * Pow2(0);
  }
}

/** Python's bitwise operators on non-negative integers, defined one bit at a
    time, with the facts opio's register code relies on. */
module Bits {

  function Pow2(n: nat): (r: nat)
    ensures r >= 1
  {
    if n == 0 then 1 else 2 * Pow2(n - 1)
  }

  lemma {:induction false} Pow2Increasing(a: nat, b: nat)
    requires a < b
    ensures Pow2(a) < Pow2(b)
    decreases b
  {
    if a < b - 1 { Pow2Increasing(a, b - 1); }
  }

  /** Bit k of x, i.e. Python's `(x >> k) & 1 == 1`. */
  predicate Bit(x: nat, k: nat)
    decreases k
  {
    if k == 0 then x % 2 == 1 else Bit(x / 2, k - 1)
  }

  /** Python's `x & y`. */
  function And(x: nat, y: nat): nat
    decreases x
  {
    if x == 0 || y == 0 then 0
    else 2 * And(x / 2, y / 2) + (if x % 2 == 1 && y % 2 == 1 then 1 else 0)
  }

  /** Python's `x | y`. */
  function Or(x: nat, y: nat): nat
    decreases x + y
  {
    if x == 0 then y
    else if y == 0 then x
    else 2 * Or(x / 2, y / 2) + (if x % 2 == 1 || y % 2 == 1 then 1 else 0)
  }

  /** Python's `x & ~y`: the bits of x that are clear in y. */
  function AndNot(x: nat, y: nat): nat
    decreases x
  {
    if x == 0 then 0
    else if y == 0 then x
    else 2 * AndNot(x / 2, y / 2) + (if x % 2 == 1 && y % 2 == 0 then 1 else 0)
  }

  lemma {:induction false} BitOfZero(k: nat)
    ensures !Bit(0, k)
  {
    if k > 0 { BitOfZero(k - 1); }
  }

  lemma {:induction false} BitAnd(x: nat, y: nat, k: nat)
    ensures Bit(And(x, y), k) == (Bit(x, k) && Bit(y, k))
    decreases x
  {
    if x == 0 || y == 0 {
      BitOfZero(k);
    } else if k > 0 {
      BitAnd(x / 2, y / 2, k - 1);
    }
  }

  lemma {:induction false} BitOr(x: nat, y: nat, k: nat)
    ensures Bit(Or(x, y), k) == (Bit(x, k) || Bit(y, k))
    decreases x + y
  {
    if x == 0 {
      BitOfZero(k);
    } else if y == 0 {
      BitOfZero(k);
    } else if k > 0 {
      BitOr(x / 2, y / 2, k - 1);
    }
  }

  lemma {:induction false} BitAndNot(x: nat, y: nat, k: nat)
    ensures Bit(AndNot(x, y), k) == (Bit(x, k) && !Bit(y, k))
    decreases x
  {
    if x == 0 {
      BitOfZero(k);
    } else if y == 0 {
      BitOfZero(k);
    } else if k > 0 {
      BitAndNot(x / 2, y / 2, k - 1);
    }
  }

  /** `1 << n` has exactly bit n set. */
  lemma {:induction false} BitOfPow2(n: nat, k: nat)
    ensures Bit(Pow2(n), k) <==> k == n
  {
    if n == 0 {
      if k > 0 { BitOfZero(k - 1); }
    } else if k > 0 {
      BitOfPow2(n - 1, k - 1);
    }
  }

  /** Two numbers with the same bits are equal. */
  lemma {:induction false} BitsDetermine(a: nat, b: nat)
    requires forall k: nat :: Bit(a, k) == Bit(b, k)
    ensures a == b
    decreases a + b
  {
    if a != 0 || b != 0 {
      assert Bit(a, 0) == Bit(b, 0);
      forall k: nat ensures Bit(a / 2, k) == Bit(b / 2, k) {
        assert Bit(a, k + 1) == Bit(b, k + 1);
      }
      BitsDetermine(a / 2, b / 2);
    }
  }

  lemma {:induction false} OrBound(x: nat, y: nat, n: nat)
    requires x < Pow2(n) && y < Pow2(n)
    ensures Or(x, y) < Pow2(n)
    decreases n
  {
    if n > 0 && x != 0 && y != 0 {
      OrBound(x / 2, y / 2, n - 1);
    }
  }

  lemma {:induction false} AndNotBound(x: nat, y: nat)
    ensures AndNot(x, y) <= x
    decreases x
  {
    if x != 0 && y != 0 {
      AndNotBound(x / 2, y / 2);
    }
  }

  lemma {:induction false} AndBound(x: nat, y: nat)
    ensures And(x, y) <= y
    decreases x
  {
    if x != 0 && y != 0 {
      AndBound(x / 2, y / 2);
    }
  }

  /** Masking with y and masking with ~y split x into two parts that add back up to x. */
  lemma {:induction false} AndPlusAndNot(x: nat, y: nat)
    ensures And(x, y) + AndNot(x, y) == x
    decreases x
  {
    if x != 0 && y != 0 {
      AndPlusAndNot(x / 2, y / 2);
    }
  }

  /** What survives `& ~y` has nothing in common with y. */
  lemma {:induction false} AndOfAndNot(x: nat, y: nat)
    ensures And(AndNot(x, y), y) == 0
    decreases x
  {
    if x != 0 && y != 0 {
      AndOfAndNot(x / 2, y / 2);
    }
  }

  /** One step of the definition of And, for two non-zero operands. */
  lemma AndStep(x: nat, y: nat)
    requires x != 0 && y != 0
    ensures And(x, y) == 2 * And(x / 2, y / 2) + (if x % 2 == 1 && y % 2 == 1 then 1 else 0)
  {
  }

  /** The low n bits of x, i.e. Python's `x % (1 << n)`. */
  function LowBits(x: nat, n: nat): nat {
    if n == 0 then 0 else 2 * LowBits(x / 2, n - 1) + x % 2
  }

  /** Masking with 2^n - 1 keeps exactly the low n bits. */
  lemma {:induction false} AndLowMask(x: nat, n: nat)
    ensures And(x, Pow2(n) - 1) == LowBits(x, n)
  {
    if n > 0 {
      var p := Pow2(n - 1);
      assert Pow2(n) - 1 == 2 * (p - 1) + 1;
      if x != 0 {
        AndStep(x, 2 * (p - 1) + 1);
      }
      AndLowMask(x / 2, n - 1);
    }
  }

  lemma HalfOfEvenPlus(e: nat, r: nat)
    ensures (2 * e + r) / 2 == e + r / 2 && (2 * e + r) % 2 == r % 2
  {
  }

  /** The low n bits of 2^n * q + r are r. */
  lemma {:induction false} LowBitsOfSum(q: nat, r: nat, n: nat)
    requires r < Pow2(n)
    ensures LowBits(Pow2(n) * q + r, n) == r
  {
    if n > 0 {
      var e := Pow2(n - 1) * q;
      assert Pow2(n) * q == 2 * e;
      HalfOfEvenPlus(e, r);
      LowBitsOfSum(q, r / 2, n - 1);
    }
  }

  /** A word with one bit set, masked by that bit: the bit itself or zero. */
  lemma AndPow2(x: nat, n: nat)
    ensures And(x, Pow2(n)) == if Bit(x, n) then Pow2(n) else 0
  {
    forall k: nat ensures Bit(And(x, Pow2(n)), k) == Bit(if Bit(x, n) then Pow2(n) else 0, k) {
      BitAnd(x, Pow2(n), k);
      BitOfPow2(n, k);
      BitOfZero(k);
    }
    BitsDetermine(And(x, Pow2(n)), if Bit(x, n) then Pow2(n) else 0);
  }

  /** Two different single-bit masks have no bit in common. */
  lemma DistinctBits(p: nat, q: nat)
    requires p != q
    ensures And(Pow2(p), Pow2(q)) == 0
  {
    AndPow2(Pow2(p), q);
    BitOfPow2(p, q);
  }
}

/**
 Bitwise exclusive-or and conjunction on natural numbers, defined bit by bit.
 */
module Bits {

  function Pow2(k: nat): (p: nat)
    ensures p > 0
  {
    if k == 0 then 1 else 2 * Pow2(k - 1)
  }

  function Xor(a: nat, b: nat): nat
    decreases a + b
  {
    if a == 0 && b == 0 then 0 else 2 * Xor(a / 2, b / 2) + (if a % 2 == b % 2 then 0 else 1)
  }

  function And(a: nat, b: nat): nat {
    if a == 0 || b == 0 then 0 else 2 * And(a / 2, b / 2) + (if a % 2 == 1 && b % 2 == 1 then 1 else 0)
  }

  lemma {:induction false} XorZero(a: nat)
    ensures Xor(a, 0) == a && Xor(0, a) == a
  {
    if a != 0 {
      XorZero(a / 2);
    }
  }

  lemma {:induction false} XorSelf(a: nat)
    ensures Xor(a, a) == 0
  {
    if a != 0 {
      XorSelf(a / 2);
    }
  }

  lemma {:induction false} XorCommutes(a: nat, b: nat)
    ensures Xor(a, b) == Xor(b, a)
    decreases a + b
  {
    if a != 0 || b != 0 {
      XorCommutes(a / 2, b / 2);
    }
  }

  /** Low bit and remaining bits of an exclusive-or. */
  lemma {:induction false} XorParts(a: nat, b: nat)
    ensures Xor(a, b) % 2 == (if a % 2 == b % 2 then 0 else 1)
    ensures Xor(a, b) / 2 == Xor(a / 2, b / 2)
  {
  }

  lemma {:induction false} XorAssociates(a: nat, b: nat, c: nat)
    ensures Xor(Xor(a, b), c) == Xor(a, Xor(b, c))
    decreases a + b + c
  {
    if a != 0 || b != 0 || c != 0 {
      XorParts(a, b);
      XorParts(b, c);
      XorAssociates(a / 2, b / 2, c / 2);
    }
  }

  /** Exclusive-or with a fixed operand can be undone. */
  lemma {:induction false} XorCancels(a: nat, b: nat, c: nat)
    requires Xor(a, b) == Xor(a, c)
    ensures b == c
  {
    XorAssociates(a, a, b);
    XorAssociates(a, a, c);
    XorSelf(a);
    XorZero(b);
    XorZero(c);
  }

  lemma {:induction false} XorBound(a: nat, b: nat, k: nat)
    requires a < Pow2(k) && b < Pow2(k)
    ensures Xor(a, b) < Pow2(k)
  {
    if k != 0 {
      XorBound(a / 2, b / 2, k - 1);
    }
  }

  /** A bit set in one operand only stays set. */
  lemma {:induction false} XorTopBit(a: nat, b: nat, k: nat)
    requires a < Pow2(k) <= b < Pow2(k + 1)
    ensures Xor(a, b) >= Pow2(k)
  {
    if k == 0 {
      XorZero(b);
    } else {
      XorTopBit(a / 2, b / 2, k - 1);
    }
  }

  /** Numbers with no bit in common are added by exclusive-or. */
  lemma {:induction false} XorDisjoint(low: nat, k: nat, high: nat)
    requires low < Pow2(k)
    ensures Xor(low, Pow2(k) * high) == low + Pow2(k) * high
  {
    if k == 0 {
      XorZero(high);
    } else {
      Pow2Twice(k, high);
      XorDisjoint(low / 2, k - 1, high);
      XorEven(low, Pow2(k - 1) * high);
    }
  }

  lemma {:induction false} Pow2Twice(k: nat, n: nat)
    requires k > 0
    ensures Pow2(k) * n == 2 * (Pow2(k - 1) * n)
  {
  }

  lemma {:induction false} XorEven(low: nat, half: nat)
    ensures Xor(low, 2 * half) == 2 * Xor(low / 2, half) + low % 2
  {
  }

  /** Programming NOR Flash over the erased value stores the byte. */
  lemma {:induction false} AndOnes(b: nat, k: nat)
    requires b < Pow2(k)
    ensures And(Pow2(k) - 1, b) == b
  {
    if k != 0 && b != 0 {
      assert (Pow2(k) - 1) / 2 == Pow2(k - 1) - 1;
      AndOnes(b / 2, k - 1);
    }
  }

  lemma {:induction false} AndBound(a: nat, b: nat)
    ensures And(a, b) <= b
  {
    if a != 0 && b != 0 {
      AndBound(a / 2, b / 2);
    }
  }

  ghost predicate IsPowerOfTwo(n: nat) {
    exists k: nat :: n == Pow2(k)
  }

  /** The test `n & (n - 1) == 0` recognises exactly the powers of two. */
  lemma {:induction false} PowerOfTwoTest(n: nat)
    requires n > 0
    ensures And(n, n - 1) == 0 <==> IsPowerOfTwo(n)
  {
    if n == 1 {
      assert n == Pow2(0);
    } else if n % 2 == 0 {
      PowerOfTwoTest(n / 2);
      assert (n - 1) / 2 == n / 2 - 1;
      if IsPowerOfTwo(n / 2) {
        var k: nat :| n / 2 == Pow2(k);
        assert n == Pow2(k + 1);
      }
      if IsPowerOfTwo(n) {
        var k: nat :| n == Pow2(k);
        assert n / 2 == Pow2(k - 1);
      }
    } else {
      AndSelf(n / 2);
      assert (n - 1) / 2 == n / 2;
      if IsPowerOfTwo(n) {
        OddPowerOfTwo(n);
      }
    }
  }

  lemma {:induction false} OddPowerOfTwo(n: nat)
    requires n % 2 == 1 && IsPowerOfTwo(n)
    ensures n == 1
  {
    var k: nat :| n == Pow2(k);
    if k > 0 {
      assert false;
    }
  }

  lemma {:induction false} AndSelf(n: nat)
    ensures And(n, n) == n
  {
    if n != 0 {
      AndSelf(n / 2);
    }
  }
}

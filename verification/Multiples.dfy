/**
 Multiples of a unit, defined by subtraction so that proofs about grids stay linear.
 */
module Multiples {

  predicate Multiple(n: nat, unit: nat)
    requires unit > 0
  {
    n == 0 || (n >= unit && Multiple(n - unit, unit))
  }

  lemma {:induction false} MultipleIsMod(n: nat, unit: nat)
    requires unit > 0
    ensures Multiple(n, unit) <==> n % unit == 0
  {
    if n >= unit {
      MultipleIsMod(n - unit, unit);
      SameRemainder(n - unit, unit);
    } else if n > 0 {
      assert n == unit * 0 + n;
      DivisionIsUnique(n, unit, 0, n);
    }
  }

  lemma {:induction false} MultiplesAdd(a: nat, b: nat, unit: nat)
    requires unit > 0 && Multiple(a, unit) && Multiple(b, unit)
    ensures Multiple(a + b, unit)
  {
    if a > 0 {
      MultiplesAdd(a - unit, b, unit);
    }
  }

  lemma {:induction false} MultiplesTrans(a: nat, b: nat, c: nat)
    requires b > 0 && c > 0 && Multiple(a, b) && Multiple(b, c)
    ensures Multiple(a, c)
  {
    if a > 0 {
      MultiplesTrans(a - b, b, c);
      MultiplesAdd(a - b, b, c);
    }
  }

  /** Two different multiples are at least one unit apart. */
  lemma {:induction false} MultiplesApart(a: nat, b: nat, unit: nat)
    requires unit > 0 && Multiple(a, unit) && Multiple(b, unit) && a > b
    ensures a >= b + unit
  {
    if b > 0 {
      MultiplesApart(a - unit, b - unit, unit);
    }
  }

  lemma MultiplesBelow(a: nat, b: nat, unit: nat)
    requires unit > 0 && Multiple(a, unit) && Multiple(b, unit) && a < b + unit
    ensures a <= b
  {
    if a > b {
      MultiplesApart(a, b, unit);
    }
  }

  lemma SameRemainder(a: nat, c: nat)
    requires c > 0
    ensures (a + c) % c == a % c
  {
    assert a + c == c * (a / c + 1) + a % c by {
      assert a == c * (a / c) + a % c;
    }
    DivisionIsUnique(a + c, c, a / c + 1, a % c);
  }

  lemma ProductSign(c: nat, d: int)
    requires c > 0
    ensures d >= 1 ==> c * d >= c
    ensures d <= 0 ==> c * d <= 0
    ensures d <= -1 ==> c * d <= -(c as int)
  {
  }

  lemma DivisionIsUnique(a: nat, c: nat, q: nat, r: nat)
    requires c > 0 && a == c * q + r && r < c
    ensures a / c == q && a % c == r
  {
    var d: int := a / c - q;
    assert c * d == r - a % c by {
      assert a == c * (a / c) + a % c;
      assert c * d == c * (a / c) - c * q;
    }
    ProductSign(c, d);
  }

}

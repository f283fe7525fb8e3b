// Facts about division and powers of two that several parts use.

module Arithmetic {

  function Pow2(k: nat): (r: nat)
    ensures r >= 1
  {
    if k == 0 then 1 else 2 * Pow2(k - 1)
  }

  /** Division leaves one quotient and one remainder. */
  lemma Remainder(a: int, b: nat, q: int, r: nat)
    requires b > 0 && a == b * q + r && r < b
    ensures a % b == r && a / b == q
  {
    var q', r' := a / b, a % b;
    assert b * (q - q') == r' - r;
    if q > q' {
      Product(b, q - q');
    } else if q < q' {
      Negated(b, q, q');
      Product(b, q' - q);
    }
  }

  lemma Negated(b: int, x: int, y: int)
    ensures b * (y - x) == -(b * (x - y))
  {
  }

  lemma Product(b: nat, x: int)
    requires x >= 1
    ensures b * x >= b
  {
  }

  // ---- bits ----

  /** The C operator & on unsigned values. */
  function BitAnd(a: nat, b: nat): nat {
    if a == 0 || b == 0 then 0 else (a % 2) * (b % 2) + 2 * BitAnd(a / 2, b / 2)
  }

  /** The C operator | on unsigned values. */
  function BitOr(a: nat, b: nat): nat {
    if a == 0 && b == 0 then 0 else (if a % 2 == 1 || b % 2 == 1 then 1 else 0) + 2 * BitOr(a / 2, b / 2)
  }

  predicate Bit(x: nat, i: nat)
    decreases i
  {
    if i == 0 then x % 2 == 1 else Bit(x / 2, i - 1)
  }

  lemma {:induction false} NoBits(i: nat)
    ensures !Bit(0, i)
  {
    if i > 0 { NoBits(i - 1); }
  }

  lemma {:induction false} BitOfAnd(a: nat, b: nat, i: nat)
    ensures Bit(BitAnd(a, b), i) <==> Bit(a, i) && Bit(b, i)
    decreases i
  {
    if a == 0 || b == 0 {
      NoBits(i);
    } else {
      var d := (a % 2) * (b % 2);
      assert d == if a % 2 == 1 && b % 2 == 1 then 1 else 0;
      assert BitAnd(a, b) / 2 == BitAnd(a / 2, b / 2) && BitAnd(a, b) % 2 == d;
      if i > 0 { BitOfAnd(a / 2, b / 2, i - 1); }
    }
  }

  lemma {:induction false} BitOfOr(a: nat, b: nat, i: nat)
    ensures Bit(BitOr(a, b), i) <==> Bit(a, i) || Bit(b, i)
    decreases i
  {
    if a == 0 && b == 0 {
      NoBits(i);
    } else {
      assert BitOr(a, b) / 2 == BitOr(a / 2, b / 2);
      if i > 0 { BitOfOr(a / 2, b / 2, i - 1); }
    }
  }

  lemma {:induction false} AndBound(a: nat, b: nat, n: nat)
    requires a < Pow2(n)
    ensures BitAnd(a, b) < Pow2(n)
  {
    if a != 0 && b != 0 {
      AndBound(a / 2, b / 2, n - 1);
      assert (a % 2) * (b % 2) <= 1;
    }
  }

  lemma {:induction false} OrBound(a: nat, b: nat, n: nat)
    requires a < Pow2(n) && b < Pow2(n)
    ensures BitOr(a, b) < Pow2(n)
  {
    if a != 0 || b != 0 { OrBound(a / 2, b / 2, n - 1); }
  }

  /** The bits determine the number. */
  lemma {:induction false} SameBits(x: nat, y: nat, n: nat)
    requires x < Pow2(n) && y < Pow2(n) && forall i: nat :: i < n ==> Bit(x, i) == Bit(y, i)
    ensures x == y
  {
    if n > 0 {
      assert Bit(x, 0) == Bit(y, 0);
      forall i: nat | i < n - 1 ensures Bit(x / 2, i) == Bit(y / 2, i) {
        assert Bit(x, i + 1) == Bit(y, i + 1);
      }
      SameBits(x / 2, y / 2, n - 1);
    }
  }

  lemma {:induction false} Doubling(a: nat, b: nat)
    ensures Pow2(a + b) == Pow2(a) * Pow2(b)
  {
    if b > 0 { Doubling(a, b - 1); }
  }

  lemma Pow31()
    ensures Pow2(31) == 0x8000_0000 && Pow2(32) == 0x1_0000_0000
  {
    assert Pow2(8) == 256;
    assert Pow2(16) == 65536 by { Doubling(8, 8); }
    Doubling(16, 8);
    Doubling(24, 7);
    assert Pow2(7) == 128;
  }
}

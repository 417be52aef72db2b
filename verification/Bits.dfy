/** Powers of two and bitwise "or" on natural numbers. */
module Bits {
  import opened Prelude

  lemma {:induction false} Pow2Add(a: nat, b: nat)
    ensures Pow2(a + b) == Pow2(a) * Pow2(b)
  {
    if b > 0 {
      Pow2Add(a, b - 1);
      assert Pow2(a + b) == 2 * Pow2(a + (b - 1));
      MulAssoc(Pow2(a), Pow2(b - 1));
    }
  }

  lemma MulAssoc(x: nat, y: nat)
    ensures x * (2 * y) == 2 * (x * y)
  {
  }

  lemma Pow2Mono(a: nat, b: nat)
    requires a <= b
    ensures Pow2(a) <= Pow2(b)
  {
    Pow2Add(a, b - a);
    MulGe(Pow2(a), Pow2(b - a));
  }

  lemma MulGe(x: nat, y: nat)
    requires y >= 1
    ensures x <= x * y
  {
  }

  lemma Pow2Values()
    ensures Pow2(8) == 256 && Pow2(16) == 65536 && Pow2(23) == 0x80_0000 && Pow2(24) == 0x100_0000
    ensures Pow2(15) == 32768 && Pow2(32) == 0x1_0000_0000
  {
    assert Pow2(8) == 256;
    Pow2Add(8, 8);
    Pow2Add(8, 7);
    assert Pow2(7) == 128;
    Pow2Add(16, 7);
    Pow2Add(16, 8);
    Pow2Add(16, 16);
  }

  // ------------------------------------------------------------ division facts

  lemma DivUnique(x: nat, m: nat, q: nat, r: nat)
    requires x == q * m + r && r < m
    ensures x / m == q && x % m == r
  {
    var d, e := x / m, x % m;
    assert x == d * m + e by { DivMod(x, m); }
    if d < q {
      MulStep(d, q, m);
    } else if q < d {
      MulStep(q, d, m);
    }
  }

  lemma DivMod(x: nat, m: nat)
    requires m > 0
    ensures x == x / m * m + x % m
  {
  }

  lemma MulStep(a: nat, b: nat, m: nat)
    requires a < b
    ensures a * m + m <= b * m
  {
    assert b * m == a * m + (b - a) * m;
    MulGe(m, b - a);
  }

  // ------------------------------------------------------------ bitwise or

  function Or(x: nat, y: nat): nat {
    if x == 0 then y else if y == 0 then x
    else 2 * Or(x / 2, y / 2) + (if x % 2 == 1 || y % 2 == 1 then 1 else 0)
  }

  /** Numbers without a common bit are joined by adding. */
  lemma {:induction false} OrDisjoint(x: nat, y: nat, t: nat)
    requires x % Pow2(t) == 0 && y < Pow2(t)
    ensures Or(x, y) == x + y && Or(y, x) == x + y
    decreases t
  {
    if x != 0 && y != 0 {
      assert t > 0;
      HalfMultiple(x, t);
      OrDisjoint(x / 2, y / 2, t - 1);
    }
  }

  lemma HalfMultiple(x: nat, t: nat)
    requires t > 0 && x % Pow2(t) == 0
    ensures x % 2 == 0 && x / 2 % Pow2(t - 1) == 0
  {
    var q := x / Pow2(t);
    DivMod(x, Pow2(t));
    assert x == 2 * (q * Pow2(t - 1)) by { MulAssoc(q, Pow2(t - 1)); }
    DivUnique(q * Pow2(t - 1), Pow2(t - 1), q, 0);
  }
}

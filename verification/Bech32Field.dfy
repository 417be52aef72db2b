/**
 The fields behind the checksum of Bech32: GF(32), whose elements are the groups of five
 bits, and GF(1024) above it, with a primitive element of which all others are powers.
*/
module Bech32Field {
  import opened Rings

  // ------------------------------------------------------------ groups of five bits

  /** An element of GF(32), as a polynomial in x over the two bits. */
  datatype Five = Five(b0: bool, b1: bool, b2: bool, b3: bool, b4: bool)

  const NONE: Five := Five(false, false, false, false, false)
  const UNIT: Five := Five(true, false, false, false, false)
  const NINE: Five := Five(true, false, false, true, false)
  const TWENTY_THREE: Five := Five(true, true, true, false, true)

  // The others, by their numbers.
  const F2: Five := Five(false, true, false, false, false)
  const F3: Five := Five(true, true, false, false, false)
  const F4: Five := Five(false, false, true, false, false)
  const F5: Five := Five(true, false, true, false, false)
  const F6: Five := Five(false, true, true, false, false)
  const F7: Five := Five(true, true, true, false, false)
  const F8: Five := Five(false, false, false, true, false)
  const F10: Five := Five(false, true, false, true, false)
  const F11: Five := Five(true, true, false, true, false)
  const F12: Five := Five(false, false, true, true, false)
  const F13: Five := Five(true, false, true, true, false)
  const F14: Five := Five(false, true, true, true, false)
  const F15: Five := Five(true, true, true, true, false)
  const F16: Five := Five(false, false, false, false, true)
  const F17: Five := Five(true, false, false, false, true)
  const F18: Five := Five(false, true, false, false, true)
  const F19: Five := Five(true, true, false, false, true)
  const F20: Five := Five(false, false, true, false, true)
  const F21: Five := Five(true, false, true, false, true)
  const F22: Five := Five(false, true, true, false, true)
  const F24: Five := Five(false, false, false, true, true)
  const F25: Five := Five(true, false, false, true, true)
  const F26: Five := Five(false, true, false, true, true)
  const F27: Five := Five(true, true, false, true, true)
  const F28: Five := Five(false, false, true, true, true)
  const F29: Five := Five(true, false, true, true, true)
  const F30: Five := Five(false, true, true, true, true)
  const F31: Five := Five(true, true, true, true, true)

  function Plus(a: Five, b: Five): Five {
    Five(a.b0 != b.b0, a.b1 != b.b1, a.b2 != b.b2, a.b3 != b.b3, a.b4 != b.b4)
  }

  /** A bit times an element. */
  function Sel(b: bool, a: Five): Five { if b then a else NONE }

  /** Times x, modulo x^5 + x^3 + 1. */
  function Shift(a: Five): Five { Five(a.b4, a.b0, a.b1, a.b2 != a.b4, a.b3) }

  function Times(a: Five, k: Five): Five {
    Plus(Sel(k.b0, a), Shift(Plus(Sel(k.b1, a), Shift(Plus(Sel(k.b2, a), Shift(Plus(Sel(k.b3, a),
      Shift(Sel(k.b4, a)))))))))
  }

  lemma PlusLaws(a: Five, b: Five, c: Five)
    ensures Plus(Plus(a, b), c) == Plus(a, Plus(b, c))
    ensures Plus(a, b) == Plus(b, a)
  {
  }

  lemma PlusNone(a: Five, b: Five)
    ensures Plus(a, NONE) == a && Plus(NONE, a) == a && Plus(a, a) == NONE
    ensures Plus(a, b) == NONE <==> a == b
  {
  }

  lemma PlusSwap(a: Five, b: Five, c: Five, d: Five)
    ensures Plus(Plus(a, b), Plus(c, d)) == Plus(Plus(a, c), Plus(b, d))
  {
  }

  lemma SelPlus(b: bool, x: Five, y: Five)
    ensures Sel(b, Plus(x, y)) == Plus(Sel(b, x), Sel(b, y))
  {
  }

  lemma SelShift(b: bool, a: Five)
    ensures Shift(Sel(b, a)) == Sel(b, Shift(a))
  {
  }

  lemma ShiftPlus(x: Five, y: Five)
    ensures Shift(Plus(x, y)) == Plus(Shift(x), Shift(y))
  {
  }

  /** One step of the product: p and q stand for the steps after it. */
  lemma StepPlus(k: bool, a: Five, b: Five, p: Five, q: Five)
    ensures Plus(Sel(k, Plus(a, b)), Shift(Plus(p, q)))
         == Plus(Plus(Sel(k, a), Shift(p)), Plus(Sel(k, b), Shift(q)))
  {
    hide Plus, Sel, Shift;
    SelPlus(k, a, b);
    ShiftPlus(p, q);
    PlusSwap(Sel(k, a), Sel(k, b), Shift(p), Shift(q));
  }

  lemma StepShift(k: bool, a: Five, p: Five)
    ensures Shift(Plus(Sel(k, a), Shift(p))) == Plus(Sel(k, Shift(a)), Shift(Shift(p)))
  {
    hide Plus, Sel, Shift;
    SelShift(k, a);
    ShiftPlus(Sel(k, a), Shift(p));
  }

  /** The steps of a product, the last one first. */
  function Part3(a: Five, k: Five): Five { Plus(Sel(k.b3, a), Shift(Sel(k.b4, a))) }

  function Part2(a: Five, k: Five): Five { Plus(Sel(k.b2, a), Shift(Part3(a, k))) }

  function Part1(a: Five, k: Five): Five { Plus(Sel(k.b1, a), Shift(Part2(a, k))) }

  lemma TimesParts(a: Five, k: Five)
    ensures Times(a, k) == Plus(Sel(k.b0, a), Shift(Part1(a, k)))
  {
    hide Plus, Sel, Shift;
  }

  lemma TimesPlus(a: Five, b: Five, k: Five)
    ensures Times(Plus(a, b), k) == Plus(Times(a, k), Times(b, k))
  {
    hide Plus, Sel, Shift, Times;
    TimesParts(a, k);
    TimesParts(b, k);
    TimesParts(Plus(a, b), k);
    SelPlus(k.b4, a, b);
    StepPlus(k.b3, a, b, Sel(k.b4, a), Sel(k.b4, b));
    StepPlus(k.b2, a, b, Part3(a, k), Part3(b, k));
    StepPlus(k.b1, a, b, Part2(a, k), Part2(b, k));
    StepPlus(k.b0, a, b, Part1(a, k), Part1(b, k));
  }

  lemma TimesShift(a: Five, k: Five)
    ensures Times(Shift(a), k) == Shift(Times(a, k))
  {
    hide Plus, Sel, Shift, Times;
    TimesParts(a, k);
    TimesParts(Shift(a), k);
    SelShift(k.b4, a);
    StepShift(k.b3, a, Sel(k.b4, a));
    StepShift(k.b2, a, Part3(a, k));
    StepShift(k.b1, a, Part2(a, k));
    StepShift(k.b0, a, Part1(a, k));
  }

  lemma TimesSel(b: bool, a: Five, k: Five)
    ensures Times(Sel(b, a), k) == Sel(b, Times(a, k))
  {
    hide Plus, Shift;
    PlusNone(NONE, NONE);
    ShiftNone();
  }

  lemma ShiftNone()
    ensures Shift(NONE) == NONE
  {
  }

  lemma StepTimes(b: bool, a: Five, p: Five, k: Five)
    ensures Times(Plus(Sel(b, a), Shift(p)), k) == Plus(Sel(b, Times(a, k)), Shift(Times(p, k)))
  {
    hide Plus, Sel, Shift, Times;
    TimesPlus(Sel(b, a), Shift(p), k);
    TimesSel(b, a, k);
    TimesShift(p, k);
  }

  /** Two factors may change places. */
  lemma TimesSwap(c: Five, a: Five, b: Five)
    ensures Times(Times(c, a), b) == Times(Times(c, b), a)
  {
    hide Plus, Sel, Shift, Times;
    TimesParts(c, a);
    TimesParts(Times(c, b), a);
    TimesSel(a.b4, c, b);
    StepTimes(a.b3, c, Sel(a.b4, c), b);
    StepTimes(a.b2, c, Part3(c, a), b);
    StepTimes(a.b1, c, Part2(c, a), b);
    StepTimes(a.b0, c, Part1(c, a), b);
  }

  lemma TimesUnit(a: Five)
    ensures Times(UNIT, a) == a && Times(a, UNIT) == a && Times(a, NONE) == NONE && Times(NONE, a) == NONE
  {
    UnitTimes(a);
    ByUnit(a);
  }

  lemma UnitTimes(a: Five)
    ensures Times(UNIT, a) == a
  {
  }

  lemma ByUnit(a: Five)
    ensures Times(a, UNIT) == a && Times(a, NONE) == NONE && Times(NONE, a) == NONE
  {
    hide Plus, Shift;
    PlusNone(NONE, NONE);
    PlusNone(a, NONE);
    ShiftNone();
  }

  lemma TimesLaws(a: Five, b: Five, c: Five)
    ensures Times(a, b) == Times(b, a)
    ensures Times(Times(a, b), c) == Times(a, Times(b, c))
  {
    hide Plus, Sel, Shift, Times;
    TimesUnit(a);
    TimesUnit(b);
    TimesSwap(UNIT, a, b);
    TimesSwap(b, a, c);
    TimesUnit(Times(b, c));
    TimesSwap(UNIT, a, Times(b, c));
  }

  /** The polynomial of the upper field has no root in the lower one. */
  lemma NoRoot(t: Five)
    ensures Plus(Times(t, Plus(NINE, t)), TWENTY_THREE) != NONE
  {
  }

  /** The powers of x. */
  function Power(n: nat): Five { if n == 0 then UNIT else Shift(Power(n - 1)) }

  /** The thirty-one powers of x are all elements but zero, and come back to one. */
  lemma Powers(a: Five)
    requires a != NONE
    ensures exists n: nat :: n < 31 && Power(n) == a
    ensures Power(31) == UNIT && Power(21) == TWENTY_THREE
  {
    assert Power(0) == UNIT;
    assert Power(1) == F2;
    assert Power(2) == F4;
    assert Power(3) == F8;
    assert Power(4) == F16;
    assert Power(5) == NINE;
    assert Power(6) == F18;
    assert Power(7) == F13;
    assert Power(8) == F26;
    assert Power(9) == F29;
    assert Power(10) == F19;
    assert Power(11) == F15;
    assert Power(12) == F30;
    assert Power(13) == F21;
    assert Power(14) == F3;
    assert Power(15) == F6;
    assert Power(16) == F12;
    assert Power(17) == F24;
    assert Power(18) == F25;
    assert Power(19) == F27;
    assert Power(20) == F31;
    assert Power(21) == TWENTY_THREE;
    assert Power(22) == F7;
    assert Power(23) == F14;
    assert Power(24) == F28;
    assert Power(25) == F17;
    assert Power(26) == F11;
    assert Power(27) == F22;
    assert Power(28) == F5;
    assert Power(29) == F10;
    assert Power(30) == F20;
  }

  /** Powers repeat after thirty-one, and not before. */
  lemma PowerOnce(n: nat)
    requires 0 < n < 31
    ensures Power(n) != UNIT
  {
    Powers(UNIT);
    if n <= 10 {
      assert n == 1 || n == 2 || n == 3 || n == 4 || n == 5 || n == 6 || n == 7 || n == 8 || n == 9 || n == 10;
    } else if n <= 20 {
      assert n == 11 || n == 12 || n == 13 || n == 14 || n == 15 || n == 16 || n == 17 || n == 18 || n == 19 || n == 20;
    } else {
      assert n == 21 || n == 22 || n == 23 || n == 24 || n == 25 || n == 26 || n == 27 || n == 28 || n == 29 || n == 30;
    }
  }

  lemma {:induction false} PowerTimes(m: nat, n: nat)
    ensures Times(Power(m), Power(n)) == Power(m + n)
  {
    hide Times, Shift;
    if m == 0 {
      TimesUnit(Power(n));
    } else {
      PowerTimes(m - 1, n);
      TimesShift(Power(m - 1), Power(n));
    }
  }

  lemma Inverse(a: Five) returns (k: Five)
    requires a != NONE
    ensures Times(a, k) == UNIT
  {
    hide Times, Shift, Power;
    Powers(a);
    var n: nat :| n < 31 && Power(n) == a;
    k := Power(31 - n);
    PowerTimes(n, 31 - n);
  }

  const GF32: Ring<Five> := Ring(Plus, Times, NONE, UNIT)

  lemma FiveLaws(a: Five, b: Five, c: Five)
    ensures Laws(GF32, a, b, c)
  {
    hide Plus, Times;
    PlusLaws(a, b, c);
    PlusNone(a, b);
    TimesLaws(a, b, c);
    TimesUnit(a);
    TimesPlus(a, b, c);
  }

  /** The groups of five bits are a field. */
  lemma GF32IsField()
    ensures IsField(GF32)
  {
    hide Plus, Times;
    forall a: Five, b: Five, c: Five ensures Laws(GF32, a, b, c) { FiveLaws(a, b, c); }
    forall a: Five | a != NONE ensures HasInverse(GF32, a) {
      var k := Inverse(a);
      assert GF32.mul(a, k) == UNIT;
    }
  }

  /** x^2 + 9x + 23 has no root among them. */
  lemma GF32Irreducible()
    ensures Irreducible(GF32, NINE, TWENTY_THREE)
  {
    hide Plus, Times;
    forall t: Five ensures GF32.add(GF32.mul(t, GF32.add(NINE, t)), TWENTY_THREE) != NONE { NoRoot(t); }
  }

  lemma {:induction false} TwentyThreePow(k: nat)
    ensures Pow(GF32, TWENTY_THREE, k) == Power(21 * k)
  {
    hide Plus, Times, Shift;
    if k > 0 {
      TwentyThreePow(k - 1);
      Powers(UNIT);
      PowerTimes(21 * (k - 1), 21);
    }
  }

  lemma {:induction false} PowerPeriod(n: nat, q: nat)
    ensures Power(n + 31 * q) == Power(n)
  {
    hide Times, Shift;
    if q > 0 {
      PowerPeriod(n, q - 1);
      PowerTimes(n + 31 * (q - 1), 31);
      Powers(UNIT);
      TimesUnit(Power(n));
    }
  }

  lemma TwentyThreeOrder()
    ensures Order31(GF32, TWENTY_THREE)
  {
    hide Pow, Power;
    forall k: nat ensures k == 31 ==> Pow(GF32, TWENTY_THREE, k) == UNIT
                  ensures 0 < k < 31 ==> Pow(GF32, TWENTY_THREE, k) != UNIT
    {
      TwentyThreePow(k);
      PowerPeriod(21 * k % 31, 21 * k / 31);
      if k == 31 { PowerNone(); }
      if 21 * k % 31 == 0 { Every31(k); } else { PowerOnce(21 * k % 31); }
    }
  }

  lemma PowerNone()
    ensures Power(0) == UNIT
  {
  }

  lemma Every31(k: nat)
    requires 21 * k % 31 == 0
    ensures k % 31 == 0
  {
    assert k == 31 * (3 * (21 * k / 31) - 2 * k);
  }

  // ------------------------------------------------------------ the field above it

  type Field = Pair<Five>

  /** Pairs, with an element e of which the square is 9e + 23. */
  const GF1024: Ring<Field> := Extension(GF32, NINE, TWENTY_THREE)

  lemma GF1024IsField()
    ensures IsField(GF1024)
  {
    hide IsField, Irreducible, Extension;
    GF32IsField();
    GF32Irreducible();
    PairsAreField(GF32, NINE, TWENTY_THREE);
  }

  function Mul(a: Field, b: Field): Field { MulPairs(GF32, NINE, TWENTY_THREE, a, b) }

  // Some powers of e.
  const E1: Field := Pair(UNIT, NONE)
  const E2: Field := Pair(NINE, TWENTY_THREE)
  const E3: Field := Pair(F4, F11)
  const E4: Field := Pair(F6, F14)
  const E7: Field := Pair(F5, F20)
  const E8: Field := Pair(F16, F25)
  const E11: Field := Pair(F4, F3)
  const E22: Field := Pair(F29, F20)
  const E33: Field := Pair(NONE, TWENTY_THREE)

  lemma Product1And1()
    ensures Mul(E1, E1) == E2
  {
  }

  lemma Product2And1()
    ensures Mul(E2, E1) == E3
  {
  }

  lemma Product2And2()
    ensures Mul(E2, E2) == E4
  {
  }

  lemma Product4And3()
    ensures Mul(E4, E3) == E7
  {
  }

  lemma Product4And4()
    ensures Mul(E4, E4) == E8
  {
  }

  lemma Product8And3()
    ensures Mul(E8, E3) == E11
  {
  }

  lemma Product11And11()
    ensures Mul(E11, E11) == E22
  {
  }

  lemma Product22And11()
    ensures Mul(E22, E11) == E33
  {
  }

  /** A chain of products leads to the powers 7, 11 and 33. */
  lemma Chain<T(!new)>(S: Ring<T>, e1: T, e2: T, e3: T, e4: T, e7: T, e8: T, e11: T, e22: T, e33: T)
    requires IsRing(S) && S.mul(e1, e1) == e2 && S.mul(e2, e1) == e3 && S.mul(e2, e2) == e4 && S.mul(e4, e3) == e7
    requires S.mul(e4, e4) == e8 && S.mul(e8, e3) == e11 && S.mul(e11, e11) == e22 && S.mul(e22, e11) == e33
    ensures forall n: nat ::
              && (n == 3 ==> Pow(S, e1, n) == e3) && (n == 7 ==> Pow(S, e1, n) == e7)
              && (n == 11 ==> Pow(S, e1, n) == e11) && (n == 33 ==> Pow(S, e1, n) == e33)
  {
    hide IsRing;
    MulOne(S, e1);
    assert Pow(S, e1, 1) == e1;
    hide Pow;
    PowAdd(S, e1, 1, 1);
    PowAdd(S, e1, 2, 1);
    PowAdd(S, e1, 2, 2);
    PowAdd(S, e1, 4, 3);
    PowAdd(S, e1, 4, 4);
    PowAdd(S, e1, 8, 3);
    PowAdd(S, e1, 11, 11);
    PowAdd(S, e1, 22, 11);
  }

  /** The powers 3, 7, 11 and 33 of e. */
  ghost predicate SomePowers() {
    forall n: nat ::
      && (n == 3 ==> Pow(GF1024, E1, n) == E3) && (n == 7 ==> Pow(GF1024, E1, n) == E7)
      && (n == 11 ==> Pow(GF1024, E1, n) == E11) && (n == 33 ==> Pow(GF1024, E1, n) == E33)
  }

  lemma PowersHold()
    ensures SomePowers()
  {
    hide IsRing, IsField, Pow, MulPairs;
    GF1024IsField();
    FieldIsRing(GF1024);
    Product1And1(); Product2And1(); Product2And2(); Product4And3();
    Product4And4(); Product8And3(); Product11And11(); Product22And11();
    Chain(GF1024, E1, E2, E3, E4, E7, E8, E11, E22, E33);
  }

  /** The element e is primitive: its powers are different until the 1023rd, which is one. */
  lemma Primitive(n: nat)
    requires Pow(GF1024, E1, n) == GF1024.one
    ensures n % 1023 == 0
  {
    hide IsRing, IsField, Irreducible, Pow, MulPairs, Order31;
    GF32IsField();
    GF32Irreducible();
    PowersHold();
    TwentyThreeOrder();
    Order1023(GF32, NINE, TWENTY_THREE, E1, TWENTY_THREE, n);
  }
}

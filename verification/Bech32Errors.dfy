/**
 The checksum polynomial of Bech32 has three consecutive powers of the primitive element
 of GF(1024) as roots; so the checksum detects any three errors.
*/
module Bech32Errors {
  import opened Bech32Code
  import opened Bech32Field
  import opened Rings

  // ------------------------------------------------------------ six groups

  datatype Six = Six(g5: Five, g4: Five, g3: Five, g2: Five, g1: Five, g0: Five)

  function Bits(c: bv32): Five { Five(c & 1 != 0, c & 2 != 0, c & 4 != 0, c & 8 != 0, c & 16 != 0) }

  function Split(c: bv32): Six {
    Six(Bits(c >> 25), Bits(c >> 20), Bits(c >> 15), Bits(c >> 10), Bits(c >> 5), Bits(c))
  }

  function PlusSix(s: Six, t: Six): Six {
    Six(Plus(s.g5, t.g5), Plus(s.g4, t.g4), Plus(s.g3, t.g3), Plus(s.g2, t.g2), Plus(s.g1, t.g1), Plus(s.g0, t.g0))
  }

  function TimesSix(s: Six, k: Five): Six {
    Six(Times(s.g5, k), Times(s.g4, k), Times(s.g3, k), Times(s.g2, k), Times(s.g1, k), Times(s.g0, k))
  }

  /** x^5, and what x^6 is modulo the generator. */
  const FIFTH: Six := Six(UNIT, NONE, NONE, NONE, NONE, NONE)
  const REDUCED: Six := Six(F29, F22, F20, F21, F29, F18)

  /** The groups after a step: shifted by one, with the new one, and reduced. */
  function Shifted(s: Six, v: Five): Six { Six(s.g4, s.g3, s.g2, s.g1, s.g0, v) }

  function Stepped(s: Six, v: Five): Six { PlusSix(Shifted(s, v), TimesSix(REDUCED, s.g5)) }

  lemma TopAndRest(s: Six)
    ensures s == PlusSix(TimesSix(FIFTH, s.g5), Six(NONE, s.g4, s.g3, s.g2, s.g1, s.g0))
  {
    hide Plus, Times;
    TimesUnit(s.g5);
    PlusNone(s.g5, NONE); PlusNone(s.g4, NONE); PlusNone(s.g3, NONE);
    PlusNone(s.g2, NONE); PlusNone(s.g1, NONE); PlusNone(s.g0, NONE);
  }

  // ------------------------------------------------------------ groups of the packed residue

  lemma BitsXor(a: bv32, b: bv32)
    ensures Bits(Xor(a, b)) == Plus(Bits(a), Bits(b))
  {
  }

  lemma BitsXor5(a: bv32, b: bv32)
    ensures Bits(Xor(a, b) >> 5) == Plus(Bits(a >> 5), Bits(b >> 5))
  {
  }

  lemma BitsXor10(a: bv32, b: bv32)
    ensures Bits(Xor(a, b) >> 10) == Plus(Bits(a >> 10), Bits(b >> 10))
  {
  }

  lemma BitsXor15(a: bv32, b: bv32)
    ensures Bits(Xor(a, b) >> 15) == Plus(Bits(a >> 15), Bits(b >> 15))
  {
  }

  lemma BitsXor20(a: bv32, b: bv32)
    ensures Bits(Xor(a, b) >> 20) == Plus(Bits(a >> 20), Bits(b >> 20))
  {
  }

  lemma BitsXor25(a: bv32, b: bv32)
    ensures Bits(Xor(a, b) >> 25) == Plus(Bits(a >> 25), Bits(b >> 25))
  {
  }

  lemma SplitXor(a: bv32, b: bv32)
    ensures Split(Xor(a, b)) == PlusSix(Split(a), Split(b))
  {
    hide Xor, Bits, Plus;
    BitsXor(a, b);
    BitsXor5(a, b);
    BitsXor10(a, b);
    BitsXor15(a, b);
    BitsXor20(a, b);
    BitsXor25(a, b);
  }

  lemma SplitRest(c: bv32)
    ensures Split(Rest(c)) == Shifted(Split(c), NONE)
  {
  }

  lemma SplitSmall(v: bv32)
    requires v < 32
    ensures Split(v) == Six(NONE, NONE, NONE, NONE, NONE, Bits(v))
  {
  }

  lemma TopBits(c: bv32)
    ensures Bits(c >> 25) == Five(Leads(c, 0), Leads(c, 1), Leads(c, 2), Leads(c, 3), Leads(c, 4))
  {
    LeadingBits(c);
  }

  lemma SplitTerm(b: bool, k: bv32)
    ensures Split(Term(b, k)) == if b then Split(k) else Six(NONE, NONE, NONE, NONE, NONE, NONE)
  {
    SplitSmall(0);
  }

  function ShiftSix(s: Six): Six {
    Six(Shift(s.g5), Shift(s.g4), Shift(s.g3), Shift(s.g2), Shift(s.g1), Shift(s.g0))
  }

  /** The five constants are the multiples of the reduced x^6 by the powers of x. */
  lemma Constants()
    ensures Split(0x3b6a57b2) == REDUCED
    ensures Split(0x26508e6d) == ShiftSix(REDUCED)
    ensures Split(0x1ea119fa) == ShiftSix(ShiftSix(REDUCED))
    ensures Split(0x3d4233dd) == ShiftSix(ShiftSix(ShiftSix(REDUCED)))
    ensures Split(0x2a1462b3) == ShiftSix(ShiftSix(ShiftSix(ShiftSix(REDUCED))))
  {
  }

  /** One group of the feedback: the multiples selected by the bits add up to the product. */
  lemma Selected(a: Five, k: Five)
    ensures Times(a, k)
         == Plus(Plus(Plus(Plus(Sel(k.b0, a), Sel(k.b1, Shift(a))), Sel(k.b2, Shift(Shift(a)))),
                      Sel(k.b3, Shift(Shift(Shift(a))))), Sel(k.b4, Shift(Shift(Shift(Shift(a))))))
  {
    hide Plus, Sel, Shift;
    var a1 := Shift(a);
    var a2 := Shift(a1);
    var a3 := Shift(a2);
    SelShift(k.b4, a); SelShift(k.b4, a1); SelShift(k.b4, a2); SelShift(k.b4, a3);
    SelShift(k.b3, a); SelShift(k.b3, a1); SelShift(k.b3, a2);
    SelShift(k.b2, a); SelShift(k.b2, a1);
    SelShift(k.b1, a);
    ShiftPlus(Sel(k.b3, a), Sel(k.b4, a1));
    ShiftPlus(Sel(k.b2, a), Plus(Sel(k.b3, a1), Sel(k.b4, a2)));
    ShiftPlus(Sel(k.b3, a1), Sel(k.b4, a2));
    ShiftPlus(Sel(k.b1, a), Plus(Sel(k.b2, a1), Plus(Sel(k.b3, a2), Sel(k.b4, a3))));
    ShiftPlus(Sel(k.b2, a1), Plus(Sel(k.b3, a2), Sel(k.b4, a3)));
    ShiftPlus(Sel(k.b3, a2), Sel(k.b4, a3));
    Gathered(Sel(k.b0, a), Sel(k.b1, a1), Sel(k.b2, a2), Sel(k.b3, a3), Sel(k.b4, Shift(a3)));
  }

  lemma Gathered(a: Five, b: Five, c: Five, d: Five, e: Five)
    ensures Plus(a, Plus(b, Plus(c, Plus(d, e)))) == Plus(Plus(Plus(Plus(a, b), c), d), e)
  {
    hide Plus;
    PlusLaws(a, b, Plus(c, Plus(d, e)));
    PlusLaws(Plus(a, b), c, Plus(d, e));
    PlusLaws(Plus(Plus(a, b), c), d, e);
  }

  function SelSix(b: bool, s: Six): Six {
    Six(Sel(b, s.g5), Sel(b, s.g4), Sel(b, s.g3), Sel(b, s.g2), Sel(b, s.g1), Sel(b, s.g0))
  }

  lemma SelectedSix(s: Six, k: Five)
    ensures TimesSix(s, k)
         == PlusSix(PlusSix(PlusSix(PlusSix(SelSix(k.b0, s), SelSix(k.b1, ShiftSix(s))),
                                    SelSix(k.b2, ShiftSix(ShiftSix(s)))),
                            SelSix(k.b3, ShiftSix(ShiftSix(ShiftSix(s))))),
                    SelSix(k.b4, ShiftSix(ShiftSix(ShiftSix(ShiftSix(s))))))
  {
    hide Plus, Sel, Shift, Times;
    Selected(s.g5, k);
    Selected(s.g4, k);
    Selected(s.g3, k);
    Selected(s.g2, k);
    Selected(s.g1, k);
    Selected(s.g0, k);
  }

  lemma SplitFeedback(c: bv32)
    ensures Split(Feedback(c)) == TimesSix(REDUCED, Bits(c >> 25))
  {
    hide Xor, Term, Bits, Leads, PlusSix, ShiftSix, TimesSix, Split, SelSix;
    TopBits(c);
    var k := Bits(c >> 25);
    Constants();
    SelectedSix(REDUCED, k);
    TermSix(k.b0, 0x3b6a57b2);
    TermSix(k.b1, 0x26508e6d);
    TermSix(k.b2, 0x1ea119fa);
    TermSix(k.b3, 0x3d4233dd);
    TermSix(k.b4, 0x2a1462b3);
    var a0, a1, a2, a3, a4 := Term(k.b0, 0x3b6a57b2), Term(k.b1, 0x26508e6d), Term(k.b2, 0x1ea119fa),
                              Term(k.b3, 0x3d4233dd), Term(k.b4, 0x2a1462b3);
    SplitXor(a0, a1);
    SplitXor(Xor(a0, a1), a2);
    SplitXor(Xor(Xor(a0, a1), a2), a3);
    SplitXor(Xor(Xor(Xor(a0, a1), a2), a3), a4);
  }

  lemma TermSix(b: bool, k: bv32)
    ensures Split(Term(b, k)) == SelSix(b, Split(k))
  {
    hide Bits;
    SplitTerm(b, k);
  }

  lemma SplitStep(c: bv32, v: bv32)
    requires v < 32
    ensures Split(Step(c, v)) == Stepped(Split(c), Bits(v))
  {
    hide Xor, Bits, Plus, Times, Feedback, Rest, TimesSix;
    SplitXor(Rest(c), v);
    SplitXor(Xor(Rest(c), v), Feedback(c));
    SplitRest(c);
    SplitSmall(v);
    SplitFeedback(c);
    var s := Split(c);
    PlusNone(s.g4, NONE); PlusNone(s.g3, NONE); PlusNone(s.g2, NONE); PlusNone(s.g1, NONE); PlusNone(s.g0, NONE);
    PlusNone(Bits(v), NONE);
  }

  // ------------------------------------------------------------ values of polynomials

  /** The groups are elements of the ring. */
  ghost predicate Embeds<T(!new)>(R: Ring<T>, low: Five -> T) {
    && low(NONE) == R.zero && low(UNIT) == R.one
    && forall k, l :: EmbedsAt(R, low, k, l)
  }

  predicate EmbedsAt<T(==)>(R: Ring<T>, low: Five -> T, k: Five, l: Five) {
    && low(Plus(k, l)) == R.add(low(k), low(l)) && low(Times(k, l)) == R.mul(low(k), low(l))
    && (low(k) == R.zero ==> k == NONE)
  }

  lemma LowIs<T(!new)>(R: Ring<T>, low: Five -> T, k: Five, l: Five)
    requires Embeds(R, low)
    ensures low(Plus(k, l)) == R.add(low(k), low(l)) && low(Times(k, l)) == R.mul(low(k), low(l))
    ensures low(k) == R.zero ==> k == NONE
    ensures low(NONE) == R.zero && low(UNIT) == R.one
  {
    hide Plus, Times;
    assert EmbedsAt(R, low, k, l);
  }

  /** One more coefficient. */
  function Horner<T>(R: Ring<T>, b: T, a: T, k: T): T { R.add(R.mul(a, b), k) }

  /** The value at `b` of the polynomial with these coefficients. */
  function Value<T>(R: Ring<T>, low: Five -> T, b: T, s: Six): T {
    var v4 := Horner(R, b, low(s.g5), low(s.g4));
    Horner(R, b, Horner(R, b, Horner(R, b, Horner(R, b, v4, low(s.g3)), low(s.g2)), low(s.g1)), low(s.g0))
  }

  lemma HornerAdd<T(!new)>(R: Ring<T>, b: T, a: T, a': T, k: T, k': T)
    requires IsRing(R)
    ensures Horner(R, b, R.add(a, a'), R.add(k, k')) == R.add(Horner(R, b, a, k), Horner(R, b, a', k'))
  {
    hide IsRing;
    MulAdd(R, a, a', b);
    AddSwap(R, R.mul(a, b), R.mul(a', b), k, k');
  }

  lemma HornerMul<T(!new)>(R: Ring<T>, b: T, a: T, k: T, m: T)
    requires IsRing(R)
    ensures Horner(R, b, R.mul(a, m), R.mul(k, m)) == R.mul(Horner(R, b, a, k), m)
  {
    hide IsRing;
    MulSwap(R, a, m, b);
    MulAdd(R, R.mul(a, b), k, m);
  }

  lemma ValuePlus<T(!new)>(R: Ring<T>, low: Five -> T, b: T, s: Six, t: Six)
    requires IsRing(R) && Embeds(R, low)
    ensures Value(R, low, b, PlusSix(s, t)) == R.add(Value(R, low, b, s), Value(R, low, b, t))
  {
    hide IsRing, Embeds, Horner, Plus;
    LowIs(R, low, s.g5, t.g5); LowIs(R, low, s.g4, t.g4); LowIs(R, low, s.g3, t.g3);
    LowIs(R, low, s.g2, t.g2); LowIs(R, low, s.g1, t.g1); LowIs(R, low, s.g0, t.g0);
    HornerAdd(R, b, low(s.g5), low(t.g5), low(s.g4), low(t.g4));
    var a4, c4 := Horner(R, b, low(s.g5), low(s.g4)), Horner(R, b, low(t.g5), low(t.g4));
    HornerAdd(R, b, a4, c4, low(s.g3), low(t.g3));
    var a3, c3 := Horner(R, b, a4, low(s.g3)), Horner(R, b, c4, low(t.g3));
    HornerAdd(R, b, a3, c3, low(s.g2), low(t.g2));
    var a2, c2 := Horner(R, b, a3, low(s.g2)), Horner(R, b, c3, low(t.g2));
    HornerAdd(R, b, a2, c2, low(s.g1), low(t.g1));
    var a1, c1 := Horner(R, b, a2, low(s.g1)), Horner(R, b, c2, low(t.g1));
    HornerAdd(R, b, a1, c1, low(s.g0), low(t.g0));
  }

  lemma ValueTimes<T(!new)>(R: Ring<T>, low: Five -> T, b: T, s: Six, m: Five)
    requires IsRing(R) && Embeds(R, low)
    ensures Value(R, low, b, TimesSix(s, m)) == R.mul(Value(R, low, b, s), low(m))
  {
    hide IsRing, Embeds, Horner, Times;
    LowIs(R, low, s.g5, m); LowIs(R, low, s.g4, m); LowIs(R, low, s.g3, m);
    LowIs(R, low, s.g2, m); LowIs(R, low, s.g1, m); LowIs(R, low, s.g0, m);
    HornerMul(R, b, low(s.g5), low(s.g4), low(m));
    var a4 := Horner(R, b, low(s.g5), low(s.g4));
    HornerMul(R, b, a4, low(s.g3), low(m));
    var a3 := Horner(R, b, a4, low(s.g3));
    HornerMul(R, b, a3, low(s.g2), low(m));
    var a2 := Horner(R, b, a3, low(s.g2));
    HornerMul(R, b, a2, low(s.g1), low(m));
    HornerMul(R, b, Horner(R, b, a2, low(s.g1)), low(s.g0), low(m));
  }

  lemma ShiftedValue<T(!new)>(R: Ring<T>, low: Five -> T, b: T, s: Six, v: Five)
    requires IsRing(R) && Embeds(R, low)
    ensures Value(R, low, b, Shifted(s, v))
         == Horner(R, b, Value(R, low, b, Six(NONE, s.g4, s.g3, s.g2, s.g1, s.g0)), low(v))
  {
    hide IsRing, Embeds;
    LowIs(R, low, NONE, NONE);
    MulOne(R, b);
    AddZero(R, low(s.g4), R.zero);
  }

  /** The generator is zero there: x^6 has the same value before and after reduction. */
  ghost predicate IsRoot<T(!new)>(R: Ring<T>, low: Five -> T, b: T) {
    Value(R, low, b, REDUCED) == R.mul(Value(R, low, b, FIFTH), b)
  }

  /** At a root, a step multiplies the value and adds the new group. */
  lemma SteppedValue<T(!new)>(R: Ring<T>, low: Five -> T, b: T, s: Six, v: Five)
    requires IsRing(R) && Embeds(R, low) && IsRoot(R, low, b)
    ensures Value(R, low, b, Stepped(s, v)) == Horner(R, b, Value(R, low, b, s), low(v))
  {
    hide IsRing, Embeds, Value, Plus, Times, PlusSix, TimesSix;
    var rest := Six(NONE, s.g4, s.g3, s.g2, s.g1, s.g0);
    ValuePlus(R, low, b, Shifted(s, v), TimesSix(REDUCED, s.g5));
    ValueTimes(R, low, b, REDUCED, s.g5);
    ShiftedValue(R, low, b, s, v);
    TopAndRest(s);
    ValuePlus(R, low, b, TimesSix(FIFTH, s.g5), rest);
    ValueTimes(R, low, b, FIFTH, s.g5);
    var top, bottom, m := Value(R, low, b, FIFTH), Value(R, low, b, rest), low(s.g5);
    MulAdd(R, R.mul(top, m), bottom, b);
    MulSwap(R, top, m, b);
    AddLaws(R, R.mul(R.mul(top, b), m), R.mul(bottom, b), low(v));
    AddLaws(R, R.add(R.mul(bottom, b), low(v)), R.mul(R.mul(top, b), m), R.zero);
  }

  // ------------------------------------------------------------ words as polynomials

  /** The value at `b` of the polynomial whose coefficients are the groups. */
  function At<T>(R: Ring<T>, low: Five -> T, b: T, v: Data): T {
    if v == [] then R.zero else Horner(R, b, At(R, low, b, v[..|v| - 1]), low(Bits(v[|v| - 1])))
  }

  /** At a root, the residue has the value of the word. */
  lemma {:induction false} FoldAt<T(!new)>(R: Ring<T>, low: Five -> T, b: T, v: Data)
    requires IsRing(R) && Embeds(R, low) && IsRoot(R, low, b) && FiveBit(v)
    ensures Value(R, low, b, Split(Fold(0, v))) == At(R, low, b, v)
  {
    hide IsRing, Embeds, IsRoot, Step, Split, Value, Horner, Bits;
    if v == [] {
      NothingAt(R, low, b);
    } else {
      var n := |v| - 1;
      FoldAt(R, low, b, v[..n]);
      SplitStep(Fold(0, v[..n]), v[n]);
      SteppedValue(R, low, b, Split(Fold(0, v[..n])), Bits(v[n]));
    }
  }

  lemma NothingAt<T(!new)>(R: Ring<T>, low: Five -> T, b: T)
    requires IsRing(R) && Embeds(R, low)
    ensures Value(R, low, b, Split(0)) == R.zero && low(Bits(0)) == R.zero
  {
    hide IsRing, Embeds;
    SplitSmall(0);
    LowIs(R, low, NONE, NONE);
    MulOne(R, b);
    AddZero(R, R.zero, R.zero);
  }

  lemma {:induction false} AtAdd<T(!new)>(R: Ring<T>, low: Five -> T, b: T, v: Data, w: Data)
    requires IsRing(R) && Embeds(R, low) && |v| == |w|
    ensures At(R, low, b, XorAll(v, w)) == R.add(At(R, low, b, v), At(R, low, b, w))
  {
    hide IsRing, Embeds, Horner, Bits, Xor, Plus;
    if v == [] {
      AddZero(R, R.zero, R.zero);
    } else {
      var n := |v| - 1;
      assert XorAll(v, w)[..n] == XorAll(v[..n], w[..n]);
      AtAdd(R, low, b, v[..n], w[..n]);
      BitsXor(v[n], w[n]);
      LowIs(R, low, Bits(v[n]), Bits(w[n]));
      HornerAdd(R, b, At(R, low, b, v[..n]), At(R, low, b, w[..n]), low(Bits(v[n])), low(Bits(w[n])));
    }
  }

  /** The word with only one of its groups left. */
  function Only(v: Data, p: nat): (r: Data)
    ensures |r| == |v| && forall i :: 0 <= i < |v| ==> r[i] == if i == p then v[i] else 0
  {
    seq(|v|, i requires 0 <= i < |v| => if i == p then v[i] else 0)
  }

  lemma {:induction false} AtZeros<T(!new)>(R: Ring<T>, low: Five -> T, b: T, v: Data)
    requires IsRing(R) && Embeds(R, low) && IsZero(v)
    ensures At(R, low, b, v) == R.zero
  {
    hide IsRing, Embeds, Bits;
    if v != [] {
      AtZeros(R, low, b, v[..|v| - 1]);
      NothingAt(R, low, b);
      MulOne(R, b);
      AddZero(R, R.zero, R.zero);
    }
  }

  /** The last group has factor one, those before it powers of `b`. */
  lemma {:induction false} AtOnly<T(!new)>(R: Ring<T>, low: Five -> T, b: T, v: Data, p: nat)
    requires IsRing(R) && Embeds(R, low) && p < |v|
    ensures At(R, low, b, Only(v, p)) == R.mul(low(Bits(v[p])), Pow(R, b, |v| - 1 - p))
  {
    hide IsRing, Embeds, Bits;
    var n := |v| - 1;
    assert Only(v, p)[..n] == Only(v[..n], p);
    if p == n {
      AtZeros(R, low, b, Only(v[..n], p));
      MulOne(R, b);
      AddZero(R, low(Bits(v[p])), R.zero);
      MulOne(R, low(Bits(v[p])));
    } else {
      AtOnly(R, low, b, v[..n], p);
      NothingAt(R, low, b);
      MulLaws(R, low(Bits(v[p])), Pow(R, b, n - 1 - p), b);
      AddZero(R, R.mul(At(R, low, b, Only(v[..n], p)), b), R.zero);
    }
  }

  /** Nothing is different from zero but at three positions. */
  ghost predicate Sparse(v: Data, p: nat, q: nat, r: nat) {
    forall i :: 0 <= i < |v| && i != p && i != q && i != r ==> v[i] == 0
  }

  lemma ThreeParts(v: Data, p: nat, q: nat, r: nat)
    requires Sparse(v, p, q, r) && p != q && q != r && p != r
    ensures v == XorAll(XorAll(Only(v, p), Only(v, q)), Only(v, r))
  {
    hide Xor;
    var w := XorAll(XorAll(Only(v, p), Only(v, q)), Only(v, r));
    forall i | 0 <= i < |v| ensures v[i] == w[i] {
      XorLaws(v[i], 0, 0);
      XorLaws(0, v[i], 0);
      XorLaws(0, 0, v[i]);
      XorLaws(0, 0, 0);
    }
  }

  // ------------------------------------------------------------ three errors

  /** A field in which `e` has order 1023 and three consecutive powers of it are roots. */
  ghost predicate IsCode<T(!new)>(R: Ring<T>, low: Five -> T, e: T, c: nat) {
    && IsField(R) && Embeds(R, low) && e != R.zero
    && (forall n: nat :: Pow(R, e, n) == R.one ==> n % 1023 == 0)
    && (forall n: nat :: c <= n < c + 3 ==> IsRoot(R, low, Pow(R, e, n)))
  }

  lemma CodeIs<T(!new)>(R: Ring<T>, low: Five -> T, e: T, c: nat)
    requires IsCode(R, low, e, c)
    ensures IsField(R) && IsRing(R) && Embeds(R, low) && e != R.zero
    ensures forall k: nat :: 0 < k < 1023 ==> Pow(R, e, k) != R.one
  {
    hide IsRing, Embeds, IsRoot, Pow;
  }

  /** The contribution of a group at distance `k` from the end to the three values. */
  lemma Contribution<T(!new)>(R: Ring<T>, e: T, c: nat, g: T, k: nat)
    requires IsRing(R)
    ensures var y, x := R.mul(g, Pow(R, e, c * k)), Pow(R, e, k);
            && R.mul(g, Pow(R, Pow(R, e, c), k)) == y
            && R.mul(g, Pow(R, Pow(R, e, c + 1), k)) == R.mul(y, x)
            && R.mul(g, Pow(R, Pow(R, e, c + 2), k)) == R.mul(R.mul(y, x), x)
  {
    hide IsRing, Pow;
    PowMany(R, e, c, k);
    PowMany(R, e, c + 1, k);
    PowMany(R, e, c + 2, k);
    assert (c + 1) * k == c * k + k && (c + 2) * k == (c + 1) * k + k;
    PowAdd(R, e, c * k, k);
    PowAdd(R, e, (c + 1) * k, k);
    MulLaws(R, g, Pow(R, e, c * k), Pow(R, e, k));
    MulLaws(R, g, Pow(R, e, (c + 1) * k), Pow(R, e, k));
  }

  lemma ValueAt<T(!new)>(R: Ring<T>, low: Five -> T, e: T, c: nat, v: Data, p: nat, q: nat, r: nat, j: nat)
    requires IsCode(R, low, e, c) && FiveBit(v) && Fold(0, v) == 0 && j < 3
    requires Sparse(v, p, q, r) && p < |v| && q < |v| && r < |v| && p != q && q != r && p != r
    ensures var b, n := Pow(R, e, c + j), |v| - 1;
            R.add(R.add(R.mul(low(Bits(v[p])), Pow(R, b, n - p)), R.mul(low(Bits(v[q])), Pow(R, b, n - q))),
                  R.mul(low(Bits(v[r])), Pow(R, b, n - r))) == R.zero
  {
    hide IsRing, Pow, Bits, IsRoot, Value, Split, Fold, At, Xor, Embeds;
    var b := Pow(R, e, c + j);
    CodeIs(R, low, e, c);
    FoldAt(R, low, b, v);
    NothingAt(R, low, b);
    ThreeParts(v, p, q, r);
    AtAdd(R, low, b, XorAll(Only(v, p), Only(v, q)), Only(v, r));
    AtAdd(R, low, b, Only(v, p), Only(v, q));
    AtOnly(R, low, b, v, p);
    AtOnly(R, low, b, v, q);
    AtOnly(R, low, b, v, r);
  }

  /** Less than 1023 apart. */
  predicate Near(p: int, q: int) { -1023 < p - q < 1023 }

  lemma NearDistinct<T(!new)>(R: Ring<T>, low: Five -> T, e: T, c: nat, m: nat, n: nat)
    requires IsCode(R, low, e, c) && m != n && Near(m, n)
    ensures Pow(R, e, m) != Pow(R, e, n)
  {
    hide Pow, IsField, IsCode;
    CodeIs(R, low, e, c);
    if m < n { PowDistinct(R, e, 1023, m, n); } else { PowDistinct(R, e, 1023, n, m); }
  }

  lemma FirstIsZero<T(!new)>(R: Ring<T>, low: Five -> T, e: T, c: nat, v: Data, p: nat, q: nat, r: nat)
    requires IsCode(R, low, e, c) && FiveBit(v) && Fold(0, v) == 0
    requires Sparse(v, p, q, r) && p < |v| && q < |v| && r < |v| && p != q && q != r && p != r
    requires Near(p, q) && Near(p, r)
    ensures v[p] == 0
  {
    hide IsCode, IsField, IsRing, Embeds, Pow, Bits, Fold, Sparse;
    CodeIs(R, low, e, c);
    ValueAt(R, low, e, c, v, p, q, r, 0);
    ValueAt(R, low, e, c, v, p, q, r, 1);
    ValueAt(R, low, e, c, v, p, q, r, 2);
    var n, a, b, d := |v| - 1, low(Bits(v[p])), low(Bits(v[q])), low(Bits(v[r]));
    Contribution(R, e, c, a, n - p);
    Contribution(R, e, c, b, n - q);
    Contribution(R, e, c, d, n - r);
    NearDistinct(R, low, e, c, n - p, n - q);
    NearDistinct(R, low, e, c, n - p, n - r);
    var y := Pow(R, e, c * (n - p));
    Vandermonde(R, R.mul(a, y), R.mul(b, Pow(R, e, c * (n - q))), R.mul(d, Pow(R, e, c * (n - r))),
                Pow(R, e, n - p), Pow(R, e, n - q), Pow(R, e, n - r));
    NoZeroDivisor(R, a, y);
    PowNotZero(R, e, c * (n - p));
    LowIs(R, low, Bits(v[p]), NONE);
    ZeroBits(v[p]);
  }

  lemma ZeroBits(v: bv32)
    requires v < 32 && Bits(v) == NONE
    ensures v == 0
  {
  }

  // ------------------------------------------------------------ the three roots

  /** One coefficient more, if the square of `b` is t * b + n and the value so far u * b + v. */
  lemma Reduced<T(!new)>(R: Ring<T>, low: Five -> T, b: T, t: Five, n: Five, u: Five, v: Five, k: Five)
    requires IsRing(R) && Embeds(R, low) && R.mul(b, b) == R.add(R.mul(b, low(t)), low(n))
    ensures Horner(R, b, R.add(R.mul(b, low(u)), low(v)), low(k))
         == R.add(R.mul(b, low(Plus(Times(u, t), v))), low(Plus(Times(u, n), k)))
  {
    hide IsRing, Embeds, Plus, Times;
    LowIs(R, low, u, t);
    LowIs(R, low, u, n);
    LowIs(R, low, Times(u, t), v);
    LowIs(R, low, Times(u, n), k);
    var bt, lu, lv := R.mul(b, low(t)), low(u), low(v);
    MulAdd(R, R.mul(b, lu), lv, b);
    MulSwap(R, b, lu, b);
    MulAdd(R, bt, low(n), lu);
    MulLaws(R, b, low(t), lu);
    MulLaws(R, low(t), lu, lu);
    MulLaws(R, low(n), lu, lu);
    MulLaws(R, lv, b, b);
    MulAdd(R, low(Times(u, t)), lv, b);
    AddLaws(R, R.add(R.mul(b, low(Times(u, t))), low(Times(u, n))), R.mul(b, lv), low(k));
    AddSwap(R, R.mul(b, low(Times(u, t))), low(Times(u, n)), R.mul(b, lv), low(k));
  }

  /** The generator, all its coefficients, taken at `b`. */
  function Generator<T>(R: Ring<T>, low: Five -> T, b: T): T {
    Horner(R, b, Value(R, low, b, Six(UNIT, REDUCED.g5, REDUCED.g4, REDUCED.g3, REDUCED.g2, REDUCED.g1)),
           low(REDUCED.g0))
  }

  lemma RootIf<T(!new)>(R: Ring<T>, low: Five -> T, b: T)
    requires IsRing(R) && Embeds(R, low) && Generator(R, low, b) == R.zero
    ensures IsRoot(R, low, b)
  {
    hide IsRing, Embeds, Value, Plus;
    var rest := Six(NONE, REDUCED.g5, REDUCED.g4, REDUCED.g3, REDUCED.g2, REDUCED.g1);
    var all := Six(UNIT, REDUCED.g5, REDUCED.g4, REDUCED.g3, REDUCED.g2, REDUCED.g1);
    assert all == PlusSix(FIFTH, rest) by {
      PlusNone(UNIT, NONE); PlusNone(F29, NONE); PlusNone(F22, NONE); PlusNone(F20, NONE); PlusNone(F21, NONE);
    }
    ValuePlus(R, low, b, FIFTH, rest);
    var top, bottom := Value(R, low, b, FIFTH), Value(R, low, b, rest);
    MulAdd(R, top, bottom, b);
    ShiftedValue(R, low, b, all, REDUCED.g0);
    AddLaws(R, R.mul(top, b), R.mul(bottom, b), low(REDUCED.g0));
    AddZero(R, R.mul(top, b), Value(R, low, b, REDUCED));
  }

  lemma Table0()
    ensures Plus(Times(UNIT, F30), F29) == F3 && Plus(Times(UNIT, F30), F22) == F8
    ensures Plus(Times(F3, F30), F8) == F3 && Plus(Times(F3, F30), F20) == F31
    ensures Plus(Times(F3, F30), F31) == F20 && Plus(Times(F3, F30), F21) == F30
    ensures Plus(Times(F20, F30), F30) == F17 && Plus(Times(F20, F30), F29) == F18
    ensures Plus(Times(F17, F30), F18) == NONE && Plus(Times(F17, F30), F18) == NONE
  {
  }

  lemma Zero0<T(!new)>(R: Ring<T>, low: Five -> T, b: T)
    requires IsRing(R) && Embeds(R, low) && R.mul(b, b) == R.add(R.mul(b, low(F30)), low(F30))
    ensures IsRoot(R, low, b)
  {
    hide IsRing, Embeds, Plus, Times, Horner, IsRoot;
    Table0();
    Start(R, low, b);
    Reduced(R, low, b, F30, F30, UNIT, F29, F22);
    Reduced(R, low, b, F30, F30, F3, F8, F20);
    Reduced(R, low, b, F30, F30, F3, F31, F21);
    Reduced(R, low, b, F30, F30, F20, F30, F29);
    Reduced(R, low, b, F30, F30, F17, F18, F18);
    Finish(R, low, b);
    RootIf(R, low, b);
  }

  lemma Table1()
    ensures Plus(Times(UNIT, F27), F29) == F6 && Plus(Times(UNIT, F4), F22) == F18
    ensures Plus(Times(F6, F27), F18) == F26 && Plus(Times(F6, F4), F20) == F12
    ensures Plus(Times(F26, F27), F12) == F26 && Plus(Times(F26, F4), F21) == F6
    ensures Plus(Times(F26, F27), F6) == F16 && Plus(Times(F26, F4), F29) == F14
    ensures Plus(Times(F16, F27), F14) == NONE && Plus(Times(F16, F4), F18) == NONE
  {
  }

  lemma Zero1<T(!new)>(R: Ring<T>, low: Five -> T, b: T)
    requires IsRing(R) && Embeds(R, low) && R.mul(b, b) == R.add(R.mul(b, low(F27)), low(F4))
    ensures IsRoot(R, low, b)
  {
    hide IsRing, Embeds, Plus, Times, Horner, IsRoot;
    Table1();
    Start(R, low, b);
    Reduced(R, low, b, F27, F4, UNIT, F29, F22);
    Reduced(R, low, b, F27, F4, F6, F18, F20);
    Reduced(R, low, b, F27, F4, F26, F12, F21);
    Reduced(R, low, b, F27, F4, F26, F6, F29);
    Reduced(R, low, b, F27, F4, F16, F14, F18);
    Finish(R, low, b);
    RootIf(R, low, b);
  }

  lemma Table2()
    ensures Plus(Times(UNIT, F24), F29) == F5 && Plus(Times(UNIT, F14), F22) == F24
    ensures Plus(Times(F5, F24), F24) == F27 && Plus(Times(F5, F14), F20) == F11
    ensures Plus(Times(F27, F24), F11) == F2 && Plus(Times(F27, F14), F21) == F26
    ensures Plus(Times(F2, F24), F26) == F3 && Plus(Times(F2, F14), F29) == UNIT
    ensures Plus(Times(F3, F24), UNIT) == NONE && Plus(Times(F3, F14), F18) == NONE
  {
  }

  lemma Zero2<T(!new)>(R: Ring<T>, low: Five -> T, b: T)
    requires IsRing(R) && Embeds(R, low) && R.mul(b, b) == R.add(R.mul(b, low(F24)), low(F14))
    ensures IsRoot(R, low, b)
  {
    hide IsRing, Embeds, Plus, Times, Horner, IsRoot;
    Table2();
    Start(R, low, b);
    Reduced(R, low, b, F24, F14, UNIT, F29, F22);
    Reduced(R, low, b, F24, F14, F5, F24, F20);
    Reduced(R, low, b, F24, F14, F27, F11, F21);
    Reduced(R, low, b, F24, F14, F2, F26, F29);
    Reduced(R, low, b, F24, F14, F3, UNIT, F18);
    Finish(R, low, b);
    RootIf(R, low, b);
  }

  lemma Start<T(!new)>(R: Ring<T>, low: Five -> T, b: T)
    requires IsRing(R) && Embeds(R, low)
    ensures Horner(R, b, low(UNIT), low(F29)) == R.add(R.mul(b, low(UNIT)), low(F29))
  {
    hide IsRing, Embeds;
    MulLaws(R, low(UNIT), b, b);
  }

  lemma Finish<T(!new)>(R: Ring<T>, low: Five -> T, b: T)
    requires IsRing(R) && Embeds(R, low)
    ensures R.add(R.mul(b, low(NONE)), low(NONE)) == R.zero
  {
    hide IsRing, Embeds;
    LowIs(R, low, NONE, NONE);
    MulOne(R, b);
    AddZero(R, R.zero, R.zero);
  }

  // ------------------------------------------------------------ the code of Bech32

  function Low(k: Five): Field { Pair(NONE, k) }

  lemma LowEmbeds()
    ensures Embeds(GF1024, Low)
  {
    hide Plus, Times, MulPairs, IsField;
    forall k: Five, l: Five ensures EmbedsAt(GF1024, Low, k, l) {
      GF32IsField();
      FieldIsRing(GF32);
      LowTimes(GF32, NINE, TWENTY_THREE, k, l);
      PlusNone(NONE, NONE);
    }
  }

  const ROOT0: Field := Pair(F13, F29)
  const ROOT1: Field := Pair(F3, F5)
  const ROOT2: Field := Pair(F30, F16)

  lemma Quadratic0()
    ensures Mul(ROOT0, ROOT0) == AddPairs(GF32, Mul(ROOT0, Low(F30)), Low(F30))
  {
  }

  lemma Quadratic1()
    ensures Mul(ROOT1, ROOT1) == AddPairs(GF32, Mul(ROOT1, Low(F27)), Low(F4))
  {
  }

  lemma Quadratic2()
    ensures Mul(ROOT2, ROOT2) == AddPairs(GF32, Mul(ROOT2, Low(F24)), Low(F14))
  {
  }

  lemma RootSteps()
    ensures Mul(E7, Low(F19)) == ROOT0 && Mul(ROOT0, E1) == ROOT1 && Mul(ROOT1, E1) == ROOT2
  {
  }

  /** The powers 997, 998 and 999 of e. */
  lemma RootPowers(n: nat)
    requires 997 <= n < 1000
    ensures Pow(GF1024, E1, n) == if n == 997 then ROOT0 else if n == 998 then ROOT1 else ROOT2
  {
    hide IsRing, IsField, Pow, MulPairs, Power;
    GF32IsField();
    FieldIsRing(GF32);
    GF1024IsField();
    FieldIsRing(GF1024);
    PowersHold();
    PowMany(GF1024, E1, 33, 30);
    LowPow(GF32, NINE, TWENTY_THREE, TWENTY_THREE, 30);
    TwentyThreePow(30);
    PowerPeriod(10, 20);
    PowerTen();
    PowAdd(GF1024, E1, 7, 990);
    RootSteps();
    PowNext(GF1024, E1, 997);
    PowNext(GF1024, E1, 998);
  }

  lemma PowerTen()
    ensures Power(10) == F19
  {
    Powers(UNIT);
  }

  lemma PowNext<T>(R: Ring<T>, b: T, n: nat)
    ensures Pow(R, b, n + 1) == R.mul(Pow(R, b, n), b)
  {
  }

  /** The generator is zero at the three powers. */
  lemma Roots(n: nat)
    requires 997 <= n < 1000
    ensures IsRoot(GF1024, Low, Pow(GF1024, E1, n))
  {
    hide IsRing, IsField, Pow, MulPairs, IsRoot, Embeds;
    GF1024IsField();
    FieldIsRing(GF1024);
    LowEmbeds();
    RootPowers(n);
    Quadratic0();
    Quadratic1();
    Quadratic2();
    if n == 997 {
      Zero0(GF1024, Low, ROOT0);
    } else if n == 998 {
      Zero1(GF1024, Low, ROOT1);
    } else {
      Zero2(GF1024, Low, ROOT2);
    }
  }

  /** A word that is different from zero at three positions at most, and has no residue, is zero. */
  lemma SparseIsZero(v: Data, p: nat, q: nat, r: nat)
    requires FiveBit(v) && Fold(0, v) == 0 && Sparse(v, p, q, r) && p < q < r < |v| && r - p < 1023
    ensures IsZero(v)
  {
    hide Fold, IsRing, IsField, Pow, MulPairs, IsRoot, Embeds;
    assert IsCode(GF1024, Low, E1, 997) by {
      GF1024IsField();
      LowEmbeds();
      forall n: nat | Pow(GF1024, E1, n) == GF1024.one ensures n % 1023 == 0 { Primitive(n); }
      forall n: nat | 997 <= n < 1000 ensures IsRoot(GF1024, Low, Pow(GF1024, E1, n)) { Roots(n); }
    }
    FirstIsZero(GF1024, Low, E1, 997, v, p, q, r);
    FirstIsZero(GF1024, Low, E1, 997, v, q, p, r);
    FirstIsZero(GF1024, Low, E1, 997, v, r, p, q);
  }

  /** The two words agree outside three positions. */
  ghost predicate AgreeBut(v: Data, w: Data, p: nat, q: nat, r: nat) {
    |v| == |w| && forall i :: 0 <= i < |v| && i != p && i != q && i != r ==> v[i] == w[i]
  }

  /** Errors at up to three positions within 1023 groups always change the checksum. */
  lemma ThreeDetected(c: bv32, v: Data, w: Data, p: nat, q: nat, r: nat)
    requires AgreeBut(v, w, p, q, r) && p < q < r < |v| && r - p < 1023 && FiveBit(v) && FiveBit(w)
    requires Fold(c, v) == Fold(c, w)
    ensures v == w
  {
    hide Xor, Step, Fold;
    var e := XorAll(v, w);
    XorLaws(c, c, 0);
    XorLaws(Fold(c, v), Fold(c, v), 0);
    FoldLinear(c, c, v, w);
    forall i | 0 <= i < |v| ensures e[i] < 32 && (i != p && i != q && i != r ==> e[i] == 0) {
      FiveBitXor(v[i], w[i]);
      XorLaws(v[i], 0, 0);
    }
    SparseIsZero(e, p, q, r);
    NoError(v, w);
  }
}

/**
 The checksum of Bech32 and Bech32m strings (BIP 173 and BIP 350) as a linear
 code over groups of five bits, and the errors it detects.
*/
module Bech32Code {

  /** Five-bit groups, and the packed six of them, are bit-vectors. */
  type Data = seq<bv32>

  const TWO30: bv32 := 0x4000_0000
  const TWO25: bv32 := 0x200_0000

  ghost predicate FiveBit(v: Data) {
    forall i :: 0 <= i < |v| ==> v[i] < 32
  }

  // ------------------------------------------------------------ exclusive or

  function Xor(a: bv32, b: bv32): bv32 { a ^ b }

  lemma XorLaws(a: bv32, b: bv32, c: bv32)
    ensures Xor(Xor(a, b), c) == Xor(a, Xor(b, c))
    ensures Xor(a, b) == Xor(b, a)
    ensures Xor(a, 0) == a && Xor(a, a) == 0
  {
  }

  lemma Interchange(a: bv32, b: bv32, c: bv32, d: bv32)
    ensures Xor(Xor(a, b), Xor(c, d)) == Xor(Xor(a, c), Xor(b, d))
  {
    hide Xor;
    XorLaws(a, b, Xor(c, d));
    XorLaws(b, c, d);
    XorLaws(c, b, d);
    XorLaws(a, c, Xor(b, d));
  }

  // ------------------------------------------------------------ the checksum polynomial

  function Term(b: bool, k: bv32): bv32 {
    if b then k else 0
  }

  /** The multiple of x^6 mod g(x) whose factor has the given bits. */
  function Multiple(b0: bool, b1: bool, b2: bool, b3: bool, b4: bool): bv32 {
    Xor(Xor(Xor(Xor(Term(b0, 0x3b6a57b2), Term(b1, 0x26508e6d)), Term(b2, 0x1ea119fa)), Term(b3, 0x3d4233dd)),
        Term(b4, 0x2a1462b3))
  }

  /** Bit `i` of the leading coefficient, which sits in bits 25 to 29. */
  predicate Leads(c: bv32, i: nat)
    requires i < 5
  {
    c & (if i == 0 then 0x200_0000 else if i == 1 then 0x400_0000 else if i == 2 then 0x800_0000
         else if i == 3 then 0x1000_0000 else 0x2000_0000) != 0
  }

  function Feedback(c: bv32): bv32 {
    Multiple(Leads(c, 0), Leads(c, 1), Leads(c, 2), Leads(c, 3), Leads(c, 4))
  }

  function Rest(c: bv32): bv32 { (c & 0x1ffffff) << 5 }

  /** Multiply by x, add `v`, reduce modulo g(x). */
  function Step(c: bv32, v: bv32): bv32 {
    Xor(Xor(Rest(c), v), Feedback(c))
  }

  function Fold(c: bv32, v: Data): bv32 {
    if v == [] then c else Step(Fold(c, v[..|v| - 1]), v[|v| - 1])
  }

  method PolyMod(v: Data) returns (c: bv32)
    ensures c == Fold(1, v)
  {
    hide Step;
    c := 1;
    for i := 0 to |v|
      invariant c == Fold(1, v[..i])
    {
      c := PolyStep(c, v[i]);
      assert v[..i + 1][..i] == v[..i];
    }
    assert v[..|v|] == v;
  }

  method PolyStep(c: bv32, v: bv32) returns (r: bv32)
    ensures r == Step(c, v)
  {
    hide Leads, Xor, Multiple;
    var c0 := c >> 25;
    r := Xor((c & 0x1ffffff) << 5, v);
    LeadingBits(c);
    r := Reduce(r, c0 & 1 != 0, c0 & 2 != 0, c0 & 4 != 0, c0 & 8 != 0, c0 & 16 != 0);
  }

  method Reduce(d: bv32, b0: bool, b1: bool, b2: bool, b3: bool, b4: bool) returns (r: bv32)
    ensures r == Xor(d, Multiple(b0, b1, b2, b3, b4))
  {
    hide Term, Xor;
    r := XorIf(d, b0, 0x3b6a57b2);
    r := XorIf(r, b1, 0x26508e6d);
    r := XorIf(r, b2, 0x1ea119fa);
    r := XorIf(r, b3, 0x3d4233dd);
    r := XorIf(r, b4, 0x2a1462b3);
    Gather(d, Term(b0, 0x3b6a57b2), Term(b1, 0x26508e6d), Term(b2, 0x1ea119fa), Term(b3, 0x3d4233dd),
           Term(b4, 0x2a1462b3));
  }

  lemma Gather(d: bv32, a: bv32, b: bv32, c: bv32, e: bv32, f: bv32)
    ensures Xor(Xor(Xor(Xor(Xor(d, a), b), c), e), f) == Xor(d, Xor(Xor(Xor(Xor(a, b), c), e), f))
  {
    hide Xor;
    XorLaws(d, a, b);
    XorLaws(d, Xor(a, b), c);
    XorLaws(d, Xor(Xor(a, b), c), e);
    XorLaws(d, Xor(Xor(Xor(a, b), c), e), f);
  }

  method XorIf(c: bv32, b: bool, k: bv32) returns (r: bv32)
    ensures r == Xor(c, Term(b, k))
  {
    r := c;
    if b { r := r ^ k; }
  }

  lemma LeadingBits(c: bv32)
    ensures (c >> 25) & 1 != 0 <==> Leads(c, 0)
    ensures (c >> 25) & 2 != 0 <==> Leads(c, 1)
    ensures (c >> 25) & 4 != 0 <==> Leads(c, 2)
    ensures (c >> 25) & 8 != 0 <==> Leads(c, 3)
    ensures (c >> 25) & 16 != 0 <==> Leads(c, 4)
  {
  }

  // ------------------------------------------------------------ linearity

  lemma LeadsLinear(x: bv32, y: bv32, i: nat)
    requires i < 5
    ensures Leads(Xor(x, y), i) <==> Leads(x, i) != Leads(y, i)
  {
  }

  lemma TermLinear(a: bool, b: bool, k: bv32)
    ensures Term(a != b, k) == Xor(Term(a, k), Term(b, k))
  {
    XorLaws(k, 0, 0);
    XorLaws(0, k, 0);
  }

  lemma FeedbackLinear(x: bv32, y: bv32)
    ensures Feedback(Xor(x, y)) == Xor(Feedback(x), Feedback(y))
  {
    hide Xor, Leads, Multiple;
    MultipleLinear(Leads(x, 0), Leads(x, 1), Leads(x, 2), Leads(x, 3), Leads(x, 4),
                   Leads(y, 0), Leads(y, 1), Leads(y, 2), Leads(y, 3), Leads(y, 4));
    FactorLinear(x, y);
  }

  lemma FactorLinear(x: bv32, y: bv32)
    ensures Feedback(Xor(x, y)) == Multiple(Leads(x, 0) != Leads(y, 0), Leads(x, 1) != Leads(y, 1),
                                            Leads(x, 2) != Leads(y, 2), Leads(x, 3) != Leads(y, 3),
                                            Leads(x, 4) != Leads(y, 4))
  {
    hide Xor, Leads, Multiple;
    LeadsLinear(x, y, 0); LeadsLinear(x, y, 1); LeadsLinear(x, y, 2); LeadsLinear(x, y, 3); LeadsLinear(x, y, 4);
  }

  lemma MultipleLinear(a: bool, b: bool, c: bool, d: bool, e: bool, a': bool, b': bool, c': bool, d': bool, e': bool)
    ensures Multiple(a != a', b != b', c != c', d != d', e != e')
         == Xor(Multiple(a, b, c, d, e), Multiple(a', b', c', d', e'))
  {
    hide Xor, Term;
    TermLinear(a, a', 0x3b6a57b2);
    TermLinear(b, b', 0x26508e6d);
    TermLinear(c, c', 0x1ea119fa);
    TermLinear(d, d', 0x3d4233dd);
    TermLinear(e, e', 0x2a1462b3);
    Pairs(Term(a, 0x3b6a57b2), Term(b, 0x26508e6d), Term(c, 0x1ea119fa), Term(d, 0x3d4233dd), Term(e, 0x2a1462b3),
          Term(a', 0x3b6a57b2), Term(b', 0x26508e6d), Term(c', 0x1ea119fa), Term(d', 0x3d4233dd), Term(e', 0x2a1462b3));
  }

  lemma Pairs(a: bv32, b: bv32, c: bv32, d: bv32, e: bv32, a': bv32, b': bv32, c': bv32, d': bv32, e': bv32)
    ensures Xor(Xor(Xor(Xor(Xor(a, a'), Xor(b, b')), Xor(c, c')), Xor(d, d')), Xor(e, e'))
         == Xor(Xor(Xor(Xor(Xor(a, b), c), d), e), Xor(Xor(Xor(Xor(a', b'), c'), d'), e'))
  {
    hide Xor;
    Interchange(a, a', b, b');
    Interchange(Xor(a, b), Xor(a', b'), c, c');
    Interchange(Xor(Xor(a, b), c), Xor(Xor(a', b'), c'), d, d');
    Interchange(Xor(Xor(Xor(a, b), c), d), Xor(Xor(Xor(a', b'), c'), d'), e, e');
  }

  lemma RestLinear(x: bv32, y: bv32)
    ensures Rest(Xor(x, y)) == Xor(Rest(x), Rest(y))
  {
  }

  lemma StepLinear(a: bv32, b: bv32, v: bv32, w: bv32)
    ensures Step(Xor(a, b), Xor(v, w)) == Xor(Step(a, v), Step(b, w))
  {
    hide Xor, Rest, Feedback;
    RestLinear(a, b);
    FeedbackLinear(a, b);
    Interchange(Rest(a), Rest(b), v, w);
    Interchange(Xor(Rest(a), v), Xor(Rest(b), w), Feedback(a), Feedback(b));
  }

  /** Without input, only zero becomes zero. */
  lemma StepInjective(c: bv32)
    requires c < TWO30 && Step(c, 0) == 0
    ensures c == 0
  {
  }

  lemma StepBound(c: bv32, v: bv32)
    requires v < TWO30
    ensures Step(c, v) < TWO30
  {
  }

  lemma StepSmall(c: bv32, v: bv32)
    requires c < TWO25
    ensures Step(c, v) == (c << 5) ^ v
  {
  }

  // ------------------------------------------------------------ runs of steps

  lemma {:induction false} FoldAppend(c: bv32, v: Data, w: Data)
    ensures Fold(c, v + w) == Fold(Fold(c, v), w)
  {
    hide Step;
    if w == [] {
      assert v + w == v;
    } else {
      var n := |w| - 1;
      assert (v + w)[..|v + w| - 1] == v + w[..n];
      FoldAppend(c, v, w[..n]);
    }
  }

  /** The sum of two words, group by group. */
  function XorAll(v: Data, w: Data): (r: Data)
    requires |v| == |w|
    ensures |r| == |v| && forall i :: 0 <= i < |v| ==> r[i] == Xor(v[i], w[i])
  {
    seq(|v|, i requires 0 <= i < |v| => Xor(v[i], w[i]))
  }

  lemma {:induction false} FoldLinear(a: bv32, b: bv32, v: Data, w: Data)
    requires |v| == |w|
    ensures Fold(Xor(a, b), XorAll(v, w)) == Xor(Fold(a, v), Fold(b, w))
  {
    hide Step, Xor;
    if v != [] {
      var n := |v| - 1;
      assert XorAll(v, w)[..n] == XorAll(v[..n], w[..n]);
      FoldLinear(a, b, v[..n], w[..n]);
      StepLinear(Fold(a, v[..n]), Fold(b, w[..n]), v[n], w[n]);
    }
  }

  ghost predicate IsZero(v: Data) {
    forall i :: 0 <= i < |v| ==> v[i] == 0
  }

  /** Zeros keep zero and lose nothing else. */
  lemma {:induction false} FoldZeros(c: bv32, v: Data)
    requires IsZero(v) && c < TWO30
    ensures Fold(c, v) < TWO30 && (Fold(c, v) == 0 <==> c == 0)
  {
    hide Step;
    if v != [] {
      var n := |v| - 1;
      FoldZeros(c, v[..n]);
      var d := Fold(c, v[..n]);
      StepBound(d, 0);
      StepSmall(0, 0);
      if Step(d, 0) == 0 { StepInjective(d); }
    }
  }

  lemma {:induction false} FoldBound(c: bv32, v: Data)
    requires c < TWO30 && forall i :: 0 <= i < |v| ==> v[i] < TWO30
    ensures Fold(c, v) < TWO30
  {
    hide Step;
    if v != [] { StepBound(Fold(c, v[..|v| - 1]), v[|v| - 1]); }
  }

  function Room(n: nat): bv32
    requires n <= 6
  {
    if n == 0 then 1 else if n == 1 then 0x20 else if n == 2 then 0x400 else if n == 3 then 0x8000
    else if n == 4 then 0x10_0000 else if n == 5 then 0x200_0000 else 0x4000_0000
  }

  lemma RoomStart()
    ensures Room(0) == 1
  {
  }

  lemma StepPacks(c: bv32, v: bv32, n: nat)
    requires n < 6 && c < Room(n) && v < 32
    ensures Step(c, v) < Room(n + 1) && (Step(c, v) == 0 ==> c == 0 && v == 0)
  {
    hide Step;
    StepSmall(c, v);
  }

  /** Up to six groups are packed side by side. */
  lemma {:induction false} FoldPacks(v: Data)
    requires FiveBit(v) && |v| <= 6
    ensures Fold(0, v) < Room(|v|) && (Fold(0, v) == 0 ==> IsZero(v))
  {
    if v == [] {
      RoomStart();
    } else {
      FoldPacks(v[..|v| - 1]);
      FoldPacksMore(v, |v| - 1);
    }
  }

  lemma FoldPacksMore(v: Data, n: nat)
    requires FiveBit(v) && n + 1 == |v| <= 6
    requires Fold(0, v[..n]) < Room(n) && (Fold(0, v[..n]) == 0 ==> IsZero(v[..n]))
    ensures Fold(0, v) < Room(|v|) && (Fold(0, v) == 0 ==> IsZero(v))
  {
    hide Step, Room;
    StepPacks(Fold(0, v[..n]), v[n], n);
    if Fold(0, v) == 0 {
      assert forall i :: 0 <= i < n ==> v[i] == v[..n][i];
    }
  }

  // ------------------------------------------------------------ error detection

  /** The two words agree outside the six positions from `p` on. */
  ghost predicate AgreeOutside(v: Data, w: Data, p: nat) {
    |v| == |w| && forall i :: 0 <= i < |v| && !(p <= i < p + 6) ==> v[i] == w[i]
  }

  /** Errors within six neighbouring groups always change the checksum. */
  lemma WindowDetected(c: bv32, v: Data, w: Data, p: nat)
    requires AgreeOutside(v, w, p) && p <= |v| && FiveBit(v[p..]) && FiveBit(w[p..])
    requires Fold(c, v) == Fold(c, w)
    ensures v == w
  {
    hide Xor, Step, Fold;
    var e := XorAll(v, w);
    XorLaws(c, c, 0);
    XorLaws(Fold(c, v), Fold(c, v), 0);
    FoldLinear(c, c, v, w);
    assert Fold(0, e) == 0;
    var q := if p + 6 <= |v| then p + 6 else |v|;
    ErrorShape(v, w, p, q);
    assert e == e[..p] + e[p..q] + e[q..];
    FoldAppend(0, e[..p] + e[p..q], e[q..]);
    FoldAppend(0, e[..p], e[p..q]);
    FoldZeros(0, e[..p]);
    FoldPacks(e[p..q]);
    FoldZeros(Fold(0, e[p..q]), e[q..]);
    NoError(v, w);
  }

  lemma ErrorShape(v: Data, w: Data, p: nat, q: nat)
    requires AgreeOutside(v, w, p) && p <= q <= |v| && (q == p + 6 || q == |v|) && FiveBit(v[p..]) && FiveBit(w[p..])
    ensures var e := XorAll(v, w); IsZero(e[..p]) && FiveBit(e[p..q]) && IsZero(e[q..])
  {
    var e := XorAll(v, w);
    forall i | 0 <= i < |v| ensures (i < p || q <= i ==> e[i] == 0) && (p <= i ==> e[i] < 32) {
      XorLaws(v[i], 0, 0);
      if p <= i {
        assert v[i] == v[p..][i - p] && w[i] == w[p..][i - p];
        FiveBitXor(v[i], w[i]);
      }
    }
  }

  lemma FiveBitXor(a: bv32, b: bv32)
    requires a < 32 && b < 32
    ensures Xor(a, b) < 32
  {
  }

  lemma NoError(v: Data, w: Data)
    requires |v| == |w| && IsZero(XorAll(v, w))
    ensures v == w
  {
    forall i | 0 <= i < |v| ensures v[i] == w[i] {
      assert XorAll(v, w)[i] == Xor(v[i], w[i]);
    }
  }
}

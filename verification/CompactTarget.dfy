/**
 Compact targets: a 32-bit floating form of 256-bit numbers, with an 8-bit
 exponent of base 256, a sign bit and a 23-bit mantissa; and the proof of work
 a block with such a target stands for.
*/
module CompactTarget {
  import opened Prelude
  import opened Bits
  import opened Limbs
  import opened ArithUint256

  const SIGN: nat := 0x80_0000
  const MANTISSA: nat := 0x100_0000

  function Size(c: nat): nat { c / MANTISSA }
  function Word(c: nat): nat { c % SIGN }
  predicate Sign(c: nat) { c / SIGN % 2 == 1 }

  function P(k: nat): (p: nat)
    ensures p >= 1
  {
    Pow2(8 * k)
  }

  function Scale(x: nat, k: nat): nat { x * P(k) }

  function Unscale(x: nat, k: nat): nat { Quotient(x, P(k)) }

  function Quotient(x: nat, m: nat): nat
    requires m > 0
  {
    x / m
  }

  /** The number a compact form denotes, however large. */
  function Denoted(c: nat): nat {
    if Size(c) <= 3 then Unscale(Word(c), 3 - Size(c)) else Scale(Word(c), Size(c) - 3)
  }

  /** The number of bytes of `x`. */
  ghost function ByteLen(x: nat): nat {
    if x == 0 then 0 else 1 + ByteLen(x / 256)
  }

  /** The three leading bytes. */
  function Leading(x: nat, size: nat): nat {
    if size <= 3 then Scale(x, 3 - size) else Unscale(x, size - 3)
  }

  /** The compact form of a number of `size` bytes. */
  function Packed(x: nat, size: nat): nat {
    var m := Leading(x, size);
    if m >= SIGN then (size + 1) * MANTISSA + m / 256 else size * MANTISSA + m
  }

  ghost function Compact(x: nat): nat { Packed(x, ByteLen(x)) }

  // ------------------------------------------------------------ powers of 256

  lemma PStep(k: nat)
    ensures P(k + 1) == 256 * P(k) && P(0) == 1
  {
    Pow2Add(8, 8 * k);
    Pow2Values();
  }

  lemma PAdd(a: nat, b: nat)
    ensures P(a + b) == P(a) * P(b)
  {
    Pow2Add(8 * a, 8 * b);
  }

  lemma PValues()
    ensures P(0) == 1 && P(1) == 256 && P(2) == 65536 && P(3) == MANTISSA
  {
    Pow2Values();
    PStep(0);
  }

  lemma {:induction false} ByteLenBounds(x: nat)
    requires x > 0
    ensures ByteLen(x) > 0 && P(ByteLen(x) - 1) <= x < P(ByteLen(x))
  {
    if x < 256 {
      DivUnique(x, 256, 0, x);
      assert ByteLen(x) == 1;
      PValues();
    } else {
      DivMod(x, 256);
      assert x / 256 > 0;
      ByteLenBounds(x / 256);
      var n := ByteLen(x / 256);
      PStep(n - 1);
      PStep(n);
    }
  }

  lemma ByteLenUnique(x: nat, n: nat)
    requires n > 0 && P(n - 1) <= x < P(n)
    ensures ByteLen(x) == n
  {
    ByteLenBounds(x);
    var k := ByteLen(x);
    if k < n { Pow2Mono(8 * k, 8 * (n - 1)); }
    if n < k { Pow2Mono(8 * n, 8 * (k - 1)); }
  }

  // ------------------------------------------------------------ the leading bytes

  /** The three leading bytes are a number with its top byte nonzero. */
  lemma LeadingBounds(x: nat, n: nat)
    requires n > 0 && P(n - 1) <= x < P(n)
    ensures 65536 <= Leading(x, n) < MANTISSA
  {
    PValues();
    if n <= 3 {
      var f := P(3 - n);
      PAdd(n - 1, 3 - n);
      PAdd(n, 3 - n);
      MulMono(P(n - 1), x, f);
      MulStep(x, P(n), f);
    } else {
      var f := P(n - 3);
      PAdd(2, n - 3);
      PAdd(3, n - 3);
      DivLess(x, f, MANTISSA);
      DivAtLeast(x, f, 65536);
    }
  }

  lemma DivAtLeast(x: nat, m: nat, k: nat)
    requires m > 0 && k * m <= x
    ensures k <= x / m
  {
    DivMod(x, m);
    if x / m < k { MulStep(x / m, k, m); }
  }

  /** Taking a packed form apart again. */
  lemma Unpack(size: nat, m: nat)
    requires m < SIGN
    ensures Size(size * MANTISSA + m) == size && Word(size * MANTISSA + m) == m && !Sign(size * MANTISSA + m)
  {
    var c := size * MANTISSA + m;
    DivUnique(c, MANTISSA, size, m);
    DivUnique(c, SIGN, 2 * size, m);
  }

  // ------------------------------------------------------------ rounding

  /** Cutting a number to its multiple of `f` with a quotient of at least 2^15 loses less than one part in 2^15. */
  lemma CutBound(x: nat, f: nat)
    requires f > 0 && x / f >= 32768
    ensures x / f * f <= x && 32768 * (x - x / f * f) < x
  {
    var m := x / f;
    DivMod(x, f);
    MulMono(32768, m, f);
  }

  /** Dividing twice is dividing by the product. */
  lemma DivTwice(x: nat, a: nat, b: nat)
    requires a > 0 && b > 0
    ensures a * b > 0 && x / a / b == x / (a * b)
  {
    var y := x / a;
    var q := y / b;
    DivMod(x, a);
    DivMod(y, b);
    assert y * a == q * (b * a) + y % b * a by { DistributeRight(q * b, y % b, a); }
    MulStep(y % b, b, a);
    MulGe(a, b);
    assert a * b == b * a;
    DivUnique(x, a * b, q, y % b * a + x % a);
  }

  lemma SmallExact(x: nat, k: nat, m: nat)
    requires k <= 3 && m == x * P(3 - k) && m < SIGN
    ensures Denoted(k * MANTISSA + m) == x
  {
    Unpack(k, m);
    var f := P(3 - k);
    DivUnique(m, f, x, 0);
  }

  lemma LargeCut(x: nat, k: nat, m: nat)
    requires k > 3 && m == x / P(k - 3) && 32768 <= m < SIGN
    ensures var v := Denoted(k * MANTISSA + m);
            v == m * P(k - 3) && Close(v, x)
  {
    Unpack(k, m);
    CutBound(x, P(k - 3));
  }

  /** `v` is `x` cut by less than one part in 2^15. */
  predicate Close(v: nat, x: nat) { v <= x && 32768 * (x - v) < x }

  lemma RoundTripPlain(x: nat, n: nat)
    requires x > 0 && n > 0 && 65536 <= Leading(x, n) < SIGN
    ensures Close(Denoted(Packed(x, n)), x) && !Sign(Packed(x, n)) && Word(Packed(x, n)) == Leading(x, n)
  {
    var m := Leading(x, n);
    Unpack(n, m);
    if n <= 3 { SmallExact(x, n, m); } else { LargeCut(x, n, m); }
  }

  lemma RoundTripCarried(x: nat, n: nat)
    requires x > 0 && n > 0 && SIGN <= Leading(x, n) < MANTISSA
    ensures Close(Denoted(Packed(x, n)), x) && !Sign(Packed(x, n)) && Word(Packed(x, n)) == Leading(x, n) / 256 >= 32768
  {
    CarriedMantissa(x, n);
    var m := Leading(x, n) / 256;
    DivLess(Leading(x, n), 256, 65536);
    DivAtLeast(Leading(x, n), 256, 32768);
    Unpack(n + 1, m);
    if n <= 2 { SmallExact(x, n + 1, m); } else { LargeCut(x, n + 1, m); }
  }

  /**
   Packing and unpacking: never above the number, and below it by less than one
   part in 2^15. The result has no sign and its form denotes exactly it.
  */
  lemma RoundTrip(x: nat)
    requires x > 0
    ensures Close(Denoted(Compact(x)), x)
    ensures !Sign(Compact(x)) && Word(Compact(x)) >= 32768
  {
    var n := ByteLen(x);
    ByteLenBounds(x);
    LeadingBounds(x, n);
    if Leading(x, n) < SIGN {
      RoundTripPlain(x, n);
    } else {
      RoundTripCarried(x, n);
    }
  }

  /** Shifting the mantissa down by a byte is taking one byte less. */
  lemma CarriedMantissa(x: nat, n: nat)
    requires n > 0
    ensures n <= 2 ==> Leading(x, n) / 256 == x * P(3 - (n + 1))
    ensures n > 2 ==> Leading(x, n) / 256 == x / P(n + 1 - 3)
  {
    PValues();
    if n <= 2 {
      PStep(2 - n);
      assert x * (256 * P(2 - n)) == x * P(2 - n) * 256 by { TwoFiveSix(x, P(2 - n)); }
      DivUnique(x * P(3 - n), 256, x * P(2 - n), 0);
    } else if n == 3 {
      assert Leading(x, 3) == x * P(0) == x;
    } else {
      DivTwice(x, P(n - 3), 256);
      PStep(n - 3);
      assert P(n - 3) * 256 == P(n - 2);
    }
  }

  lemma TwoFiveSix(x: nat, p: nat)
    ensures x * (256 * p) == x * p * 256
  {
  }

  // ------------------------------------------------------------ stability

  /** Packing what was unpacked gives the same form. */
  lemma Stable(x: nat)
    requires x > 0
    ensures Compact(Denoted(Compact(x))) == Compact(x)
  {
    var n := ByteLen(x);
    ByteLenBounds(x);
    LeadingBounds(x, n);
    if Leading(x, n) < SIGN {
      StablePlain(x, n);
    } else {
      StableCarried(x, n);
    }
  }

  lemma StablePlain(x: nat, n: nat)
    requires x > 0 && n == ByteLen(x) > 0 && P(n - 1) <= x < P(n) && 65536 <= Leading(x, n) < SIGN
    ensures Compact(Denoted(Packed(x, n))) == Packed(x, n)
  {
    var m := Leading(x, n);
    if n <= 3 {
      SmallExact(x, n, m);
    } else {
      LargeCut(x, n, m);
      PlainAgain(m, n, x);
    }
  }

  /** A cut number has the length and the leading bytes it was cut from. */
  lemma PlainAgain(m: nat, n: nat, x: nat)
    requires n > 3 && m >= 65536 && m * P(n - 3) <= x < P(n)
    ensures ByteLen(m * P(n - 3)) == n && Leading(m * P(n - 3), n) == m
  {
    var f := P(n - 3);
    assert P(n - 1) == 65536 * f by { PAdd(2, n - 3); PValues(); }
    MulMono(65536, m, f);
    ByteLenUnique(m * f, n);
    DivUnique(m * f, f, m, 0);
  }

  lemma StableCarried(x: nat, n: nat)
    requires x > 0 && n == ByteLen(x) > 0 && P(n - 1) <= x < P(n) && SIGN <= Leading(x, n) < MANTISSA
    ensures Compact(Denoted(Packed(x, n))) == Packed(x, n)
  {
    hide Denoted, ByteLen, P;
    var l := Leading(x, n);
    var m := l / 256;
    assert Packed(x, n) == (n + 1) * MANTISSA + m;
    CarriedMantissa(x, n);
    DivLess(l, 256, 65536);
    DivAtLeast(l, 256, 32768);
    hide Packed, Leading;
    if n <= 2 {
      SmallExact(x, n + 1, m);
    } else {
      LargeCut(x, n + 1, m);
      CarriedStable(x, n, m);
    }
  }

  lemma CarriedStable(x: nat, n: nat, m: nat)
    requires n >= 3 && 32768 <= m < 65536 && m * P(n - 2) <= x < P(n)
    ensures Compact(m * P(n - 2)) == (n + 1) * MANTISSA + m
  {
    CarriedAgain(m, n);
    var v := m * P(n - 2);
    CarriedLength(m, n);
    MulMono(256, m, P(n - 2));
    ByteLenUnique(v, n);
    DivUnique(256 * m, 256, m, 0);
  }

  lemma CarriedLength(m: nat, n: nat)
    requires n >= 3
    ensures P(n - 1) == 256 * P(n - 2)
  {
    PStep(n - 2);
  }

  /** The leading bytes of a cut number are its mantissa, a byte up. */
  lemma CarriedAgain(m: nat, n: nat)
    requires n >= 3
    ensures Leading(m * P(n - 2), n) == 256 * m
  {
    PValues();
    if n > 3 {
      PStep(n - 3);
      TwoFiveSix(m, P(n - 3));
      DivUnique(m * P(n - 2), P(n - 3), 256 * m, 0) by { assert 256 * m * P(n - 3) == m * (256 * P(n - 3)); }
    } else {
      assert Leading(m * P(1), 3) == m * P(1) * P(0);
    }
  }

  // ------------------------------------------------------------ overflow

  /** The test the source makes on the exponent and the mantissa. */
  predicate OverflowTest(c: nat) {
    var size, word := Size(c), Word(c);
    word != 0 && (size > 34 || (word > 0xff && size > 33) || (word > 0xffff && size > 32))
  }

  /** The test is exact: it holds just when the number does not fit in 256 bits. */
  lemma OverflowExact(c: nat)
    ensures OverflowTest(c) <==> Denoted(c) >= M
  {
    var size, word := Size(c), Word(c);
    ModBelow(c, SIGN);
    MPower();
    if size <= 3 {
      DenotedSmall(c);
    } else if size <= 32 {
      NoOverflow(word, size);
    } else if size > 34 {
      PMono(32, size - 3);
      if word > 0 { MulGe(P(size - 3), word); }
    } else {
      OverflowEdge(word, size);
      PValues();
    }
  }

  lemma NoOverflow(word: nat, size: nat)
    requires 3 < size <= 32 && word < SIGN
    ensures word * P(size - 3) < P(32)
  {
    var f := P(size - 3);
    PMono(size, 32);
    assert P(size) == MANTISSA * f by { PAdd(3, size - 3); PValues(); }
    MulStep(word, MANTISSA, f);
  }

  lemma MPower()
    ensures M == P(32)
  {
    WPow2(WIDTH);
  }

  lemma PMono(a: nat, b: nat)
    requires a <= b
    ensures P(a) <= P(b)
  {
    Pow2Mono(8 * a, 8 * b);
  }

  lemma DenotedSmall(c: nat)
    requires Size(c) <= 3
    ensures Denoted(c) <= Word(c) < M
  {
    ModBelow(c, SIGN);
    MPower();
    PMono(3, 32);
    PValues();
    DivSmaller(Word(c), P(3 - Size(c)));
  }

  lemma DivSmaller(x: nat, m: nat)
    requires m > 0
    ensures x / m <= x
  {
    DivMod(x, m);
    MulGe(x / m, m);
  }

  lemma OverflowEdge(word: nat, size: nat)
    requires size == 33 || size == 34
    ensures word * P(size - 3) >= P(32) <==> word >= P(35 - size)
  {
    PAdd(35 - size, size - 3);
    var f := P(size - 3);
    if word >= P(35 - size) {
      MulMono(P(35 - size), word, f);
    } else {
      MulStep(word, P(35 - size), f);
    }
  }

  // ------------------------------------------------------------ the operations

  /** Unpack: the value modulo 2^256, whether it is negative and whether it did not fit. */
  method SetCompact(a: BaseUint, c: nat) returns (negative: bool, overflow: bool)
    requires a.Valid() && c < 0x1_0000_0000
    modifies a.pn
    ensures a.Valid() && a.V() == Denoted(c) % M
    ensures overflow <==> Denoted(c) >= M
    ensures negative <==> Sign(c) && (if Size(c) <= 3 then Denoted(c) else Word(c)) != 0
  {
    var size, word := c / MANTISSA, c % SIGN;
    ModBelow(c, SIGN);
    OverflowExact(c);
    if size <= 3 {
      DenotedSmall(c);
      word := word / Pow2(8 * (3 - size));
      assert word == Denoted(c);
      a.Set64(word);
      SmallMod(word, M);
    } else {
      a.Set64(word);
      a.ShlAssign(8 * (size - 3));
    }
    negative := word != 0 && c / SIGN % 2 == 1;
    overflow := word != 0 && (size > 34 || (word > 0xff && size > 33) || (word > 0xffff && size > 32));
    assert size <= 3 ==> !OverflowTest(c) && !overflow;
  }

  /** Pack: the compact form of the value, with the sign bit if asked for and the mantissa is not zero. */
  method GetCompact(a: BaseUint, negative: bool) returns (c: nat)
    requires a.Valid()
    ensures c == Compact(a.V()) + (if negative && Word(Compact(a.V())) != 0 then SIGN else 0)
  {
    var bits := a.BitLength();
    var size := (bits + 7) / 8;
    SizeIsByteLen(a.V(), bits);
    c := LeadingBytes(a, size);
    PackedParts(a.V(), size);
    if c / SIGN % 2 == 1 {
      c := c / 256;
      size := size + 1;
    }
    assert c < SIGN && size < 256;
    PackOr(size, c);
    c := Or(c, size * MANTISSA);
    Unpack(size, c - size * MANTISSA);
    if negative && c % SIGN != 0 {
      SignOr(size, c - size * MANTISSA);
      c := Or(c, SIGN);
    }
  }

  method LeadingBytes(a: BaseUint, size: nat) returns (m: nat)
    requires a.Valid() && size == ByteLen(a.V())
    ensures m == Leading(a.V(), size)
  {
    LeadingFits(a.V(), size);
    if size <= 3 {
      var low := a.Low64();
      m := low * Pow2(8 * (3 - size)) % BASE;
      SmallMod(Leading(a.V(), size), BASE);
    } else {
      var bn := new BaseUint.Copy(a);
      bn.ShrAssign(8 * (size - 3));
      var low := bn.Low64();
      m := low % BASE;
      SmallMod(low, BASE);
    }
  }

  lemma LeadingFits(x: nat, n: nat)
    requires n == ByteLen(x)
    ensures Leading(x, n) < MANTISSA && (n <= 3 ==> x < MANTISSA)
  {
    PValues();
    if x > 0 {
      ByteLenBounds(x);
      LeadingBounds(x, n);
      if n <= 3 { PMono(n, 3); }
    }
  }

  lemma SizeIsByteLen(x: nat, bits: nat)
    requires x == 0 <==> bits == 0
    requires bits > 0 ==> Pow2(bits - 1) <= x < Pow2(bits)
    ensures (bits + 7) / 8 == ByteLen(x)
  {
    if bits > 0 {
      var n := (bits + 7) / 8;
      Pow2Mono(8 * (n - 1), bits - 1);
      Pow2Mono(bits, 8 * n);
      ByteLenUnique(x, n);
    }
  }

  lemma PackedParts(x: nat, n: nat)
    requires n == ByteLen(x)
    ensures var m := Leading(x, n);
            && m < MANTISSA && (m / SIGN % 2 == 1 <==> m >= SIGN)
            && m / 256 < SIGN
  {
    LeadingFits(x, n);
    var m := Leading(x, n);
    if m >= SIGN { DivUnique(m, SIGN, 1, m - SIGN); } else { DivUnique(m, SIGN, 0, m); }
    DivLess(m, 256, SIGN);
  }

  lemma PackOr(size: nat, m: nat)
    requires m < SIGN
    ensures Or(m, size * MANTISSA) == size * MANTISSA + m
  {
    Pow2Values();
    DivUnique(size * MANTISSA, MANTISSA, size, 0);
    OrDisjoint(size * MANTISSA, m, 24);
  }

  lemma SignOr(size: nat, m: nat)
    requires m < SIGN
    ensures Or(size * MANTISSA + m, SIGN) == size * MANTISSA + m + SIGN
  {
    var x := size * MANTISSA + m;
    OrBit(x, 23) by {
      Pow2Values();
      DivUnique(x, SIGN, 2 * size, m);
    }
    Pow2Values();
  }

  /** Setting a clear bit adds it. */
  lemma {:induction false} OrBit(x: nat, t: nat)
    requires x / Pow2(t) % 2 == 0
    ensures Or(x, Pow2(t)) == x + Pow2(t)
  {
    if t == 0 {
      assert x / Pow2(0) == x;
      if x != 0 { assert Or(x / 2, 0) == x / 2; }
    } else if x != 0 {
      var b := Pow2(t - 1);
      DivTwice(x, 2, b);
      OrBit(x / 2, t - 1);
      DivUnique(Pow2(t), 2, b, 0);
    }
  }

  /**
   The work a block with compact target `nBits` stands for: the number of hashes
   expected to find one, 2^256 divided by the target plus one, rounded down.
  */
  method GetBlockProof(nBits: nat) returns (work: BaseUint)
    requires nBits < 0x1_0000_0000
    ensures fresh(work) && work.Valid()
    ensures Sign(nBits) && (if Size(nBits) <= 3 then Denoted(nBits) else Word(nBits)) != 0 ==> work.V() == 0
    ensures Denoted(nBits) >= M || Denoted(nBits) == 0 ==> work.V() == 0
    ensures !Sign(nBits) && 0 < Denoted(nBits) < M ==> work.V() == M / (Denoted(nBits) + 1)
  {
    var target := new BaseUint.FromUint64(0);
    var negative, overflow := SetCompact(target, nBits);
    var zero := new BaseUint.FromUint64(0);
    var c := target.CompareTo(zero);
    if negative || overflow || c == 0 {
      if Denoted(nBits) < M { SmallMod(Denoted(nBits), M); }
      return zero;
    }
    SmallMod(Denoted(nBits), M);
    TargetPlusOne(nBits);
    work := ProofOf(target);
  }

  method ProofOf(target: BaseUint) returns (work: BaseUint)
    requires target.Valid() && 0 < target.V() && target.V() + 1 < M
    ensures fresh(work) && work.Valid() && work.V() == M / (target.V() + 1)
  {
    hide Val, Pow2;
    ghost var t := target.V();
    var one := new BaseUint.FromUint64(1);
    var divisor := new BaseUint.Copy(target);
    divisor.AddAssign(one);
    SmallMod(t + 1, M);
    assert divisor.V() == t + 1;
    work := target.Not();
    assert work.V() == M - 1 - t;
    work := Quotient256(work, divisor);
    ProofQuotient(t);
    work.AddAssign(one);
  }

  method Quotient256(x: BaseUint, d: BaseUint) returns (q: BaseUint)
    requires x.Valid() && d.Valid() && d.V() != 0
    ensures fresh(q) && fresh(q.pn) && q.Valid() && q.V() == x.V() / d.V()
  {
    q := new BaseUint.Copy(x);
    var ok := q.DivAssign(d);
  }

  /** The target plus one still fits in 256 bits. */
  lemma TargetPlusOne(c: nat)
    requires Denoted(c) < M
    ensures Denoted(c) + 1 < M && (Denoted(c) + 1) % M == Denoted(c) + 1
  {
    if Size(c) <= 3 {
      DenotedSmall(c);
      ModBelow(c, SIGN);
      MPower();
      PMono(3, 32);
      PValues();
    } else {
      MultipleOf256(Word(c), Size(c) - 3);
      MPower();
      MultipleOf256(1, 32);
    }
    SmallMod(Denoted(c) + 1, M);
  }

  lemma MultipleOf256(w: nat, k: nat)
    requires k > 0
    ensures w * P(k) % 256 == 0
  {
    PStep(k - 1);
    TwoFiveSix(w, P(k - 1));
    DivUnique(w * P(k), 256, w * P(k - 1), 0);
  }

  lemma ProofQuotient(t: nat)
    requires 0 < t && t + 1 < M
    ensures (M - 1 - t) / (t + 1) + 1 == M / (t + 1)
    ensures ((M - 1 - t) / (t + 1) + 1) % M == (M - 1 - t) / (t + 1) + 1
  {
    ProofQuotientAt(M, t + 1);
    HalfOrLess(M, t + 1);
    SmallMod(M / (t + 1), M);
  }

  lemma ProofQuotientAt(m: nat, d: nat)
    requires 0 < d <= m
    ensures (m - d) / d + 1 == m / d
  {
    var q := (m - d) / d;
    DivMod(m - d, d);
    assert (q + 1) * d == q * d + d;
    DivUnique(m, d, q + 1, (m - d) % d);
  }

  lemma HalfOrLess(m: nat, d: nat)
    requires d >= 2 && m > 0
    ensures m / d < m
  {
    DivMod(m, d);
    MulMono(2, d, m / d);
  }
}

/**
 256-bit unsigned integers: eight 32-bit limbs, overwritten in place by the
 carry, shift and division loops. Every operation is proved to do arithmetic
 modulo 2^256 on the value `V()`.
*/
module ArithUint256 {
  import opened Prelude
  import opened Bits
  import opened Limbs

  /** 2^256 */
  ghost const M: nat := W(WIDTH)

  class BaseUint {
    const pn: array<nat>

    ghost predicate Valid()
      reads pn
    {
      pn.Length == WIDTH && AreLimbs(pn[..])
    }

    ghost function V(): nat
      reads pn
    {
      Val(pn[..])
    }

    constructor Copy(b: BaseUint)
      requires b.Valid()
      ensures Valid() && V() == b.V() && fresh(pn)
    {
      pn := new nat[WIDTH](i => 0);
      new;
      var i := 0;
      while i < WIDTH
        invariant 0 <= i <= WIDTH && fresh(pn) && pn.Length == WIDTH && pn[..i] == b.pn[..i]
      {
        pn[i] := b.pn[i];
        i := i + 1;
      }
      assert pn[..] == b.pn[..];
    }

    constructor FromUint64(b: nat)
      requires b < BASE * BASE
      ensures Valid() && V() == b && fresh(pn)
    {
      pn := new nat[WIDTH](i => if i == 0 then b % BASE else if i == 1 then b / BASE else 0);
      new;
      DivLess(b, BASE, BASE);
      LowLimbs(pn[..], b);
    }

    method Set64(b: nat)
      requires Valid() && b < BASE * BASE
      modifies pn
      ensures Valid() && V() == b
    {
      Clear();
      pn[0] := b % BASE;
      DivLess(b, BASE, BASE);
      pn[1] := b / BASE;
      LowLimbs(pn[..], b);
    }

    method Low64() returns (r: nat)
      requires Valid()
      ensures V() < BASE * BASE ==> r == V()
    {
      r := Or(pn[0], pn[1] * BASE);
      JoinLow(pn[..]);
    }

    // ---------------------------------------------------------- addition

    method AddAssign(b: BaseUint)
      requires Valid() && b.Valid()
      modifies pn
      ensures Valid() && V() == (old(V()) + old(b.V())) % M
    {
      var carry: nat, i := 0, 0;
      ghost var x, y := pn[..], b.pn[..];
      while i < WIDTH
        invariant 0 <= i <= WIDTH && Valid() && carry <= 1
        invariant pn[i..] == x[i..] && b.pn[i..] == y[i..]
        invariant Val(pn[..][..i]) + carry * W(i) == Val(x[..i]) + Val(y[..i])
      {
        assert pn[i] == x[i] && b.pn[i] == y[i];
        var n := carry + pn[i] + b.pn[i];
        AddLimb(pn[..], x, y, i, carry, n);
        pn[i] := n % BASE;
        carry := n / BASE;
        i := i + 1;
      }
      assert pn[..WIDTH] == pn[..] && x[..WIDTH] == x && y[..WIDTH] == y;
      ValBound(pn[..]);
      Wraps(V(), carry, Val(x) + Val(y), M);
    }

    /** `~`: the complement 2^256 - 1 - V. */
    method Not() returns (r: BaseUint)
      requires Valid()
      ensures fresh(r) && fresh(r.pn) && r.Valid() && r.V() + V() == M - 1
    {
      r := new BaseUint.FromUint64(0);
      var i := 0;
      while i < WIDTH
        invariant 0 <= i <= WIDTH && r.Valid()
        invariant forall k :: 0 <= k < i ==> r.pn[k] == BASE - 1 - pn[k]
      {
        r.pn[i] := BASE - 1 - pn[i];
        i := i + 1;
      }
      ValNot(pn[..], r.pn[..]);
    }

    method Increment()
      requires Valid()
      modifies pn
      ensures Valid() && V() == (old(V()) + 1) % M
    {
      var i := 0;
      ghost var x: seq<nat> := pn[..];
      WStep(0);
      while i < WIDTH
        invariant 0 <= i <= WIDTH && Valid() && forall k :: i <= k < WIDTH ==> pn[..][k] == x[k]
        invariant Val(pn[..][..i]) + W(i) == Val(x[..i]) + 1
      {
        ghost var p: seq<nat> := pn[..];
        IncLimb(p, x, i);
        pn[i] := (pn[i] + 1) % BASE;
        assert pn[..] == p[i := (x[i] + 1) % BASE];
        if pn[i] != 0 { return; }
        i := i + 1;
      }
      IncEnd(pn[..], x);
    }

    /** Two's complement negation. */
    method Negate() returns (r: BaseUint)
      requires Valid()
      ensures fresh(r) && fresh(r.pn) && r.Valid() && r.V() == (M - V()) % M
    {
      r := Not();
      r.Increment();
    }

    method SubAssign(b: BaseUint)
      requires Valid() && b.Valid()
      modifies pn
      ensures Valid() && V() == (old(V()) + M - old(b.V())) % M
    {
      var n := b.Negate();
      ValBound(b.pn[..]);
      ghost var x, y := V(), b.V();
      AddAssign(n);
      SubWraps(x, y, M);
    }

    // ---------------------------------------------------------- shifts

    method Clear()
      requires pn.Length == WIDTH
      modifies pn
      ensures Valid() && forall j :: 0 <= j < WIDTH ==> pn[j] == 0
    {
      var i := 0;
      while i < WIDTH
        invariant 0 <= i <= WIDTH && forall j :: 0 <= j < i ==> pn[j] == 0
      {
        pn[i] := 0;
        i := i + 1;
      }
    }

    method ShlAssign(shift: nat)
      requires Valid()
      modifies pn
      ensures Valid() && V() == old(V()) * Pow2(shift) % M
    {
      var a: seq<nat> := pn[..];
      Clear();
      var k, s := shift / 32, shift % 32;
      ShlStart(pn[..], a, k, s);
      var i := 0;
      while i < WIDTH
        invariant 0 <= i <= WIDTH && Valid() && ShlState(pn[..], a, k, s, i)
      {
        ShlLimb(a, k, s, i);
        i := i + 1;
      }
      assert a[..WIDTH] == a;
      ShlEnd(pn[..], a, k, s);
    }

    method ShlLimb(a: seq<nat>, k: nat, s: nat, i: nat)
      requires Valid() && |a| == WIDTH && AreLimbs(a) && s < 32 && i < WIDTH && ShlState(pn[..], a, k, s, i)
      modifies pn
      ensures Valid() && ShlState(pn[..], a, k, s, i + 1)
    {
      ghost var p: seq<nat> := pn[..];
      if i + k + 1 < WIDTH {
        ShlInside(p, a, k, s, i);
      } else if i + k < WIDTH {
        ShlLast(p, a, k, s, i);
      } else {
        ShlBeyond(p, a, k, s, i);
      }
      if i + k + 1 < WIDTH && s != 0 {
        pn[i + k + 1] := Or(pn[i + k + 1], a[i] / Pow2(32 - s));
      } else if i + k + 1 < WIDTH {
        HighNone(a[i]);
      }
      if i + k < WIDTH {
        pn[i + k] := Or(pn[i + k], a[i] * Pow2(s) % BASE);
      }
      if i + k + 1 < WIDTH {
        assert pn[..] == p[i + k + 1 := High(a[i], s)][i + k := p[i + k] + Low(a[i], s)];
      } else if i + k < WIDTH {
        assert pn[..] == p[i + k := p[i + k] + Low(a[i], s)];
      }
    }

    method ShrAssign(shift: nat)
      requires Valid()
      modifies pn
      ensures Valid() && V() == old(V()) / Pow2(shift)
    {
      var a: seq<nat> := pn[..];
      Clear();
      var k, s := shift / 32, shift % 32;
      var i := 0;
      while i < WIDTH
        invariant 0 <= i <= WIDTH && Valid() && ShrState(pn[..], a, k, s, i)
      {
        ShrLimb(a, k, s, i);
        i := i + 1;
      }
      ShrDone(pn[..], a, k, s);
    }

    method ShrLimb(a: seq<nat>, k: nat, s: nat, i: nat)
      requires Valid() && |a| == WIDTH && AreLimbs(a) && s < 32 && i < WIDTH && ShrState(pn[..], a, k, s, i)
      modifies pn
      ensures Valid() && ShrState(pn[..], a, k, s, i + 1)
    {
      ghost var p: seq<nat> := pn[..];
      if i > k {
        ShrNext(p, a, k, s, i);
      } else if i == k {
        ShrFirst(p, a, k, s);
      }
      if i >= k + 1 && s != 0 {
        pn[i - k - 1] := Or(pn[i - k - 1], a[i] * Pow2(32 - s) % BASE);
      }
      if i >= k {
        pn[i - k] := Or(pn[i - k], a[i] / Pow2(s));
      }
      if i > k {
        assert pn[..] == p[i - k := High(a[i], 32 - s)][i - k - 1 := p[i - k - 1] + Low(a[i], 32 - s)];
      } else if i == k {
        assert pn[..] == p[0 := High(a[k], 32 - s)];
      }
    }

    // ---------------------------------------------------------- comparing

    /** -1, 0 or 1 as the value is below, equal to or above that of `b`. */
    method CompareTo(b: BaseUint) returns (c: int)
      requires Valid() && b.Valid()
      ensures c == if V() < b.V() then -1 else if V() > b.V() then 1 else 0
    {
      var i := WIDTH;
      while i > 0
        invariant 0 <= i <= WIDTH && pn[..][i..] == b.pn[..][i..]
      {
        i := i - 1;
        if pn[i] < b.pn[i] {
          CompareAt(pn[..], b.pn[..], i);
          return -1;
        }
        if pn[i] > b.pn[i] {
          CompareAt(b.pn[..], pn[..], i);
          return 1;
        }
        assert pn[..][i..] == [pn[i]] + pn[..][i + 1..];
        assert b.pn[..][i..] == [b.pn[i]] + b.pn[..][i + 1..];
      }
      assert pn[..][0..] == pn[..] && b.pn[..][0..] == b.pn[..];
      c := 0;
    }

    /** The position of the highest set bit, counted from one; zero for zero. */
    method BitLength() returns (n: nat)
      requires Valid()
      ensures n <= 256
      ensures V() == 0 <==> n == 0
      ensures n > 0 ==> Pow2(n - 1) <= V() < Pow2(n)
    {
      var pos := WIDTH;
      while pos > 0
        invariant 0 <= pos <= WIDTH && forall k :: pos <= k < WIDTH ==> pn[..][k] == 0
      {
        pos := pos - 1;
        if pn[pos] != 0 {
          var nbits := HighestBit(pn[pos]);
          TopLimb(pn[..], pos, nbits);
          return 32 * pos + nbits + 1;
        }
      }
      ValZero(pn[..]);
      n := 0;
    }

    // ---------------------------------------------------------- division

    /** Set a bit below every bit set so far. */
    method SetBit(n: nat)
      requires Valid() && n < 256 && V() % Pow2(n + 1) == 0
      modifies pn
      ensures Valid() && V() == old(V()) + Pow2(n)
    {
      var j, t := n / 32, n % 32;
      ghost var p: seq<nat> := pn[..];
      BitFree(p, j, t);
      pn[j] := Or(pn[j], Pow2(t));
      assert pn[..] == p[j := p[j] + Pow2(t)];
      ValAdd(p, j, Pow2(t));
      WPow2(j);
      Pow2Add(t, 32 * j);
    }

    /**
     Division by shifting and subtracting: the exact floor quotient, for every
     nonzero divisor. Dividing by zero fails.
    */
    method DivAssign(b: BaseUint) returns (ok: bool)
      requires Valid() && b.Valid()
      modifies pn
      ensures Valid()
      ensures ok <==> old(b.V()) != 0
      ensures ok ==> V() == old(V()) / old(b.V())
    {
      var div := new BaseUint.Copy(b);
      var num := new BaseUint.Copy(this);
      ghost var d, n := b.V(), V();
      Clear();
      ValZero(pn[..]);
      var numBits := num.BitLength();
      var divBits := div.BitLength();
      if divBits == 0 { return false; }
      if divBits > numBits {
        ShorterIsLess(n, d, numBits, divBits);
        return true;
      }
      var shift: int := numBits - divBits;
      AlignFits(n, d, numBits, divBits);
      div.ShlAssign(shift);
      while shift >= 0
        invariant -1 <= shift < 256 && Valid() && div.Valid() && num.Valid()
        invariant fresh(div.pn) && fresh(num.pn) && div.pn != num.pn && div.pn != pn && num.pn != pn
        invariant shift >= 0 ==> div.V() == d * Pow2(shift)
        invariant DivState(n, d, V(), num.V(), shift)
      {
        DivideStep(num, div, d, n, shift);
        shift := shift - 1;
      }
      DivDone(n, d, V(), num.V());
      ok := true;
    }

    method DivideStep(num: BaseUint, div: BaseUint, ghost d: nat, ghost n: nat, shift: nat)
      requires Valid() && div.Valid() && num.Valid() && div.pn != num.pn && div.pn != pn && num.pn != pn
      requires shift < 256 && div.V() == d * Pow2(shift) && DivState(n, d, V(), num.V(), shift)
      modifies pn, num.pn, div.pn
      ensures Valid() && div.Valid() && num.Valid()
      ensures shift > 0 ==> div.V() == d * Pow2(shift - 1)
      ensures DivState(n, d, V(), num.V(), shift - 1)
    {
      DivStateStep(n, d, V(), num.V(), shift);
      var c := num.CompareTo(div);
      if c >= 0 {
        ExactSub(num.pn[..], div.V());
        num.SubAssign(div);
        SetBit(shift);
      }
      div.ShrAssign(1);
      if shift > 0 { HalfDivisor(d, shift); }
    }
  }

  lemma LowLimbs(s: seq<nat>, b: nat)
    requires |s| == WIDTH && s[0] == b % BASE && s[1] == b / BASE
    requires forall i :: 2 <= i < WIDTH ==> s[i] == 0
    ensures Val(s) == b
  {
    ValSplit(s, 2);
    ValZero(s[2..]);
    ValPrefix(s, 0);
    ValPrefix(s, 1);
    WStep(0);
    DivMod(b, BASE);
  }

  lemma JoinLow(s: seq<nat>)
    requires |s| == WIDTH && AreLimbs(s)
    ensures Val(s) < BASE * BASE ==> Or(s[0], s[1] * BASE) == Val(s)
  {
    Pow2Values();
    DivUnique(s[1] * BASE, BASE, s[1], 0);
    OrDisjoint(s[1] * BASE, s[0], 32);
    ValSplit(s, 2);
    ValPrefix(s, 0);
    ValPrefix(s, 1);
    WStep(0);
    WStep(1);
    if Val(s[2..]) > 0 { MulGe(W(2), Val(s[2..])); }
  }

  /** One limb of an addition. */
  lemma AddLimb(p: seq<nat>, x: seq<nat>, y: seq<nat>, i: nat, c: nat, n: nat)
    requires |p| == |x| == |y| == WIDTH && i < WIDTH && n == c + x[i] + y[i]
    requires Val(p[..i]) + c * W(i) == Val(x[..i]) + Val(y[..i])
    ensures Val(p[i := n % BASE][..i + 1]) + n / BASE * W(i + 1) == Val(x[..i + 1]) + Val(y[..i + 1])
  {
    var p' := p[i := n % BASE];
    assert p'[..i] == p[..i];
    ValPrefix(p', i); ValPrefix(x, i); ValPrefix(y, i); WStep(i);
    DivMod(n, BASE);
    AddStep(Val(p[..i]), c, W(i), Val(x[..i]), Val(y[..i]), x[i], y[i], n % BASE, n / BASE);
  }

  /** One limb of an increment: done, unless it wraps to zero. */
  lemma IncLimb(p: seq<nat>, x: seq<nat>, i: nat)
    requires |p| == |x| == WIDTH && i < WIDTH && AreLimbs(p) && AreLimbs(x)
    requires (forall k :: i <= k < WIDTH ==> p[k] == x[k])
    requires Val(p[..i]) + W(i) == Val(x[..i]) + 1
    ensures var p' := p[i := (x[i] + 1) % BASE];
            if p'[i] == 0 then Val(p'[..i + 1]) + W(i + 1) == Val(x[..i + 1]) + 1 else Val(p') == (Val(x) + 1) % M
  {
    hide Val, W;
    var p' := p[i := (x[i] + 1) % BASE];
    assert p'[..i] == p[..i];
    assert p'[i + 1..] == x[i + 1..];
    if p'[i] == 0 {
      ValPrefix(p', i); ValPrefix(x, i); WStep(i);
      IncStep(x[i], W(i));
    } else {
      IncStop(p', x, i);
    }
  }

  lemma IncEnd(p: seq<nat>, x: seq<nat>)
    requires |p| == |x| == WIDTH && AreLimbs(p)
    requires Val(p[..WIDTH]) + W(WIDTH) == Val(x[..WIDTH]) + 1
    ensures Val(p) == (Val(x) + 1) % M
  {
    assert p[..WIDTH] == p && x[..WIDTH] == x;
    ValBound(p);
    Wraps(Val(p), 1, Val(x) + 1, M);
  }

  /** Incrementing a limb without carry. */
  lemma IncStop(p: seq<nat>, x: seq<nat>, i: nat)
    requires |p| == |x| == WIDTH && i < WIDTH && AreLimbs(p) && AreLimbs(x)
    requires p[i] == x[i] + 1 && p[i + 1..] == x[i + 1..]
    requires Val(p[..i]) + W(i) == Val(x[..i]) + 1
    ensures Val(p) == (Val(x) + 1) % M
  {
    IncStopVal(p, x, i);
    ValBound(p);
    SmallMod(Val(p), W(WIDTH));
  }

  lemma IncStopVal(p: seq<nat>, x: seq<nat>, i: nat)
    requires |p| == |x| && i < |x|
    requires p[i] == x[i] + 1 && p[i + 1..] == x[i + 1..]
    requires Val(p[..i]) + W(i) == Val(x[..i]) + 1
    ensures Val(p) == Val(x) + 1
  {
    SameTail(p, x, i + 1);
    HeadPlusOne(p, x, i);
  }

  lemma HeadPlusOne(p: seq<nat>, x: seq<nat>, i: nat)
    requires |p| == |x| && i < |x| && p[i] == x[i] + 1
    requires Val(p[..i]) + W(i) == Val(x[..i]) + 1
    ensures Val(p[..i + 1]) == Val(x[..i + 1]) + 1
  {
    var w := W(i);
    assert Val(p[..i + 1]) == Val(p[..i]) + p[i] * w by { ValPrefix(p, i); }
    assert Val(x[..i + 1]) == Val(x[..i]) + x[i] * w by { ValPrefix(x, i); }
    IncStopStep(x[i], w);
  }

  lemma SameTail(p: seq<nat>, x: seq<nat>, j: nat)
    requires |p| == |x| && j <= |x| && p[j..] == x[j..]
    ensures Val(p) + Val(x[..j]) == Val(x) + Val(p[..j])
  {
    ValSplit(p, j);
    ValSplit(x, j);
  }

  lemma SmallMod(v: nat, m: nat)
    requires v < m
    ensures v % m == v
  {
    DivUnique(v, m, 0, v);
  }

  lemma IncStopStep(a: nat, w: nat)
    ensures (a + 1) * w == a * w + w
  {
  }

  lemma IncStep(a: nat, w: nat)
    requires (a + 1) % BASE == 0 && a < BASE
    ensures BASE * w == w + a * w
  {
    assert a == BASE - 1;
    assert (BASE - 1) * w == BASE * w - w;
  }

  lemma SubWraps(x: nat, y: nat, m: nat)
    requires y < m
    ensures (x + (m - y) % m) % m == (x + m - y) % m
  {
    if y == 0 {
      DivUnique(m, m, 1, 0);
      DivMod(x, m);
      DivUnique(x + m, m, x / m + 1, x % m);
    } else {
      DivUnique(m - y, m, 0, m - y);
    }
  }

  lemma ShlStart(p: seq<nat>, a: seq<nat>, k: nat, s: nat)
    requires |p| == WIDTH && AreLimbs(p) && forall j :: 0 <= j < WIDTH ==> p[j] == 0
    ensures ShlState(p, a, k, s, 0)
  {
    ValZero(p);
    ValZero([]);
    assert a[..0] == [];
    DivUnique(0, W(WIDTH), 0, 0);
  }

  lemma ShlEnd(p: seq<nat>, a: seq<nat>, k: nat, s: nat)
    requires |a| == WIDTH && a[..WIDTH] == a && ShlState(p, a, k, s, WIDTH)
    ensures Val(p) == Val(a) * Pow2(32 * k + s) % M
  {
  }

  lemma HighNone(x: nat)
    requires x < BASE
    ensures High(x, 0) == 0
  {
    Pow2Values();
    DivUnique(x, BASE, 0, x);
  }

  // ------------------------------------------------------------ bit length

  /** The test `x & (1 << n)`. */
  predicate TestBit(x: nat, n: nat) {
    x / Pow2(n) % 2 == 1
  }

  method HighestBit(x: nat) returns (n: nat)
    requires 0 < x < BASE
    ensures n < 32 && Pow2(n) <= x < Pow2(n + 1)
  {
    n := 31;
    Pow2Values();
    while n > 0
      invariant 0 <= n < 32 && x < Pow2(n + 1)
    {
      BitDecides(x, n);
      if TestBit(x, n) { return; }
      n := n - 1;
    }
  }

  lemma BitDecides(x: nat, n: nat)
    requires x < Pow2(n + 1)
    ensures TestBit(x, n) <==> Pow2(n) <= x
  {
    var b := Pow2(n);
    if b <= x {
      DivUnique(x, b, 1, x - b);
    } else {
      DivUnique(x, b, 0, x);
    }
  }

  /** The highest nonzero limb and its highest bit give the length. */
  lemma TopLimb(s: seq<nat>, pos: nat, n: nat)
    requires |s| == WIDTH && AreLimbs(s) && pos < WIDTH && n < 32
    requires Pow2(n) <= s[pos] < Pow2(n + 1) && forall k :: pos < k < WIDTH ==> s[k] == 0
    ensures Pow2(32 * pos + n) <= Val(s) < Pow2(32 * pos + n + 1)
  {
    hide Val, W;
    ValSplit(s, pos + 1);
    ValZero(s[pos + 1..]);
    ValPrefix(s, pos);
    ValBound(s[..pos]);
    WPow2(pos);
    Pow2Add(32 * pos, n);
    Pow2Add(32 * pos, n + 1);
    TopArithmetic(s[pos], W(pos), Pow2(n), Val(s[..pos]));
  }

  lemma TopArithmetic(x: nat, w: nat, b: nat, r: nat)
    requires b <= x < 2 * b && r < w
    ensures w * b <= r + x * w < w * (2 * b)
  {
    MulMono(b, x, w);
    MulStep(x, 2 * b, w);
  }

  // ------------------------------------------------------------ division lemmas

  /** Quotient bits from `shift` up are settled; the rest is still in `r`. */
  ghost predicate DivState(n: nat, d: nat, q: nat, r: nat, shift: int)
    requires shift >= -1
  {
    n == q * d + r && r < d * Pow2(shift + 1) && q % Pow2(shift + 1) == 0
  }

  lemma DivStateStep(n: nat, d: nat, q: nat, r: nat, shift: nat)
    requires DivState(n, d, q, r, shift)
    ensures if r >= d * Pow2(shift) then DivState(n, d, q + Pow2(shift), r - d * Pow2(shift), shift - 1)
            else DivState(n, d, q, r, shift - 1)
  {
    var b := Pow2(shift);
    assert Pow2(shift + 1) == 2 * b;
    DivMod(q, 2 * b);
    var k := q / (2 * b);
    assert q == 2 * k * b by { TwiceProduct(k, b); }
    if r >= d * b {
      DistributeRight(q, b, d);
      DivUnique(q + b, b, 2 * k + 1, 0) by { DistributeRight(2 * k, 1, b); }
    } else {
      DivUnique(q, b, 2 * k, 0);
    }
    assert d * (2 * b) == d * b + d * b;
  }

  lemma TwiceProduct(k: nat, b: nat)
    ensures k * (2 * b) == 2 * k * b
  {
  }

  lemma DistributeRight(x: nat, y: nat, m: nat)
    ensures (x + y) * m == x * m + y * m
  {
  }

  lemma DivDone(n: nat, d: nat, q: nat, r: nat)
    requires DivState(n, d, q, r, -1)
    ensures d > 0 && q == n / d
  {
    assert Pow2(0) == 1;
    DivUnique(n, d, q, r);
  }

  lemma ShorterIsLess(n: nat, d: nat, nb: nat, db: nat)
    requires db > nb && Pow2(db - 1) <= d && (n == 0 <==> nb == 0) && (nb > 0 ==> n < Pow2(nb))
    ensures n / d == 0
  {
    if nb > 0 { Pow2Mono(nb, db - 1); }
    DivUnique(n, d, 0, n);
  }

  lemma AlignFits(n: nat, d: nat, nb: nat, db: nat)
    requires 0 < db <= nb <= 256 && Pow2(db - 1) <= d < Pow2(db) && n < Pow2(nb)
    ensures d * Pow2(nb - db) % M == d * Pow2(nb - db)
    ensures DivState(n, d, 0, n, nb - db)
  {
    AlignBelow(d, nb, db);
    SmallMod(d * Pow2(nb - db), M);
    AlignState(n, d, nb, db);
  }

  lemma AlignBelow(d: nat, nb: nat, db: nat)
    requires 0 < db <= nb <= 256 && d < Pow2(db)
    ensures d * Pow2(nb - db) < M
  {
    Pow2Add(db, nb - db);
    MulStep(d, Pow2(db), Pow2(nb - db));
    BelowModulus(nb);
  }

  lemma BelowModulus(nb: nat)
    requires nb <= 256
    ensures Pow2(nb) <= M
  {
    Pow2Mono(nb, 256);
    WPow2(WIDTH);
  }

  lemma AlignState(n: nat, d: nat, nb: nat, db: nat)
    requires 0 < db <= nb && Pow2(db - 1) <= d && n < Pow2(nb)
    ensures DivState(n, d, 0, n, nb - db)
  {
    var c := Pow2(nb - db + 1);
    Pow2Add(db - 1, nb - db + 1);
    MulMono(Pow2(db - 1), d, c);
    DivUnique(0, c, 0, 0);
  }

  lemma ExactSub(p: seq<nat>, y: nat)
    requires AreLimbs(p) && |p| == WIDTH && y <= Val(p)
    ensures (Val(p) + M - y) % M == Val(p) - y
  {
    ValBound(p);
    Wraps(Val(p) - y, 1, Val(p) + M - y, M);
  }

  lemma HalfDivisor(d: nat, shift: nat)
    requires shift > 0
    ensures d * Pow2(shift) / Pow2(1) == d * Pow2(shift - 1)
  {
    assert Pow2(1) == 2 by { assert Pow2(0) == 1; }
    var b := Pow2(shift - 1);
    assert d * (2 * b) == d * b * 2 by { TwiceProduct(d, b); }
    DivUnique(d * Pow2(shift), 2, d * b, 0);
  }

  /** A multiple of 2^(32j + t + 1) has bit t of limb j, and everything below, clear. */
  lemma BitFree(p: seq<nat>, j: nat, t: nat)
    requires |p| == WIDTH && AreLimbs(p) && j < WIDTH && t < 32 && Val(p) % Pow2(32 * j + t + 1) == 0
    ensures Or(p[j], Pow2(t)) == p[j] + Pow2(t) < BASE
  {
    LimbDivisible(p, j, t);
    OrDisjoint(p[j], Pow2(t), t + 1);
    LowPlus(p[j], Pow2(t), t + 1);
  }

  lemma LimbDivisible(p: seq<nat>, j: nat, t: nat)
    requires AreLimbs(p) && j < |p| && t < 32 && Val(p) % Pow2(32 * j + t + 1) == 0
    ensures p[j] % Pow2(t + 1) == 0
  {
    var b, rest := Pow2(t + 1), p[j..];
    assert Pow2(32 * j + t + 1) == W(j) * b by { WPow2(j); Pow2Add(32 * j, t + 1); }
    assert Val(p) == Val(p[..j]) + W(j) * Val(rest) by { ValSplit(p, j); }
    assert Val(p[..j]) < W(j) by { ValBound(p[..j]); }
    FactorOut(Val(p), Val(p[..j]), W(j), Val(rest), b);
    RestSplit(p, j);
    assert BASE == b * Pow2(31 - t) by { Pow2Add(t + 1, 31 - t); Pow2Values(); }
    LowFactor(p[j], BASE, Val(rest[1..]), b, Pow2(31 - t));
  }

  lemma RestSplit(p: seq<nat>, j: nat)
    requires j < |p|
    ensures Val(p[j..]) == p[j] + BASE * Val(p[j..][1..])
  {
    var rest := p[j..];
    assert rest[..1] == [p[j]];
    ValSplit(rest, 1);
    OneLimb(p[j]);
    WStep(0);
  }

  /** If w * b divides r + w * y with r < w, then b divides y. */
  lemma FactorOut(x: nat, r: nat, w: nat, y: nat, b: nat)
    requires x == r + w * y && r < w && b > 0 && w * b > 0 && x % (w * b) == 0
    ensures y % b == 0
  {
    var k := x / (w * b);
    DivMod(x, w * b);
    assert k * (w * b) == k * b * w by { TripleProduct(k, w, b); }
    assert w * y == y * w;
    DivUnique(x, w, y, r);
    DivUnique(x, w, k * b, 0);
    DivUnique(y, b, k, 0);
  }

  lemma TripleProduct(k: nat, w: nat, b: nat)
    ensures k * (w * b) == k * b * w
  {
  }

  lemma LowFactor(x: nat, m: nat, y: nat, b: nat, c: nat)
    requires b > 0 && m == b * c && (x + m * y) % b == 0
    ensures x % b == 0
  {
    assert m * y == c * y * b by { TripleProduct2(b, c, y); }
    ModPlus(x, c * y, b);
  }

  lemma TripleProduct2(b: nat, c: nat, y: nat)
    ensures b * c * y == c * y * b
  {
  }
}

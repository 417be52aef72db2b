/** Numbers as sequences of 32-bit limbs, least significant first. */
module Limbs {
  import opened Prelude
  import opened Bits

  const BASE: nat := 0x1_0000_0000
  const WIDTH: nat := 8

  ghost predicate AreLimbs(s: seq<nat>) {
    forall i :: 0 <= i < |s| ==> s[i] < BASE
  }

  /** The weight of limb `i`. */
  function W(i: nat): (w: nat)
    ensures w >= 1
  {
    if i == 0 then 1 else BASE * W(i - 1)
  }

  lemma WStep(i: nat)
    ensures W(i + 1) == BASE * W(i)
    ensures W(0) == 1
  {
  }

  lemma {:induction false} WPow2(i: nat)
    ensures W(i) == Pow2(32 * i)
  {
    if i > 0 {
      WPow2(i - 1);
      Pow2Add(32, 32 * (i - 1));
      Pow2Values();
    }
  }

  lemma {:induction false} WAdd(i: nat, k: nat)
    ensures W(i + k) == W(i) * W(k)
  {
    WPow2(i); WPow2(k); WPow2(i + k);
    Pow2Add(32 * i, 32 * k);
  }

  function Val(s: seq<nat>): nat {
    if s == [] then 0 else Val(s[..|s| - 1]) + s[|s| - 1] * W(|s| - 1)
  }

  lemma ValPrefix(s: seq<nat>, i: nat)
    requires i < |s|
    ensures Val(s[..i + 1]) == Val(s[..i]) + s[i] * W(i)
  {
    assert s[..i + 1][..i] == s[..i];
  }

  lemma {:induction false} ValBound(s: seq<nat>)
    requires AreLimbs(s)
    ensures Val(s) < W(|s|)
  {
    if s == [] {
      WStep(0);
    } else {
      var n := |s| - 1;
      ValBound(s[..n]);
      WStep(n);
      MulStep(s[n], BASE, W(n));
    }
  }

  lemma {:induction false} ValZero(s: seq<nat>)
    requires forall i :: 0 <= i < |s| ==> s[i] == 0
    ensures Val(s) == 0
  {
    if s != [] { ValZero(s[..|s| - 1]); }
  }

  lemma {:induction false} ValSplit(s: seq<nat>, i: nat)
    requires i <= |s|
    ensures Val(s) == Val(s[..i]) + W(i) * Val(s[i..])
    decreases |s|
  {
    if i == |s| {
      assert s[..i] == s;
    } else {
      var n := |s| - 1;
      ValSplit(s[..n], i);
      assert s[..n][..i] == s[..i];
      assert s[..n][i..] == s[i..][..n - i];
      assert s[i..][n - i] == s[n];
      WAdd(i, n - i);
      SplitStep(W(i), Val(s[i..][..n - i]), s[n], W(n - i));
    }
  }

  lemma SplitStep(a: nat, v: nat, d: nat, w: nat)
    ensures a * v + d * (a * w) == a * (v + d * w)
  {
    assert d * (a * w) == a * (d * w);
  }

  /** Values that agree modulo 2^256 and fit are equal: the remainder is what fits. */
  lemma Wraps(v: nat, c: nat, x: nat, m: nat)
    requires v + c * m == x && v < m
    ensures v == x % m
  {
    DivUnique(x, m, c, v);
  }

  // ------------------------------------------------------------ carries

  /** One step of an addition with carry. */
  lemma AddStep(v: nat, c: nat, w: nat, p: nat, q: nat, x: nat, y: nat, d: nat, c': nat)
    requires v + c * w == p + q
    requires c + x + y == c' * BASE + d
    ensures (v + d * w) + c' * (BASE * w) == (p + x * w) + (q + y * w)
  {
    assert (c + x + y) * w == c * w + x * w + y * w;
    assert (c' * BASE + d) * w == c' * (BASE * w) + d * w;
  }

  /** One step of a multiplication by a limb. */
  lemma MulCarryStep(v: nat, c: nat, w: nat, b: nat, p: nat, x: nat, d: nat, c': nat)
    requires v + c * w == b * p
    requires c + b * x == c' * BASE + d
    ensures (v + d * w) + c' * (BASE * w) == b * (p + x * w)
  {
    assert (c + b * x) * w == c * w + b * (x * w);
    assert (c' * BASE + d) * w == c' * (BASE * w) + d * w;
  }

  /** A carry never exceeds a limb. */
  lemma CarryFits(c: nat, b: nat, x: nat)
    requires c < BASE && b < BASE && x < BASE
    ensures (c + b * x) / BASE < BASE
  {
    assert b * x <= (BASE - 1) * (BASE - 1) by { MulMono(b, BASE - 1, x); MulMono(x, BASE - 1, BASE - 1); }
    DivLess(c + b * x, BASE, BASE);
  }

  lemma MulMono(a: nat, b: nat, x: nat)
    requires a <= b
    ensures a * x <= b * x
  {
  }

  lemma DivLess(x: nat, m: nat, k: nat)
    requires m > 0 && x < k * m
    ensures x / m < k
  {
    DivMod(x, m);
    if x / m >= k { MulMono(k, x / m, m); }
  }

  /** Complementing every limb complements the value. */
  lemma {:induction false} ValNot(s: seq<nat>, t: seq<nat>)
    requires |t| == |s| && forall i :: 0 <= i < |s| ==> s[i] < BASE && t[i] == BASE - 1 - s[i]
    ensures Val(s) + Val(t) == W(|s|) - 1
  {
    if s == [] {
      WStep(0);
    } else {
      var n := |s| - 1;
      ValNot(s[..n], t[..n]);
      WStep(n);
      NotStep(s[n], t[n], W(n));
    }
  }

  lemma NotStep(a: nat, b: nat, w: nat)
    requires a + b == BASE - 1
    ensures a * w + b * w == BASE * w - w
  {
    assert (a + b) * w == a * w + b * w;
  }

  // ------------------------------------------------------------ comparing

  /** The first difference from the top decides. */
  lemma CompareAt(s: seq<nat>, t: seq<nat>, i: nat)
    requires |s| == |t| && i < |s| && AreLimbs(s) && AreLimbs(t)
    requires s[i] < t[i] && s[i + 1..] == t[i + 1..]
    ensures Val(s) < Val(t)
  {
    ValSplit(s, i + 1);
    ValSplit(t, i + 1);
    ValPrefix(s, i);
    ValPrefix(t, i);
    ValBound(s[..i]);
    MulStep(s[i], t[i], W(i));
  }

  // ------------------------------------------------------------ shifts

  /** Changing one limb changes the value by its weight. */
  lemma ValSet(p: seq<nat>, j: nat, d: nat)
    requires j < |p|
    ensures Val(p[j := d]) + p[j] * W(j) == Val(p) + d * W(j)
  {
    ValSplit(p, j + 1);
    ValSplit(p[j := d], j + 1);
    ValPrefix(p, j);
    ValPrefix(p[j := d], j);
    assert p[j := d][..j] == p[..j];
    assert p[j := d][j + 1..] == p[j + 1..];
  }

  lemma ValAdd(p: seq<nat>, j: nat, d: nat)
    requires j < |p|
    ensures Val(p[j := p[j] + d]) == Val(p) + d * W(j)
  {
    ValSet(p, j, p[j] + d);
    Distribute(p[j], d, W(j));
  }

  function Quot(x: nat, d: nat): nat
    requires d >= 1
  {
    x / d
  }

  /** The bits a left shift by `s` pushes out of a limb, and those that stay. */
  function High(x: nat, s: nat): nat
    requires s <= 32
  {
    Quot(x, Pow2(32 - s))
  }

  function Low(x: nat, s: nat): nat {
    x * Pow2(s) % BASE
  }

  lemma LimbSplit(x: nat, s: nat)
    requires x < BASE && s <= 32
    ensures x * Pow2(s) == High(x, s) * BASE + Low(x, s)
    ensures Low(x, s) % Pow2(s) == 0 && Low(x, s) < BASE && High(x, s) < Pow2(s)
  {
    Pow2Add(32 - s, s);
    Pow2Values();
    SplitAt(x, Pow2(32 - s), Pow2(s), BASE);
  }

  /** Multiplying by one factor of `m` splits a number at the other. */
  lemma SplitAt(x: nat, a: nat, b: nat, m: nat)
    requires a * b == m && x < m && a > 0 && b > 0
    ensures x * b == x / a * m + x * b % m
    ensures x * b % m < m && x * b % m % b == 0
    ensures x / a < b
  {
    var q, r := x / a, x % a;
    DivMod(x, a);
    SplitProduct(q, a, r, b);
    MulStep(r, a, b);
    DivUnique(x * b, m, q, r * b);
    DivUnique(r * b, b, r, 0);
    assert x < b * a;
    DivLess(x, a, b);
  }

  lemma SplitProduct(q: nat, a: nat, r: nat, b: nat)
    ensures (q * a + r) * b == q * (a * b) + r * b
  {
  }

  /** Shifting limb `x` at position `i` by `k` limbs and `s` bits. */
  lemma ShiftWeight(x: nat, i: nat, k: nat, s: nat)
    requires x < BASE && s <= 32
    ensures Low(x, s) * W(i + k) + High(x, s) * W(i + k + 1) == x * W(i) * Pow2(32 * k + s)
  {
    LimbSplit(x, s);
    WPow2(k);
    Pow2Add(32 * k, s);
    WAdd(i, k);
    ShiftProduct(x, Pow2(s), W(i), W(k), High(x, s), Low(x, s));
  }

  lemma ShiftProduct(x: nat, b: nat, wi: nat, wk: nat, h: nat, l: nat)
    requires x * b == h * BASE + l
    ensures l * (wi * wk) + h * (BASE * (wi * wk)) == x * wi * (wk * b)
  {
    var w := wi * wk;
    assert (h * BASE + l) * w == h * (BASE * w) + l * w;
    assert x * wi * (wk * b) == (x * b) * w by { Shuffle(x, wi, wk, b); }
  }

  lemma Shuffle(x: nat, y: nat, z: nat, b: nat)
    ensures x * y * (z * b) == (x * b) * (y * z)
  {
    assert x * y * (z * b) == x * (y * (z * b));
    assert y * (z * b) == (y * z) * b;
    assert x * ((y * z) * b) == (x * b) * (y * z);
  }

  /** The state of a left shift after `i` limbs. */
  ghost predicate ShlState(p: seq<nat>, a: seq<nat>, k: nat, s: nat, i: nat)
    requires i <= |a|
  {
    && |p| == WIDTH && AreLimbs(p)
    && (i + k < WIDTH ==>
          && (forall j :: i + k < j < WIDTH ==> p[j] == 0)
          && p[i + k] < Pow2(s)
          && Val(p) == Val(a[..i]) * Pow2(32 * k + s))
    && (i + k >= WIDTH ==> Val(p) == Val(a[..i]) * Pow2(32 * k + s) % W(WIDTH))
  }

  lemma ShlInside(p: seq<nat>, a: seq<nat>, k: nat, s: nat, i: nat)
    requires |a| == WIDTH && AreLimbs(a) && s < 32 && i + k + 1 < WIDTH && ShlState(p, a, k, s, i)
    ensures Or(p[i + k], Low(a[i], s)) == p[i + k] + Low(a[i], s) < BASE
    ensures Or(p[i + k + 1], High(a[i], s)) == High(a[i], s)
    ensures ShlState(p[i + k + 1 := High(a[i], s)][i + k := p[i + k] + Low(a[i], s)], a, k, s, i + 1)
  {
    ShlOr(p[i + k], a[i], s);
    ShlInsideVal(p, a, k, s, i);
  }

  /** The low part of a shifted limb joins the bits already there. */
  lemma ShlOr(y: nat, x: nat, s: nat)
    requires x < BASE && s <= 32 && y < Pow2(s)
    ensures Or(y, Low(x, s)) == y + Low(x, s) < BASE
    ensures High(x, s) < BASE && High(x, s) < Pow2(s)
  {
    LimbSplit(x, s);
    OrDisjoint(Low(x, s), y, s);
    LowPlus(Low(x, s), y, s);
    Pow2Mono(s, 32);
    Pow2Values();
  }

  lemma ShlInsideVal(p: seq<nat>, a: seq<nat>, k: nat, s: nat, i: nat)
    requires |a| == WIDTH && |p| == WIDTH && s < 32 && i + k + 1 < WIDTH && a[i] < BASE && p[i + k + 1] == 0
    requires Val(p) == Val(a[..i]) * Pow2(32 * k + s)
    ensures Val(p[i + k + 1 := High(a[i], s)][i + k := p[i + k] + Low(a[i], s)]) == Val(a[..i + 1]) * Pow2(32 * k + s)
  {
    hide Val, Pow2, W, High, Low;
    ValSpread(p, i + k, High(a[i], s), Low(a[i], s));
    ValTimes(a, i, Pow2(32 * k + s));
    ShiftWeight(a[i], i, k, s);
  }

  lemma ShlLastVal(p: seq<nat>, a: seq<nat>, k: nat, s: nat, i: nat)
    requires |a| == WIDTH && |p| == WIDTH && s < 32 && i + k + 1 == WIDTH && a[i] < BASE
    requires Val(p) == Val(a[..i]) * Pow2(32 * k + s)
    ensures Val(p[i + k := p[i + k] + Low(a[i], s)]) + High(a[i], s) * W(WIDTH) == Val(a[..i + 1]) * Pow2(32 * k + s)
  {
    hide Val, Pow2, W, High, Low;
    ValAdd(p, i + k, Low(a[i], s));
    ValTimes(a, i, Pow2(32 * k + s));
    ShiftWeight(a[i], i, k, s);
  }

  /** A shifted limb is spread over two. */
  lemma ValSpread(p: seq<nat>, j: nat, h: nat, l: nat)
    requires j + 1 < |p| && p[j + 1] == 0
    ensures Val(p[j + 1 := h][j := p[j] + l]) == Val(p) + (l * W(j) + h * W(j + 1))
  {
    ValSet(p, j + 1, h);
    ValAdd(p[j + 1 := h], j, l);
  }

  lemma ValTimes(a: seq<nat>, i: nat, f: nat)
    requires i < |a|
    ensures Val(a[..i + 1]) * f == Val(a[..i]) * f + a[i] * W(i) * f
  {
    ValPrefix(a, i);
    Distribute(Val(a[..i]), a[i] * W(i), f);
  }

  lemma Distribute(x: nat, y: nat, m: nat)
    ensures (x + y) * m == x * m + y * m
  {
  }

  lemma LowPlus(l: nat, x: nat, s: nat)
    requires l < BASE && l % Pow2(s) == 0 && x < Pow2(s) && s <= 32
    ensures l + x < BASE
  {
    Pow2Add(s, 32 - s);
    Pow2Values();
    MultipleBelow(l, x, Pow2(s), Pow2(32 - s), BASE);
  }

  /** A multiple of `b` below `b * c` leaves room for anything below `b`. */
  lemma MultipleBelow(l: nat, x: nat, b: nat, c: nat, m: nat)
    requires b * c == m && l < m && b > 0 && l % b == 0 && x < b
    ensures l + x < m
  {
    var q := l / b;
    DivMod(l, b);
    assert l < c * b;
    DivLess(l, b, c);
    MulStep(q, c, b);
  }

  lemma ShlLast(p: seq<nat>, a: seq<nat>, k: nat, s: nat, i: nat)
    requires |a| == WIDTH && AreLimbs(a) && s < 32 && i + k + 1 == WIDTH && ShlState(p, a, k, s, i)
    ensures Or(p[i + k], Low(a[i], s)) == p[i + k] + Low(a[i], s) < BASE
    ensures ShlState(p[i + k := p[i + k] + Low(a[i], s)], a, k, s, i + 1)
  {
    ShlOr(p[i + k], a[i], s);
    ShlLastVal(p, a, k, s, i);
    var p' := p[i + k := p[i + k] + Low(a[i], s)];
    ValBound(p');
    Wraps(Val(p'), High(a[i], s), Val(a[..i + 1]) * Pow2(32 * k + s), W(WIDTH));
  }

  lemma ShlBeyond(p: seq<nat>, a: seq<nat>, k: nat, s: nat, i: nat)
    requires |a| == WIDTH && AreLimbs(a) && s < 32 && i < WIDTH <= i + k && ShlState(p, a, k, s, i)
    ensures ShlState(p, a, k, s, i + 1)
  {
    hide Val, Pow2, W;
    var m, f := W(WIDTH), Pow2(32 * k + s);
    ValPrefix(a, i);
    Distribute(Val(a[..i]), a[i] * W(i), f);
    var e := BeyondFactor(i, k, s);
    Regroup(a[i], W(i), f, m, e);
    ModPlus(Val(a[..i]) * f, a[i] * e, m);
  }

  lemma BeyondFactor(i: nat, k: nat, s: nat) returns (e: nat)
    requires i + k >= WIDTH
    ensures W(i) * Pow2(32 * k + s) == W(WIDTH) * e
  {
    e := W(i + k - WIDTH) * Pow2(s);
    WPow2(k);
    Pow2Add(32 * k, s);
    WAdd(i, k);
    WAdd(WIDTH, i + k - WIDTH);
    ThreeFactors(W(i), W(k), Pow2(s), W(WIDTH), W(i + k - WIDTH));
  }

  lemma ThreeFactors(a: nat, b: nat, c: nat, d: nat, e: nat)
    requires a * b == d * e
    ensures a * (b * c) == d * (e * c)
  {
    assert a * (b * c) == (a * b) * c;
    assert d * (e * c) == (d * e) * c;
  }

  lemma ModPlus(x: nat, c: nat, m: nat)
    requires m > 0
    ensures (x + c * m) % m == x % m
  {
    DivMod(x, m);
    Distribute(x / m, c, m);
    DivUnique(x + c * m, m, x / m + c, x % m);
  }

  lemma Regroup(x: nat, w: nat, f: nat, m: nat, e: nat)
    requires w * f == m * e
    ensures x * w * f == x * e * m
  {
    assert x * w * f == x * (w * f);
    assert x * (m * e) == x * e * m;
  }

  /** The state of a right shift after `i` limbs: the quotient of the limbs from `k` on, so far. */
  ghost predicate ShrState(p: seq<nat>, a: seq<nat>, k: nat, s: nat, i: nat)
    requires i <= |a| == WIDTH && s < 32
  {
    && |p| == WIDTH && AreLimbs(p)
    && (forall j :: 0 <= j < WIDTH && j >= i - k ==> p[j] == 0)
    && (i > k ==>
          && p[i - k - 1] < Pow2(32 - s)
          && Val(p) * Pow2(s) + a[k] % Pow2(s) == Val(a[k..i]))
  }

  lemma ShrFirst(p: seq<nat>, a: seq<nat>, k: nat, s: nat)
    requires |a| == WIDTH && AreLimbs(a) && s < 32 && k < WIDTH && ShrState(p, a, k, s, k)
    ensures Or(p[0], High(a[k], 32 - s)) == High(a[k], 32 - s) < BASE
    ensures ShrState(p[0 := High(a[k], 32 - s)], a, k, s, k + 1)
  {
    hide Val, Pow2, Low;
    ShlOr(0, a[k], 32 - s);
    ShrFirstVal(p, a, k, s);
  }

  lemma ShrFirstVal(p: seq<nat>, a: seq<nat>, k: nat, s: nat)
    requires |p| == WIDTH && AreLimbs(p) && (forall j :: 0 <= j < WIDTH ==> p[j] == 0) && k < |a| && s < 32
    ensures Val(p[0 := High(a[k], 32 - s)]) * Pow2(s) + a[k] % Pow2(s) == Val(a[k..k + 1])
    ensures High(a[k], 32 - s) == a[k] / Pow2(s)
  {
    var x := a[k];
    ValZero(p);
    ValSet(p, 0, High(x, 32 - s));
    assert a[k..k + 1] == [x];
    OneLimb(x);
    WStep(0);
    DivMod(x, Pow2(s));
  }

  lemma OneLimb(x: nat)
    ensures Val([x]) == x
  {
    assert [x][..0] == [];
    WStep(0);
  }

  lemma ShrNext(p: seq<nat>, a: seq<nat>, k: nat, s: nat, i: nat)
    requires |a| == WIDTH && AreLimbs(a) && s < 32 && k < i < WIDTH && ShrState(p, a, k, s, i)
    ensures Or(p[i - k - 1], Low(a[i], 32 - s)) == p[i - k - 1] + Low(a[i], 32 - s) < BASE
    ensures Or(p[i - k], High(a[i], 32 - s)) == High(a[i], 32 - s) < BASE
    ensures s == 0 ==> Low(a[i], 32 - s) == 0
    ensures ShrState(p[i - k := High(a[i], 32 - s)][i - k - 1 := p[i - k - 1] + Low(a[i], 32 - s)], a, k, s, i + 1)
  {
    ShlOr(p[i - k - 1], a[i], 32 - s);
    ShrNextVal(p, a, k, s, i);
    if s == 0 { LowWhole(a[i]); }
  }

  lemma LowWhole(x: nat)
    ensures Low(x, 32) == 0
  {
    Pow2Values();
    DivUnique(x * BASE, BASE, x, 0);
  }

  lemma ShrNextVal(p: seq<nat>, a: seq<nat>, k: nat, s: nat, i: nat)
    requires |a| == WIDTH && AreLimbs(a) && s < 32 && k < i < WIDTH && |p| == WIDTH && p[i - k] == 0
    requires Val(p) * Pow2(s) + a[k] % Pow2(s) == Val(a[k..i])
    ensures Val(p[i - k := High(a[i], 32 - s)][i - k - 1 := p[i - k - 1] + Low(a[i],
        32 - s)]) * Pow2(s) + a[k] % Pow2(s) == Val(a[k..i + 1])
  {
    hide Val, Pow2, High, Low;
    var j, h, l := i - k - 1, High(a[i], 32 - s), Low(a[i], 32 - s);
    var d, e := l * W(j) + h * W(j + 1), a[i] * W(j + 1);
    assert Val(p[i - k := h][j := p[j] + l]) == Val(p) + d by { ValSpread(p, j, h, l); }
    assert Val(a[k..i + 1]) == Val(a[k..i]) + e by { ValSlice(a, k, i); }
    assert d * Pow2(s) == e by { SpreadBack(a[i], s, W(j)); }
    GrowQuotient(Val(p), d, Pow2(s), a[k] % Pow2(s), Val(a[k..i]), e);
  }

  lemma ValSlice(a: seq<nat>, k: nat, i: nat)
    requires k <= i < |a|
    ensures Val(a[k..i + 1]) == Val(a[k..i]) + a[i] * W(i - k)
  {
    assert a[k..][..i - k] == a[k..i] && a[k..][..i - k + 1] == a[k..i + 1];
    ValPrefix(a[k..], i - k);
  }

  lemma GrowQuotient(v: nat, d: nat, b: nat, r: nat, y: nat, e: nat)
    requires v * b + r == y && d * b == e
    ensures (v + d) * b + r == y + e
  {
  }

  /** The two parts of a limb shifted right, shifted back, are the limb one place up. */
  lemma SpreadBack(x: nat, s: nat, w: nat)
    requires x < BASE && s < 32
    ensures (Low(x, 32 - s) * w + High(x, 32 - s) * (BASE * w)) * Pow2(s) == x * (BASE * w)
  {
    LimbSplit(x, 32 - s);
    Pow2Add(32 - s, s);
    Pow2Values();
    SpreadProduct(x, Pow2(32 - s), Pow2(s), High(x, 32 - s), Low(x, 32 - s), w);
  }

  lemma SpreadProduct(x: nat, c: nat, b: nat, h: nat, l: nat, w: nat)
    requires x * c == h * BASE + l && c * b == BASE
    ensures (l * w + h * (BASE * w)) * b == x * (BASE * w)
  {
    assert (h * BASE + l) * w == l * w + h * (BASE * w);
    assert x * c * w * b == x * (c * b) * w;
    assert x * BASE * w == x * (BASE * w);
  }

  lemma ShrDone(p: seq<nat>, a: seq<nat>, k: nat, s: nat)
    requires |a| == WIDTH && AreLimbs(a) && s < 32 && ShrState(p, a, k, s, WIDTH)
    ensures Val(p) == Val(a) / Pow2(32 * k + s)
  {
    hide Pow2, Val, W;
    WPow2(k);
    Pow2Add(32 * k, s);
    if k < WIDTH {
      assert a[k..WIDTH] == a[k..];
      ValSplit(a, k);
      ValBound(a[..k]);
      ModBelow(a[k], Pow2(s));
      NestedDiv(Val(a), Val(a[..k]), W(k), Val(a[k..]), Pow2(s), Val(p), a[k] % Pow2(s));
    } else {
      ValZero(p);
      ValBound(a);
      WPow2(WIDTH);
      Pow2Mono(32 * WIDTH, 32 * k + s);
      DivUnique(Val(a), Pow2(32 * k + s), 0, Val(a));
    }
  }

  lemma ModBelow(x: nat, m: nat)
    requires m > 0
    ensures x % m < m
  {
  }

  lemma NestedDiv(x: nat, r: nat, w: nat, y: nat, b: nat, q: nat, t: nat)
    requires x == r + w * y && r < w && y == q * b + t && t < b
    ensures x / (w * b) == q
  {
    assert w * y == q * (w * b) + w * t by { NestedProduct(w, q, b, t); }
    MulStep(t, b, w);
    assert w * t + r < w * b by { assert t * w == w * t && b * w == w * b; }
    DivUnique(x, w * b, q, w * t + r);
  }

  lemma NestedProduct(w: nat, q: nat, b: nat, t: nat)
    ensures w * (q * b + t) == q * (w * b) + w * t
  {
    assert w * (q * b) == q * (w * b);
  }
}

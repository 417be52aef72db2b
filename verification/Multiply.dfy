/** Multiplication of 256-bit integers, limb by limb, modulo 2^256. */
module Multiply {
  import opened Bits
  import opened Limbs
  import opened ArithUint256

  /** One step of a row: the limb at i + j takes in a product and a carry. */
  lemma RowStep(v: nat, was: nat, w: nat, carry: nat, x: nat, y: nat, n: nat, v': nat, total: nat, more: nat)
    requires n == carry + was + x * y && v' + was * w == v + n % BASE * w
    requires v + carry * w == total && more == x * y * w
    ensures v' + n / BASE * (BASE * w) == total + more
  {
    DivMod(n, BASE);
    var q, r := n / BASE, n % BASE;
    assert (q * BASE + r) * w == q * (BASE * w) + r * w;
    assert (carry + was + x * y) * w == carry * w + was * w + x * y * w;
  }

  lemma ProductBound(x: nat, y: nat)
    requires x < BASE && y < BASE
    ensures x * y <= (BASE - 1) * (BASE - 1)
  {
    Limbs.MulMono(x, BASE - 1, y);
    Limbs.MulMono(y, BASE - 1, BASE - 1);
  }

  /** The carry of a step fits in a limb. */
  lemma RowCarry(carry: nat, was: nat, x: nat, y: nat)
    requires carry < BASE && was < BASE && x < BASE && y < BASE
    ensures (carry + was + x * y) / BASE < BASE
  {
    ProductBound(x, y);
    DivLess(carry + was + x * y, BASE, BASE);
  }

  lemma RowMore(y: seq<nat>, i: nat, j: nat, x: nat)
    requires i < |y|
    ensures x * Val(y[..i + 1]) * W(j) == x * Val(y[..i]) * W(j) + x * y[i] * W(i + j)
  {
    hide Val, W;
    ValPrefix(y, i);
    WAdd(i, j);
    RowProduct(x, Val(y[..i]), y[i], W(i), W(j));
  }

  lemma RowProduct(x: nat, v: nat, d: nat, w: nat, u: nat)
    ensures x * (v + d * w) * u == x * v * u + x * d * (w * u)
  {
    assert x * (v + d * w) == x * v + x * (d * w);
    assert (x * v + x * (d * w)) * u == x * v * u + x * (d * w) * u;
    assert x * (d * w) * u == x * d * (w * u);
  }

  /** Add x times `b`, shifted by `j` limbs, to `a`; what does not fit is dropped. */
  method AddRow(a: array<nat>, x: nat, b: array<nat>, j: nat) returns (carry: nat)
    requires a != b && a.Length == b.Length == WIDTH && AreLimbs(a[..]) && AreLimbs(b[..]) && x < BASE && j < WIDTH
    modifies a
    ensures AreLimbs(a[..]) && Val(a[..]) + carry * W(WIDTH) == old(Val(a[..])) + x * Val(b[..WIDTH - j]) * W(j)
  {
    hide Val, W;
    ghost var start, y := Val(a[..]), b[..];
    carry := 0;
    RowNone(y, x, j);
    for i := 0 to WIDTH - j
      invariant AreLimbs(a[..]) && carry < BASE && b[..] == y
      invariant Val(a[..]) + carry * W(i + j) == start + x * Val(y[..i]) * W(j)
    {
      carry := AddProduct(a, x, b, i, j, carry, start + x * Val(y[..i]) * W(j));
      RowMore(y, i, j, x);
    }
  }

  lemma RowNone(y: seq<nat>, x: nat, j: nat)
    ensures x * Val(y[..0]) * W(j) == 0
  {
    assert Val(y[..0]) == 0;
    assert x * 0 == 0 && 0 * W(j) == 0;
  }

  method AddProduct(a: array<nat>, x: nat, b: array<nat>, i: nat, j: nat, carry: nat, ghost total: nat)
      returns (more: nat)
    requires a != b && a.Length == b.Length == WIDTH && AreLimbs(a[..]) && AreLimbs(b[..]) && x < BASE && i + j < WIDTH
    requires carry < BASE
    requires Val(a[..]) + carry * W(i + j) == total
    modifies a
    ensures AreLimbs(a[..]) && more < BASE && b[..] == old(b[..])
    ensures Val(a[..]) + more * W(i + j + 1) == total + x * b[i] * W(i + j)
  {
    hide Val, W;
    ghost var p: seq<nat> := a[..];
    var was, y := a[i + j], b[i];
    var n := carry + was + x * y;
    RowCarry(carry, was, x, y);
    ValSet(p, i + j, n % BASE);
    WStep(i + j);
    RowStep(Val(p), was, W(i + j), carry, x, y, n, Val(p[i + j := n % BASE]), total, x * y * W(i + j));
    a[i + j] := n % BASE;
    assert a[..] == p[i + j := n % BASE];
    more := n / BASE;
  }

  /** The part of a row beyond the last limb is a multiple of 2^256. */
  lemma RowBeyond(y: seq<nat>, j: nat, x: nat)
    requires |y| == WIDTH && j < WIDTH
    ensures x * Val(y) * W(j) == x * Val(y[..WIDTH - j]) * W(j) + x * Val(y[WIDTH - j..]) * W(WIDTH)
  {
    hide Val, W;
    var i := WIDTH - j;
    ValSplit(y, i);
    WAdd(i, j);
    RowProduct(x, Val(y[..i]), Val(y[i..]), W(i), W(j));
    assert W(i) * Val(y[i..]) == Val(y[i..]) * W(i);
  }

  /** The rows so far add up to the product with the limbs so far. */
  lemma Rows(v: nat, q: nat, m: nat, done: nat, y: nat, x: nat, w: nat, v': nat, carry: nat, low: nat, high: nat)
    requires v + q * m == done * y && v' + carry * m == v + low && x * y * w == low + high * m
    ensures v' + (q + carry + high) * m == (done + x * w) * y
  {
    assert (q + carry + high) * m == q * m + carry * m + high * m;
    assert (done + x * w) * y == done * y + x * w * y;
    assert x * w * y == x * y * w;
  }

  lemma NextRow(v: nat, q: nat, x: seq<nat>, y: seq<nat>, j: nat, v': nat, carry: nat) returns (q': nat)
    requires |x| == |y| == WIDTH && j < WIDTH && v + q * W(WIDTH) == Val(x[..j]) * Val(y)
    requires v' + carry * W(WIDTH) == v + x[j] * Val(y[..WIDTH - j]) * W(j)
    ensures v' + q' * W(WIDTH) == Val(x[..j + 1]) * Val(y)
  {
    hide Val, W;
    var high := x[j] * Val(y[WIDTH - j..]);
    RowBeyond(y, j, x[j]);
    ValPrefix(x, j);
    Rows(v, q, W(WIDTH), Val(x[..j]), Val(y), x[j], W(j), v', carry, x[j] * Val(y[..WIDTH - j]) * W(j), high);
    q' := q + carry + high;
  }

  method MulAssign(t: BaseUint, b: BaseUint)
    requires t.Valid() && b.Valid()
    modifies t.pn
    ensures t.Valid() && t.V() == old(t.V()) * old(b.V()) % M
  {
    hide Val, W;
    var a := new nat[WIDTH](i => 0);
    ghost var x, y := t.pn[..], b.pn[..];
    ghost var q: nat := 0;
    ValZero(a[..]);
    NoRows(x, Val(y));
    for j := 0 to WIDTH
      invariant fresh(a) && AreLimbs(a[..]) && t.pn[..] == x && b.pn[..] == y
      invariant Val(a[..]) + q * W(WIDTH) == Val(x[..j]) * Val(y)
    {
      ghost var v := Val(a[..]);
      var carry := AddRow(a, t.pn[j], b.pn, j);
      q := NextRow(v, q, x, y, j, Val(a[..]), carry);
    }
    assert x[..WIDTH] == x;
    ValBound(a[..]);
    Wraps(Val(a[..]), q, Val(x) * Val(y), W(WIDTH));
    Assign(t, a);
  }

  lemma NoRows(x: seq<nat>, v: nat)
    ensures Val(x[..0]) * v == 0
  {
    assert Val(x[..0]) == 0;
  }

  method Assign(t: BaseUint, a: array<nat>)
    requires t.pn.Length == a.Length == WIDTH && AreLimbs(a[..]) && a != t.pn
    modifies t.pn
    ensures t.Valid() && t.pn[..] == a[..]
  {
    for i := 0 to WIDTH
      invariant forall k :: 0 <= k < i ==> t.pn[k] == a[k]
    {
      t.pn[i] := a[i];
    }
    assert t.pn[..] == a[..];
  }

  /** Multiplication by one limb, in place. */
  method MulLimbAssign(t: BaseUint, b32: nat)
    requires t.Valid() && b32 < BASE
    modifies t.pn
    ensures t.Valid() && t.V() == old(t.V()) * b32 % M
  {
    hide Val, W;
    ghost var x := t.pn[..];
    var carry: nat := 0;
    NoRows(x, b32);
    NoRows(t.pn[..], 1);
    for i := 0 to WIDTH
      invariant t.Valid() && carry < BASE && t.pn[i..] == x[i..]
      invariant Val(t.pn[..][..i]) + carry * W(i) == Val(x[..i]) * b32
    {
      carry := MulOne(t, b32, i, carry, x);
    }
    assert t.pn[..][..WIDTH] == t.pn[..] && x[..WIDTH] == x;
    ValBound(t.pn[..]);
    Wraps(Val(t.pn[..]), carry, Val(x) * b32, W(WIDTH));
  }

  method MulOne(t: BaseUint, b32: nat, i: nat, carry: nat, ghost x: seq<nat>) returns (more: nat)
    requires t.Valid() && b32 < BASE && i < WIDTH && carry < BASE && |x| == WIDTH && t.pn[i..] == x[i..]
    requires Val(t.pn[..][..i]) + carry * W(i) == Val(x[..i]) * b32
    modifies t.pn
    ensures t.Valid() && more < BASE && t.pn[i + 1..] == x[i + 1..]
    ensures Val(t.pn[..][..i + 1]) + more * W(i + 1) == Val(x[..i + 1]) * b32
  {
    hide Val, W;
    ghost var p: seq<nat> := t.pn[..];
    assert p[i] == p[i..][0] == x[i];
    var n := carry + b32 * t.pn[i];
    Limbs.CarryFits(carry, b32, t.pn[i]);
    DivMod(n, BASE);
    MulCarryStep(Val(p[..i]), carry, W(i), b32, Val(x[..i]), x[i], n % BASE, n / BASE);
    t.pn[i] := n % BASE;
    assert t.pn[..] == p[i := n % BASE] && p[i := n % BASE][..i] == p[..i];
    assert t.pn[i + 1..] == p[i..][1..] && x[i + 1..] == x[i..][1..];
    ValPrefix(t.pn[..], i);
    ValPrefix(x, i);
    WStep(i);
    more := n / BASE;
  }
}

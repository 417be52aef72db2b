/**
 Commutative rings in which every element is its own negative, fields among them, the
 pairs over such a ring, and powers.
*/
module Rings {

  datatype Ring<!T> = Ring(add: (T, T) -> T, mul: (T, T) -> T, zero: T, one: T)

  /** The laws, for three elements. */
  predicate Laws<T(==)>(R: Ring<T>, a: T, b: T, c: T) {
    && R.add(R.add(a, b), c) == R.add(a, R.add(b, c)) && R.add(a, b) == R.add(b, a)
    && R.add(a, R.zero) == a && R.add(a, a) == R.zero
    && R.mul(R.mul(a, b), c) == R.mul(a, R.mul(b, c)) && R.mul(a, b) == R.mul(b, a)
    && R.mul(a, R.one) == a
    && R.mul(R.add(a, b), c) == R.add(R.mul(a, c), R.mul(b, c))
  }

  ghost predicate IsRing<T(!new)>(R: Ring<T>) {
    forall a, b, c :: Laws(R, a, b, c)
  }

  ghost predicate IsField<T(!new)>(R: Ring<T>) {
    IsRing(R) && R.one != R.zero && forall a :: a != R.zero ==> HasInverse(R, a)
  }

  ghost predicate HasInverse<T(!new)>(R: Ring<T>, a: T) {
    exists k :: R.mul(a, k) == R.one
  }

  // ------------------------------------------------------------ the laws, one at a time

  lemma AddLaws<T(!new)>(R: Ring<T>, a: T, b: T, c: T)
    requires IsRing(R)
    ensures R.add(R.add(a, b), c) == R.add(a, R.add(b, c)) && R.add(a, b) == R.add(b, a)
  {
    assert Laws(R, a, b, c);
  }

  lemma AddZero<T(!new)>(R: Ring<T>, a: T, b: T)
    requires IsRing(R)
    ensures R.add(a, R.zero) == a && R.add(R.zero, a) == a && R.add(a, a) == R.zero
    ensures R.add(a, b) == R.zero <==> a == b
  {
    assert Laws(R, a, b, b) && Laws(R, b, a, a) && Laws(R, a, R.zero, a) && Laws(R, R.zero, b, b);
  }

  lemma AddSwap<T(!new)>(R: Ring<T>, a: T, b: T, c: T, d: T)
    requires IsRing(R)
    ensures R.add(R.add(a, b), R.add(c, d)) == R.add(R.add(a, c), R.add(b, d))
  {
    hide IsRing;
    AddLaws(R, a, b, R.add(c, d));
    AddLaws(R, b, c, d);
    AddLaws(R, c, b, d);
    AddLaws(R, a, c, R.add(b, d));
  }

  lemma MulLaws<T(!new)>(R: Ring<T>, a: T, b: T, c: T)
    requires IsRing(R)
    ensures R.mul(R.mul(a, b), c) == R.mul(a, R.mul(b, c)) && R.mul(a, b) == R.mul(b, a)
  {
    assert Laws(R, a, b, c);
  }

  lemma MulOne<T(!new)>(R: Ring<T>, a: T)
    requires IsRing(R)
    ensures R.mul(a, R.one) == a && R.mul(R.one, a) == a
    ensures R.mul(a, R.zero) == R.zero && R.mul(R.zero, a) == R.zero
  {
    assert Laws(R, a, R.one, a) && Laws(R, a, R.zero, a) && Laws(R, R.zero, R.zero, a);
    assert Laws(R, R.mul(R.zero, a), a, a);
  }

  lemma MulAdd<T(!new)>(R: Ring<T>, a: T, b: T, c: T)
    requires IsRing(R)
    ensures R.mul(R.add(a, b), c) == R.add(R.mul(a, c), R.mul(b, c))
    ensures R.mul(c, R.add(a, b)) == R.add(R.mul(c, a), R.mul(c, b))
  {
    assert Laws(R, a, b, c) && Laws(R, a, c, b) && Laws(R, b, c, a) && Laws(R, R.add(a, b), c, a);
  }

  lemma MulSwap<T(!new)>(R: Ring<T>, a: T, b: T, c: T)
    requires IsRing(R)
    ensures R.mul(R.mul(a, b), c) == R.mul(R.mul(a, c), b)
  {
    hide IsRing;
    MulLaws(R, a, b, c);
    MulLaws(R, b, c, a);
    MulLaws(R, a, c, b);
  }

  lemma NoZeroDivisor<T(!new)>(R: Ring<T>, a: T, b: T)
    requires IsField(R) && R.mul(a, b) == R.zero
    ensures a == R.zero || b == R.zero
  {
    hide IsRing;
    if a != R.zero {
      assert HasInverse(R, a);
      var k :| R.mul(a, k) == R.one;
      MulLaws(R, a, b, k);
      MulSwap(R, a, b, k);
      MulOne(R, b);
      MulOne(R, k);
    }
  }

  // ------------------------------------------------------------ powers

  function Pow<T>(R: Ring<T>, b: T, k: nat): T { if k == 0 then R.one else R.mul(Pow(R, b, k - 1), b) }

  lemma {:induction false} PowAdd<T(!new)>(R: Ring<T>, b: T, m: nat, n: nat)
    requires IsRing(R)
    ensures Pow(R, b, m + n) == R.mul(Pow(R, b, m), Pow(R, b, n))
  {
    hide IsRing;
    if n == 0 {
      MulOne(R, Pow(R, b, m));
    } else {
      PowAdd(R, b, m, n - 1);
      MulLaws(R, Pow(R, b, m), Pow(R, b, n - 1), b);
    }
  }

  lemma {:induction false} PowMany<T(!new)>(R: Ring<T>, b: T, n: nat, k: nat)
    requires IsRing(R)
    ensures Pow(R, b, n * k) == Pow(R, Pow(R, b, n), k)
  {
    hide IsRing;
    if k > 0 {
      PowMany(R, b, n, k - 1);
      PowAdd(R, b, n * (k - 1), n);
      assert n * (k - 1) + n == n * k;
    }
  }

  lemma {:induction false} PowNotZero<T(!new)>(R: Ring<T>, b: T, n: nat)
    requires IsField(R) && b != R.zero
    ensures Pow(R, b, n) != R.zero
  {
    hide IsRing;
    if n > 0 {
      PowNotZero(R, b, n - 1);
      if Pow(R, b, n) == R.zero { NoZeroDivisor(R, Pow(R, b, n - 1), b); }
    }
  }

  /** If no power before the `order`-th is one, powers less than that apart are different. */
  lemma PowDistinct<T(!new)>(R: Ring<T>, b: T, order: nat, m: nat, n: nat)
    requires IsField(R) && b != R.zero && m < n < m + order
    requires forall k: nat :: 0 < k < order ==> Pow(R, b, k) != R.one
    ensures Pow(R, b, m) != Pow(R, b, n)
  {
    hide IsRing;
    var x, y := Pow(R, b, m), Pow(R, b, n - m);
    if x == Pow(R, b, n) {
      PowAdd(R, b, m, n - m);
      MulOne(R, x);
      MulAdd(R, R.one, y, x);
      AddZero(R, x, x);
      NoZeroDivisor(R, x, R.add(R.one, y));
      PowNotZero(R, b, m);
      AddZero(R, R.one, y);
    }
  }

  // ------------------------------------------------------------ three equations

  /** Multiplying the first sum by z and adding the second leaves two terms. */
  lemma Eliminate<T(!new)>(R: Ring<T>, a: T, b: T, c: T, x: T, y: T, z: T)
    requires IsRing(R) && R.add(R.add(a, b), c) == R.zero
    requires R.add(R.add(R.mul(a, x), R.mul(b, y)), R.mul(c, z)) == R.zero
    ensures R.mul(a, R.add(x, z)) == R.mul(b, R.add(y, z))
  {
    hide IsRing;
    MulAdd(R, R.add(a, b), c, z);
    MulAdd(R, a, b, z);
    MulOne(R, z);
    var ax, yb, cz, az, bz := R.mul(a, x), R.mul(b, y), R.mul(c, z), R.mul(a, z), R.mul(b, z);
    AddSwap(R, R.add(ax, yb), cz, R.add(az, bz), cz);
    AddSwap(R, ax, yb, az, bz);
    AddZero(R, cz, cz);
    AddZero(R, R.zero, R.zero);
    AddZero(R, R.add(R.add(ax, az), R.add(yb, bz)), R.zero);
    AddZero(R, R.add(ax, az), R.add(yb, bz));
    MulAdd(R, x, z, a);
    MulAdd(R, y, z, b);
  }

  /** Three equations with different factors and their squares have no solution but zero. */
  lemma Vandermonde<T(!new)>(R: Ring<T>, a: T, b: T, c: T, x: T, y: T, z: T)
    requires IsField(R) && x != y && x != z
    requires R.add(R.add(a, b), c) == R.zero
    requires R.add(R.add(R.mul(a, x), R.mul(b, y)), R.mul(c, z)) == R.zero
    requires R.add(R.add(R.mul(R.mul(a, x), x), R.mul(R.mul(b, y), y)), R.mul(R.mul(c, z), z)) == R.zero
    ensures a == R.zero
  {
    hide IsRing;
    Eliminate(R, a, b, c, x, y, z);
    Eliminate(R, R.mul(a, x), R.mul(b, y), R.mul(c, z), x, y, z);
    MulSwap(R, a, x, R.add(x, z));
    MulSwap(R, b, y, R.add(y, z));
    var u := R.mul(a, R.add(x, z));
    MulAdd(R, x, y, u);
    AddZero(R, R.mul(u, x), R.mul(u, y));
    NoZeroDivisor(R, u, R.add(x, y));
    AddZero(R, x, y);
    if u == R.zero {
      NoZeroDivisor(R, a, R.add(x, z));
      AddZero(R, x, z);
    }
  }

  // ------------------------------------------------------------ pairs

  /** The element hi * e + lo, where the square of e is p * e + q. */
  datatype Pair<T> = Pair(hi: T, lo: T)

  function AddPairs<T>(R: Ring<T>, a: Pair<T>, b: Pair<T>): Pair<T> { Pair(R.add(a.hi, b.hi), R.add(a.lo, b.lo)) }

  function Scale<T>(R: Ring<T>, a: Pair<T>, k: T): Pair<T> { Pair(R.mul(a.hi, k), R.mul(a.lo, k)) }

  function TimesE<T>(R: Ring<T>, p: T, q: T, a: Pair<T>): Pair<T> {
    Pair(R.add(R.mul(a.hi, p), a.lo), R.mul(a.hi, q))
  }

  function MulPairs<T>(R: Ring<T>, p: T, q: T, a: Pair<T>, b: Pair<T>): Pair<T> {
    AddPairs(R, Scale(R, a, b.lo), Scale(R, TimesE(R, p, q, a), b.hi))
  }

  function Extension<T>(R: Ring<T>, p: T, q: T): Ring<Pair<T>> {
    Ring((a, b) => AddPairs(R, a, b), (a, b) => MulPairs(R, p, q, a, b), Pair(R.zero, R.zero), Pair(R.zero, R.one))
  }

  lemma PairsSwap<T(!new)>(R: Ring<T>, a: Pair<T>, b: Pair<T>, c: Pair<T>, d: Pair<T>)
    requires IsRing(R)
    ensures AddPairs(R, AddPairs(R, a, b), AddPairs(R, c, d)) == AddPairs(R, AddPairs(R, a, c), AddPairs(R, b, d))
  {
    hide IsRing;
    AddSwap(R, a.hi, b.hi, c.hi, d.hi);
    AddSwap(R, a.lo, b.lo, c.lo, d.lo);
  }

  lemma ScaleAdd<T(!new)>(R: Ring<T>, a: Pair<T>, b: Pair<T>, k: T)
    requires IsRing(R)
    ensures Scale(R, AddPairs(R, a, b), k) == AddPairs(R, Scale(R, a, k), Scale(R, b, k))
  {
    hide IsRing;
    MulAdd(R, a.hi, b.hi, k);
    MulAdd(R, a.lo, b.lo, k);
  }

  lemma ScaleSwap<T(!new)>(R: Ring<T>, a: Pair<T>, k: T, l: T)
    requires IsRing(R)
    ensures Scale(R, Scale(R, a, k), l) == Scale(R, Scale(R, a, l), k)
  {
    hide IsRing;
    MulSwap(R, a.hi, k, l);
    MulSwap(R, a.lo, k, l);
  }

  lemma EAdd<T(!new)>(R: Ring<T>, p: T, q: T, a: Pair<T>, b: Pair<T>)
    requires IsRing(R)
    ensures TimesE(R, p, q, AddPairs(R, a, b)) == AddPairs(R, TimesE(R, p, q, a), TimesE(R, p, q, b))
  {
    hide IsRing;
    MulAdd(R, a.hi, b.hi, p);
    MulAdd(R, a.hi, b.hi, q);
    AddSwap(R, R.mul(a.hi, p), R.mul(b.hi, p), a.lo, b.lo);
  }

  lemma EScale<T(!new)>(R: Ring<T>, p: T, q: T, a: Pair<T>, k: T)
    requires IsRing(R)
    ensures TimesE(R, p, q, Scale(R, a, k)) == Scale(R, TimesE(R, p, q, a), k)
  {
    hide IsRing;
    MulSwap(R, a.hi, k, p);
    MulSwap(R, a.hi, k, q);
    MulAdd(R, R.mul(a.hi, p), a.lo, k);
  }

  lemma PairsMulAdd<T(!new)>(R: Ring<T>, p: T, q: T, a: Pair<T>, b: Pair<T>, c: Pair<T>)
    requires IsRing(R)
    ensures MulPairs(R, p, q, AddPairs(R, a, b), c) == AddPairs(R, MulPairs(R, p, q, a, c), MulPairs(R, p, q, b, c))
  {
    hide IsRing, AddPairs, Scale, TimesE;
    EAdd(R, p, q, a, b);
    ScaleAdd(R, a, b, c.lo);
    ScaleAdd(R, TimesE(R, p, q, a), TimesE(R, p, q, b), c.hi);
    PairsSwap(R, Scale(R, a, c.lo), Scale(R, b, c.lo),
              Scale(R, TimesE(R, p, q, a), c.hi), Scale(R, TimesE(R, p, q, b), c.hi));
  }

  lemma PairsMulScale<T(!new)>(R: Ring<T>, p: T, q: T, a: Pair<T>, b: Pair<T>, k: T)
    requires IsRing(R)
    ensures MulPairs(R, p, q, Scale(R, a, k), b) == Scale(R, MulPairs(R, p, q, a, b), k)
  {
    hide IsRing, AddPairs, Scale, TimesE;
    EScale(R, p, q, a, k);
    ScaleSwap(R, a, k, b.lo);
    ScaleSwap(R, TimesE(R, p, q, a), k, b.hi);
    ScaleAdd(R, Scale(R, a, b.lo), Scale(R, TimesE(R, p, q, a), b.hi), k);
  }

  lemma PairsMulE<T(!new)>(R: Ring<T>, p: T, q: T, a: Pair<T>, b: Pair<T>)
    requires IsRing(R)
    ensures MulPairs(R, p, q, TimesE(R, p, q, a), b) == TimesE(R, p, q, MulPairs(R, p, q, a, b))
  {
    hide IsRing, AddPairs, Scale, TimesE;
    EAdd(R, p, q, Scale(R, a, b.lo), Scale(R, TimesE(R, p, q, a), b.hi));
    EScale(R, p, q, a, b.lo);
    EScale(R, p, q, TimesE(R, p, q, a), b.hi);
  }

  lemma PairsMulSwap<T(!new)>(R: Ring<T>, p: T, q: T, c: Pair<T>, a: Pair<T>, b: Pair<T>)
    requires IsRing(R)
    ensures MulPairs(R, p, q, MulPairs(R, p, q, c, a), b) == MulPairs(R, p, q, MulPairs(R, p, q, c, b), a)
  {
    hide IsRing, AddPairs, Scale, TimesE;
    var s, t := Scale(R, c, a.lo), Scale(R, TimesE(R, p, q, c), a.hi);
    PairsMulAdd(R, p, q, s, t, b);
    PairsMulScale(R, p, q, c, b, a.lo);
    PairsMulScale(R, p, q, TimesE(R, p, q, c), b, a.hi);
    PairsMulE(R, p, q, c, b);
  }

  lemma PairsOne<T(!new)>(R: Ring<T>, p: T, q: T, a: Pair<T>)
    requires IsRing(R)
    ensures MulPairs(R, p, q, Pair(R.zero, R.one), a) == a && MulPairs(R, p, q, a, Pair(R.zero, R.one)) == a
  {
    hide IsRing;
    var e := TimesE(R, p, q, a);
    MulOne(R, a.hi); MulOne(R, a.lo); MulOne(R, p); MulOne(R, q); MulOne(R, e.hi); MulOne(R, e.lo);
    AddZero(R, a.hi, a.hi); AddZero(R, a.lo, a.lo); AddZero(R, R.one, R.one);
  }

  /** Pairs over a ring are a ring. */
  lemma PairsAreRing<T(!new)>(R: Ring<T>, p: T, q: T)
    requires IsRing(R)
    ensures IsRing(Extension(R, p, q))
  {
    forall a: Pair<T>, b: Pair<T>, c: Pair<T> ensures Laws(Extension(R, p, q), a, b, c) {
      PairsLaws(R, p, q, a, b, c);
    }
  }

  lemma PairsLaws<T(!new)>(R: Ring<T>, p: T, q: T, a: Pair<T>, b: Pair<T>, c: Pair<T>)
    requires IsRing(R)
    ensures Laws(Extension(R, p, q), a, b, c)
  {
    hide IsRing, MulPairs;
    AddLaws(R, a.hi, b.hi, c.hi);
    AddLaws(R, a.lo, b.lo, c.lo);
    AddZero(R, a.hi, a.hi);
    AddZero(R, a.lo, a.lo);
    PairsMulAdd(R, p, q, a, b, c);
    PairsMulLaws(R, p, q, a, b, c);
    PairsOne(R, p, q, a);
  }

  lemma PairsMulLaws<T(!new)>(R: Ring<T>, p: T, q: T, a: Pair<T>, b: Pair<T>, c: Pair<T>)
    requires IsRing(R)
    ensures MulPairs(R, p, q, a, b) == MulPairs(R, p, q, b, a)
    ensures MulPairs(R, p, q, MulPairs(R, p, q, a, b), c) == MulPairs(R, p, q, a, MulPairs(R, p, q, b, c))
  {
    hide IsRing, MulPairs;
    var one, bc := Pair(R.zero, R.one), MulPairs(R, p, q, b, c);
    PairsOne(R, p, q, a);
    PairsOne(R, p, q, b);
    PairsMulSwap(R, p, q, one, a, b);
    PairsMulSwap(R, p, q, b, a, c);
    PairsOne(R, p, q, bc);
    PairsMulSwap(R, p, q, one, a, bc);
  }

  // ------------------------------------------------------------ inverses of pairs

  function Conjugate<T>(R: Ring<T>, p: T, a: Pair<T>): Pair<T> { Pair(a.hi, R.add(R.mul(a.hi, p), a.lo)) }

  function Norm<T>(R: Ring<T>, p: T, q: T, a: Pair<T>): T {
    R.add(R.mul(a.lo, R.add(R.mul(a.hi, p), a.lo)), R.mul(R.mul(a.hi, q), a.hi))
  }

  lemma NormIs<T(!new)>(R: Ring<T>, p: T, q: T, a: Pair<T>)
    requires IsRing(R)
    ensures MulPairs(R, p, q, a, Conjugate(R, p, a)) == Pair(R.zero, Norm(R, p, q, a))
  {
    hide IsRing;
    var u := R.add(R.mul(a.hi, p), a.lo);
    MulLaws(R, a.hi, u, u);
    AddZero(R, R.mul(a.hi, u), R.zero);
  }

  /** The polynomial of which e is a root has none in the ring itself. */
  ghost predicate Irreducible<T(!new)>(R: Ring<T>, p: T, q: T) {
    forall t :: R.add(R.mul(t, R.add(p, t)), q) != R.zero
  }

  /** Divided by the square of its upper part, the norm is a value of the polynomial. */
  lemma NormScaled<T(!new)>(R: Ring<T>, p: T, q: T, a: Pair<T>, k: T)
    requires IsRing(R) && R.mul(a.hi, k) == R.one
    ensures var t := R.mul(a.lo, k); R.mul(Norm(R, p, q, a), R.mul(k, k)) == R.add(R.mul(t, R.add(p, t)), q)
  {
    hide IsRing;
    var h, l, t := a.hi, a.lo, R.mul(a.lo, k);
    var u := R.add(R.mul(h, p), l);
    MulAdd(R, R.mul(l, u), R.mul(R.mul(h, q), h), R.mul(k, k));
    Divide(R, l, u, k);
    Divide(R, R.mul(h, q), h, k);
    MulSwap(R, h, p, k);
    MulSwap(R, h, q, k);
    MulAdd(R, R.mul(h, p), l, k);
    MulOne(R, p);
    MulOne(R, q);
  }

  lemma Divide<T(!new)>(R: Ring<T>, a: T, b: T, k: T)
    requires IsRing(R)
    ensures R.mul(R.mul(a, b), R.mul(k, k)) == R.mul(R.mul(a, k), R.mul(b, k))
  {
    hide IsRing;
    MulLaws(R, R.mul(a, b), k, k);
    MulSwap(R, a, b, k);
    MulLaws(R, R.mul(a, k), b, k);
  }

  lemma NormNotZero<T(!new)>(R: Ring<T>, p: T, q: T, a: Pair<T>)
    requires IsField(R) && Irreducible(R, p, q) && a != Pair(R.zero, R.zero)
    ensures Norm(R, p, q, a) != R.zero
  {
    hide IsRing;
    if a.hi == R.zero {
      MulOne(R, p); MulOne(R, q); MulOne(R, R.zero);
      AddZero(R, a.lo, R.zero);
      AddZero(R, R.mul(a.lo, a.lo), R.zero);
      if R.mul(a.lo, a.lo) == R.zero { NoZeroDivisor(R, a.lo, a.lo); }
    } else {
      assert HasInverse(R, a.hi);
      var k :| R.mul(a.hi, k) == R.one;
      NormScaled(R, p, q, a, k);
      if Norm(R, p, q, a) == R.zero { MulOne(R, R.mul(k, k)); }
    }
  }

  lemma PairInverse<T(!new)>(R: Ring<T>, p: T, q: T, a: Pair<T>)
    requires IsField(R) && Irreducible(R, p, q) && a != Pair(R.zero, R.zero)
    ensures HasInverse(Extension(R, p, q), a)
  {
    hide IsRing, MulPairs, Norm, Irreducible;
    var n, c := Norm(R, p, q, a), Conjugate(R, p, a);
    NormNotZero(R, p, q, a);
    assert HasInverse(R, n);
    var k :| R.mul(n, k) == R.one;
    NormIs(R, p, q, a);
    PairsMulLaws(R, p, q, a, c, Pair(R.zero, k));
    LowTimes(R, p, q, n, k);
    assert Extension(R, p, q).mul(a, MulPairs(R, p, q, c, Pair(R.zero, k))) == Pair(R.zero, R.one);
  }

  lemma LowTimes<T(!new)>(R: Ring<T>, p: T, q: T, n: T, k: T)
    requires IsRing(R)
    ensures MulPairs(R, p, q, Pair(R.zero, n), Pair(R.zero, k)) == Pair(R.zero, R.mul(n, k))
  {
    hide IsRing;
    ByLow(R, p, q, Pair(R.zero, n), k);
    MulOne(R, k);
  }

  lemma ByLow<T(!new)>(R: Ring<T>, p: T, q: T, a: Pair<T>, k: T)
    requires IsRing(R)
    ensures MulPairs(R, p, q, a, Pair(R.zero, k)) == Scale(R, a, k)
  {
    hide IsRing;
    var e := TimesE(R, p, q, a);
    MulOne(R, e.hi);
    MulOne(R, e.lo);
    AddZero(R, R.mul(a.hi, k), R.zero);
    AddZero(R, R.mul(a.lo, k), R.zero);
  }

  /** Pairs over a field are a field, if the polynomial has no root in it. */
  lemma PairsAreField<T(!new)>(R: Ring<T>, p: T, q: T)
    requires IsField(R) && Irreducible(R, p, q)
    ensures IsField(Extension(R, p, q))
  {
    hide IsRing, MulPairs, Irreducible;
    PairsAreRing(R, p, q);
    forall a: Pair<T> | a != Extension(R, p, q).zero ensures HasInverse(Extension(R, p, q), a) {
      PairInverse(R, p, q, a);
    }
  }

  // ------------------------------------------------------------ powers of a pair

  /** The power of `e` is an element of the ring below. */
  ghost predicate InLow<T>(S: Ring<Pair<T>>, e: Pair<T>, n: nat) { Pow(S, e, n).hi == S.zero.hi }

  lemma LowAdd<T(!new)>(R: Ring<T>, p: T, q: T, e: Pair<T>, m: nat, n: nat)
    requires IsField(R) && Irreducible(R, p, q) && e != Pair(R.zero, R.zero) && InLow(Extension(R, p, q), e, n)
    ensures var S := Extension(R, p, q); InLow(S, e, m + n) <==> InLow(S, e, m)
  {
    hide IsRing, IsField, Irreducible, Pow, MulPairs;
    var S := Extension(R, p, q);
    PairsAreField(R, p, q);
    FieldIsRing(R);
    FieldIsRing(S);
    PowAdd(S, e, m, n);
    var a, b := Pow(S, e, m), Pow(S, e, n);
    ByLow(R, p, q, a, b.lo);
    PowNotZero(S, e, n);
    MulOne(R, b.lo);
    if R.mul(a.hi, b.lo) == R.zero { NoZeroDivisor(R, a.hi, b.lo); }
  }

  lemma FieldIsRing<T(!new)>(R: Ring<T>)
    requires IsField(R)
    ensures IsRing(R)
  {
    hide IsRing;
  }

  lemma {:induction false} LowMany<T(!new)>(R: Ring<T>, p: T, q: T, e: Pair<T>, n: nat, k: nat)
    requires IsField(R) && Irreducible(R, p, q) && e != Pair(R.zero, R.zero) && InLow(Extension(R, p, q), e, n)
    ensures InLow(Extension(R, p, q), e, n * k)
  {
    hide IsField, Irreducible, InLow;
    if k == 0 {
      LowNone(R, p, q, e);
    } else {
      LowMany(R, p, q, e, n, k - 1);
      LowAdd(R, p, q, e, n * (k - 1), n);
      assert n * (k - 1) + n == n * k;
    }
  }

  lemma LowNone<T>(R: Ring<T>, p: T, q: T, e: Pair<T>)
    ensures InLow(Extension(R, p, q), e, 0)
  {
  }

  /** The 33rd power is an element of the ring below, the third and the eleventh are not. */
  ghost predicate Thirty3<T>(S: Ring<Pair<T>>, e: Pair<T>) {
    forall n: nat :: (n == 33 ==> InLow(S, e, n)) && (n == 3 || n == 11 ==> !InLow(S, e, n))
  }

  lemma LowRest<T(!new)>(R: Ring<T>, p: T, q: T, e: Pair<T>, n: nat)
    requires IsField(R) && Irreducible(R, p, q) && e != Pair(R.zero, R.zero)
    requires Thirty3(Extension(R, p, q), e) && InLow(Extension(R, p, q), e, n)
    ensures InLow(Extension(R, p, q), e, n % 33)
  {
    hide IsField, Irreducible, InLow;
    LowMany(R, p, q, e, 33, n / 33);
    LowAdd(R, p, q, e, n % 33, 33 * (n / 33));
  }

  /** Then the power is an element of the ring below only for multiples of 33. */
  lemma LowEvery33<T(!new)>(R: Ring<T>, p: T, q: T, e: Pair<T>, n: nat)
    requires IsField(R) && Irreducible(R, p, q) && e != Pair(R.zero, R.zero)
    requires Thirty3(Extension(R, p, q), e) && InLow(Extension(R, p, q), e, n)
    ensures n % 33 == 0
  {
    hide IsField, Irreducible, InLow;
    if n % 3 != 0 {
      var r := n * 11 % 33;
      Eleventh(n);
      LowMany(R, p, q, e, n, 11);
      LowRest(R, p, q, e, n * 11);
      if r == 22 {
        LowAdd(R, p, q, e, 22, 22);
        LowAdd(R, p, q, e, 11, 33);
      }
    } else if n % 11 != 0 {
      var k := Inverse11(n / 3);
      Thirds(n, k);
      LowMany(R, p, q, e, n, k);
      LowRest(R, p, q, e, n * k);
    }
  }

  lemma Eleventh(n: nat)
    requires n % 3 != 0
    ensures n * 11 % 33 == 11 || n * 11 % 33 == 22
  {
  }

  lemma Inverse11(m: nat) returns (k: nat)
    requires m % 11 != 0
    ensures m * k % 11 == 1
  {
    var r := m % 11;
    k := if r == 1 then 1 else if r == 2 then 6 else if r == 3 then 4 else if r == 4 then 3 else if r == 5 then 9
         else if r == 6 then 2 else if r == 7 then 8 else if r == 8 then 7 else if r == 9 then 5 else 10;
  }

  /** From a multiplier modulo 11 to one modulo 33. */
  lemma Thirds(n: nat, k: nat)
    requires n % 3 == 0 && n / 3 * k % 11 == 1
    ensures n * k % 33 == 3
  {
    var m := n / 3;
    Associate(m, k);
    Tripled(m * k);
  }

  lemma Associate(m: nat, k: nat)
    ensures 3 * m * k == 3 * (m * k)
  {
  }

  lemma Tripled(p: nat)
    requires p % 11 == 1
    ensures 3 * p % 33 == 3
  {
  }

  lemma {:induction false} LowPow<T(!new)>(R: Ring<T>, p: T, q: T, c: T, m: nat)
    requires IsRing(R)
    ensures Pow(Extension(R, p, q), Pair(R.zero, c), m) == Pair(R.zero, Pow(R, c, m))
  {
    hide IsRing, MulPairs;
    if m > 0 {
      LowPow(R, p, q, c, m - 1);
      LowTimes(R, p, q, Pow(R, c, m - 1), c);
    }
  }

  /** Powers repeat once one of them is one. */
  lemma {:induction false} PowPeriod<T(!new)>(R: Ring<T>, c: T, order: nat, r: nat, k: nat)
    requires IsRing(R) && Pow(R, c, order) == R.one
    ensures Pow(R, c, r + order * k) == Pow(R, c, r)
  {
    hide IsRing;
    if k > 0 {
      PowPeriod(R, c, order, r, k - 1);
      PowAdd(R, c, r + order * (k - 1), order);
      MulOne(R, Pow(R, c, r));
      assert r + order * (k - 1) + order == r + order * k;
    }
  }

  /** `c` has order 31: its 31st power is one, and none before it. */
  ghost predicate Order31<T(!new)>(R: Ring<T>, c: T) {
    forall k: nat :: (k == 31 ==> Pow(R, c, k) == R.one) && (0 < k < 31 ==> Pow(R, c, k) != R.one)
  }

  /** If the 33rd power of `e` has order 31 below, `e` has order 1023. */
  lemma Order1023<T(!new)>(R: Ring<T>, p: T, q: T, e: Pair<T>, c: T, n: nat)
    requires IsField(R) && Irreducible(R, p, q) && e != Pair(R.zero, R.zero)
    requires Thirty3(Extension(R, p, q), e) && Order31(R, c)
    requires forall k: nat :: k == 33 ==> Pow(Extension(R, p, q), e, k) == Pair(R.zero, c)
    requires Pow(Extension(R, p, q), e, n) == Extension(R, p, q).one
    ensures n % 1023 == 0
  {
    hide IsRing, IsField, Irreducible, Pow, MulPairs, Thirty3;
    var S, m := Extension(R, p, q), n / 33;
    FieldIsRing(R);
    PairsAreRing(R, p, q);
    LowEvery33(R, p, q, e, n);
    PowMany(S, e, 33, m);
    LowPow(R, p, q, c, m);
    PowPeriod(R, c, 31, m % 31, m / 31);
  }
}

/**
 Amount compression: trailing zeros are counted, up to nine of them, and the last
 digit that is left is known not to be zero.
*/
module Amount {
  import opened Radix

  const U64: nat := 18446744073709551616

  /** The largest amount not ending in zero whose compressed form fits in 64 bits. */
  const BOUND: nat := 2049638230412172402

  /** `n` as m times a power of ten, of which `e` is counted already. */
  function Strip(n: nat, e: nat): (r: (nat, nat))
    requires n > 0 && e <= 9
    ensures r.0 > 0 && e <= r.1 <= 9 && (r.1 < 9 ==> r.0 % 10 != 0)
    decreases 9 - e
  {
    if n % 10 == 0 && e < 9 then Strip(n / 10, e + 1) else (n, e)
  }

  /** The compressed form of a stripped amount. */
  function Pack(m: nat, e: nat): nat
    requires m > 0 && e <= 9 && (e < 9 ==> m % 10 != 0)
  {
    if e < 9 then 1 + (m / 10 * 9 + m % 10 - 1) * 10 + e else 1 + (m - 1) * 10 + 9
  }

  function Compressed(n: nat): nat {
    if n == 0 then 0 else var (m, e) := Strip(n, 0); Pack(m, e)
  }

  /** The stripped amount of a compressed form. */
  function Unpack(x: nat): (r: (nat, nat))
    requires x > 0
    ensures r.0 > 0 && r.1 <= 9 && (r.1 < 9 ==> r.0 % 10 != 0)
  {
    var e, q := (x - 1) % 10, (x - 1) / 10;
    if e < 9 then (q / 9 * 10 + q % 9 + 1, e) else (q + 1, 9)
  }

  function Decompressed(x: nat): nat {
    if x == 0 then 0 else var (m, e) := Unpack(x); m * Pow(10, e)
  }

  // ------------------------------------------------------------ the loops, in 64 bits

  method CompressAmount(amount: nat) returns (x: nat)
    requires amount < U64
    ensures x == Compressed(amount) % U64
  {
    if amount == 0 { return 0; }
    var n, e := amount, 0;
    while n % 10 == 0 && e < 9
      invariant n > 0 && e <= 9 && Strip(amount, 0) == Strip(n, e)
      decreases 9 - e
    {
      n := n / 10;
      e := e + 1;
    }
    if e < 9 {
      var d := n % 10;
      assert 1 <= d <= 9;
      n := n / 10;
      x := (1 + (n * 9 + d - 1) * 10 + e) % U64;
    } else {
      x := (1 + (n - 1) * 10 + 9) % U64;
    }
  }

  method DecompressAmount(compressed: nat) returns (n: nat)
    requires compressed < U64
    ensures n == Decompressed(compressed) % U64
  {
    hide Pow;
    if compressed == 0 { return 0; }
    var x := compressed - 1;
    var e := x % 10;
    x := x / 10;
    if e < 9 {
      var d := x % 9 + 1;
      x := x / 9;
      n := (x * 10 + d) % U64;
    } else {
      n := (x + 1) % U64;
    }
    n := AppendZeros(n, e, Unpack(compressed).0);
  }

  method AppendZeros(start: nat, zeros: nat, ghost m: nat) returns (n: nat)
    requires start == m % U64
    ensures n == m * Pow(10, zeros) % U64
  {
    hide Pow;
    n := start;
    var e := zeros;
    PowUnfold(10, 0);
    while e > 0
      invariant 0 <= e <= zeros && n == m * Pow(10, zeros - e) % U64
    {
      TimesTen(m, zeros - e, n);
      n := n * 10 % U64;
      e := e - 1;
    }
  }

  lemma TimesTen(m: nat, k: nat, n: nat)
    requires n == m * Pow(10, k) % U64
    ensures n * 10 % U64 == m * Pow(10, k + 1) % U64
  {
    hide Pow;
    PowUnfold(10, k);
    var p := Pow(10, k);
    MulAssoc(m, 10, p);
    MulAssoc(10, m, p);
    TenMod(m * p);
    MulAssoc(10, m * p, 1);
  }

  lemma TenMod(v: nat)
    ensures v % U64 * 10 % U64 == v * 10 % U64
  {
    var q := v / U64;
    assert v * 10 == v % U64 * 10 + q * 10 * U64;
  }

  // ------------------------------------------------------------ a bijection on the naturals

  lemma UnpackPack(m: nat, e: nat)
    requires m > 0 && e <= 9 && (e < 9 ==> m % 10 != 0)
    ensures Pack(m, e) > 0 && Unpack(Pack(m, e)) == (m, e)
  {
  }

  lemma PackUnpack(x: nat)
    requires x > 0
    ensures var (m, e) := Unpack(x); Pack(m, e) == x
  {
  }

  lemma {:induction false} StripValue(n: nat, e: nat)
    requires n > 0 && e <= 9
    ensures var (m, f) := Strip(n, e); m * Pow(10, f - e) == n
    decreases 9 - e
  {
    hide Pow;
    PowUnfold(10, 0);
    if n % 10 == 0 && e < 9 {
      StripValue(n / 10, e + 1);
      var (m, f) := Strip(n, e);
      PowUnfold(10, f - e - 1);
      MulAssoc(m, 10, Pow(10, f - e - 1));
      MulAssoc(10, m, Pow(10, f - e - 1));
    }
  }

  lemma {:induction false} StripOf(m: nat, k: nat, e: nat)
    requires m > 0 && e + k <= 9 && (e + k < 9 ==> m % 10 != 0)
    ensures m * Pow(10, k) > 0 && Strip(m * Pow(10, k), e) == (m, e + k)
    decreases k
  {
    hide Pow;
    PowUnfold(10, 0);
    if k > 0 {
      StripOf(m, k - 1, e + 1);
      PowUnfold(10, k - 1);
      var p := Pow(10, k - 1);
      MulAssoc(m, 10, p);
      MulAssoc(10, m, p);
      TenTimes(m * p);
    }
  }

  lemma TenTimes(v: nat)
    ensures 10 * v % 10 == 0 && 10 * v / 10 == v
  {
  }

  lemma DecompressCompressed(n: nat)
    ensures Decompressed(Compressed(n)) == n
  {
    hide Pow, Pack, Unpack;
    if n > 0 {
      var (m, e) := Strip(n, 0);
      UnpackPack(m, e);
      StripValue(n, 0);
    }
  }

  lemma CompressDecompressed(x: nat)
    ensures Compressed(Decompressed(x)) == x
  {
    hide Pow, Pack, Unpack, Strip;
    if x > 0 {
      var (m, e) := Unpack(x);
      PackUnpack(x);
      StripOf(m, e, 0);
    }
  }

  // ------------------------------------------------------------ where 64 bits are enough

  lemma PackSize(m: nat, e: nat)
    requires m > 0 && e <= 9 && (e < 9 ==> m % 10 != 0)
    ensures e < 9 ==> Pack(m, e) == 9 * m + m % 10 + e - 9
    ensures e == 9 ==> Pack(m, e) == 10 * m
  {
  }

  /** The compressed form fits exactly for amounts up to the bound and for multiples of ten. */
  lemma FitsIff(n: nat)
    requires n < U64
    ensures Compressed(n) < U64 <==> n <= BOUND || n % 10 == 0
  {
    hide Pow, Strip, Pack;
    if n > 0 {
      var (m, e) := Strip(n, 0);
      PackSize(m, e);
      StripValue(n, 0);
      PowersOfTen();
      if n % 10 == 0 {
        NotStripped(n);
        PowGrows(10, 1, e);
        MulMono(10, Pow(10, e), m);
      } else {
        StripNone(n);
      }
    }
  }

  lemma PowersOfTen()
    ensures Pow(10, 0) == 1 && Pow(10, 1) == 10 && Pow(10, 2) == 100 && Pow(10, 4) == 10000
    ensures Pow(10, 6) == 1000000 && Pow(10, 8) == 100000000
  {
    PowUnfold(10, 7);
    PowUnfold(10, 6);
    PowUnfold(10, 5);
    PowUnfold(10, 4);
  }

  lemma NotStripped(n: nat)
    requires n > 0 && n % 10 == 0
    ensures Strip(n, 0).1 >= 1
  {
  }

  lemma StripNone(n: nat)
    requires n > 0 && n % 10 != 0
    ensures Strip(n, 0) == (n, 0)
  {
  }

  // ------------------------------------------------------------ beyond that, the amount is lost

  ghost predicate Solves(M: nat, m: int, j: nat, c: nat) {
    M * m == j * U64 + c
  }

  /** A solution has j congruent to r modulo M. */
  lemma NoHit(M: nat, m: int, j: nat, c: nat, inv: nat, t: nat, r: nat)
    requires Solves(M, m, j, c) && inv * 18446744073709551616 == 1 + M * t && (inv * c + r) % M == 0 && 0 < r < M
    ensures j >= r
  {
    var q := (inv * c + r) / M;
    var w := inv * m - t * j - q;
    assert j - r == M * w by {
      assert inv * (M * m) == inv * (j * U64) + inv * c;
      assert inv * (j * U64) == j * (inv * U64) == j + M * (t * j);
      assert inv * (M * m) == M * (inv * m);
      assert M * w == M * (inv * m) - M * (t * j) - M * q;
    }
    SmallMultiple(M, w, j - r);
  }

  lemma SmallMultiple(M: nat, w: int, v: int)
    requires v == M * w && v > -(M as int)
    ensures v >= 0
  {
    if w <= -1 { MulMono(1, -w, M); }
  }

  lemma DeltaIs(k: nat, e: nat, T: nat, m: nat, j: nat, delta: int, r: nat)
    requires T > 0 && WrapsAsOften(k, e, T, m, j, delta) && (k * 18446744073709551616 + e) % 9 == r > 0
    ensures delta + r == 0 || delta + r == 9
  {
    var v := (T - 1) * m - j * U64;
    assert 9 * (T - 1) * m == 9 * ((T - 1) * m);
    assert k * U64 + e + delta == 9 * v;
    SmallDelta((k * U64 + e) / 9, r, delta, v);
  }

  lemma SmallDelta(q: int, r: nat, delta: int, v: int)
    requires 9 * q + r + delta == 9 * v && 0 < r < 9 && -8 <= delta <= 8
    ensures delta + r == 0 || delta + r == 9
  {
  }

  lemma Ninth(k: nat, e: nat, T: nat, m: nat, j: nat, delta: int, c: nat)
    requires T > 0 && WrapsAsOften(k, e, T, m, j, delta) && k * 18446744073709551616 + e + delta == 9 * c
    ensures Solves(T - 1, m, j, c)
  {
    assert 9 * (T - 1) * m == 9 * ((T - 1) * m);
  }

  /** `j` is how often the decompressed amount wraps; it would have to wrap more often than it can. */
  ghost predicate WrapsAsOften(k: nat, e: nat, T: nat, m: nat, j: nat, delta: int) {
    9 * (T - 1) * m == (9 * j + k) * U64 + e + delta && -8 <= delta <= 8
  }

  lemma WrapsFrom(k: nat, e: nat, T: nat, m: nat, j: nat, delta: int, c: nat, inv: nat, t: nat, r: nat)
    requires T > 0 && WrapsAsOften(k, e, T, m, j, delta) && k * 18446744073709551616 + e + delta == 9 * c
    requires inv * 18446744073709551616 == 1 + (T - 1) * t && 0 < r < T - 1 && (inv * c + r) % (T - 1) == 0
    ensures j >= r
  {
    hide WrapsAsOften, Solves;
    Ninth(k, e, T, m, j, delta, c);
    NoHit(T - 1, m, j, c, inv, t, r);
  }

  lemma Wrap1(m: nat, j: nat, delta: int)
    requires WrapsAsOften(1, 4, 10000, m, j, delta)
    ensures 9 * j > 10000
  {
    hide WrapsAsOften;
    DeltaIs(1, 4, 10000, m, j, delta, 2);
    if delta == -2 {
      WrapsFrom(1, 4, 10000, m, j, delta, 2049638230412172402, 2704, 4988498447375800337, 7176);
    } else {
      WrapsFrom(1, 4, 10000, m, j, delta, 2049638230412172403, 2704, 4988498447375800337, 4472);
    }
  }

  lemma Wrap2(m: nat, j: nat, delta: int)
    requires WrapsAsOften(2, 8, 100000000, m, j, delta)
    ensures 9 * j > 100000000
  {
    hide WrapsAsOften;
    DeltaIs(2, 8, 100000000, m, j, delta, 4);
    if delta == -4 {
      WrapsFrom(2, 8, 100000000, m, j, delta, 4099276460824344804, 98372866, 18146591010459148545, 56278725);
    } else {
      WrapsFrom(2, 8, 100000000, m, j, delta, 4099276460824344805, 98372866, 18146591010459148545, 57905858);
    }
  }

  lemma Wrap3(m: nat, j: nat, delta: int)
    requires WrapsAsOften(3, 2, 100, m, j, delta)
    ensures 9 * j > 100
  {
    hide WrapsAsOften;
    DeltaIs(3, 2, 100, m, j, delta, 5);
    if delta == -5 {
      WrapsFrom(3, 2, 100, m, j, delta, 6148914691236517205, 31, 5776253194797940405, 76);
    } else {
      WrapsFrom(3, 2, 100, m, j, delta, 6148914691236517206, 31, 5776253194797940405, 45);
    }
  }

  lemma Wrap4(m: nat, j: nat, delta: int)
    requires WrapsAsOften(4, 6, 1000000, m, j, delta)
    ensures 9 * j > 1000000
  {
    hide WrapsAsOften;
    DeltaIs(4, 6, 1000000, m, j, delta, 7);
    if delta == -7 {
      WrapsFrom(4, 6, 1000000, m, j, delta, 8198552921648689607, 909346, 16774489710941196865, 323260);
    } else {
      WrapsFrom(4, 6, 1000000, m, j, delta, 8198552921648689608, 909346, 16774489710941196865, 413913);
    }
  }

  lemma Wrap6(m: nat, j: nat, delta: int)
    requires WrapsAsOften(6, 4, 10000, m, j, delta)
    ensures 9 * j > 10000
  {
    hide WrapsAsOften;
    DeltaIs(6, 4, 10000, m, j, delta, 1);
    if delta == -1 {
      WrapsFrom(6, 4, 10000, m, j, delta, 12297829382473034411, 2704, 4988498447375800337, 5764);
    } else {
      WrapsFrom(6, 4, 10000, m, j, delta, 12297829382473034412, 2704, 4988498447375800337, 3060);
    }
  }

  lemma Wrap7(m: nat, j: nat, delta: int)
    requires WrapsAsOften(7, 8, 100000000, m, j, delta)
    ensures 9 * j > 100000000
  {
    hide WrapsAsOften;
    DeltaIs(7, 8, 100000000, m, j, delta, 3);
    if delta == -3 {
      WrapsFrom(7, 8, 100000000, m, j, delta, 14347467612885206813, 98372866, 18146591010459148545, 45348406);
    } else {
      WrapsFrom(7, 8, 100000000, m, j, delta, 14347467612885206814, 98372866, 18146591010459148545, 46975539);
    }
  }

  lemma Wrap8(m: nat, j: nat, delta: int)
    requires WrapsAsOften(8, 2, 100, m, j, delta)
    ensures 9 * j > 100
  {
    hide WrapsAsOften;
    DeltaIs(8, 2, 100, m, j, delta, 4);
    if delta == -4 {
      WrapsFrom(8, 2, 100, m, j, delta, 16397105843297379214, 31, 5776253194797940405, 50);
    } else {
      WrapsFrom(8, 2, 100, m, j, delta, 16397105843297379215, 31, 5776253194797940405, 19);
    }
  }

  lemma WrapsTooOften(k: nat, e: nat, T: nat, m: nat, j: nat, delta: int)
    requires 1 <= k <= 8 && e == 4 * k % 10 > 0 && T == Pow(10, e) && WrapsAsOften(k, e, T, m, j, delta)
    ensures 9 * j > T
  {
    hide Pow, WrapsAsOften;
    PowersOfTen();
    if k == 1 { Wrap1(m, j, delta); }
    else if k == 2 { Wrap2(m, j, delta); }
    else if k == 3 { Wrap3(m, j, delta); }
    else if k == 4 { Wrap4(m, j, delta); }
    else if k == 6 { Wrap6(m, j, delta); }
    else if k == 7 { Wrap7(m, j, delta); }
    else if k == 8 { Wrap8(m, j, delta); }
  }

  lemma WrapLoses(n: nat)
    requires BOUND < n < U64 && n % 10 != 0
    ensures Decompressed(Compressed(n) % U64) % U64 != n
  {
    hide Pow, Pack, Unpack;
    StripNone(n);
    PackSize(n, 0);
    var c := Compressed(n);
    var k, x := c / U64, c % U64;
    if x > 0 {
      var (m, e) := Unpack(x);
      PackUnpack(x);
      PackSize(m, e);
      LastDigit(n, k, x, e);
      if e == 0 {
        PowersOfTen();
      } else {
        WrapCase(n, k, x, m, e);
      }
    }
  }

  /** The number of zeros only depends on how often the form wrapped. */
  lemma LastDigit(n: nat, k: nat, x: nat, e: nat)
    requires n > 0 && n % 10 != 0 && x > 0 && k <= 8 && Pack(n, 0) == k * U64 + x && e == Unpack(x).1
    ensures e == 4 * k % 10
  {
    var a := n / 10 * 9 + n % 10 - 1;
    assert x - 1 == 10 * a - k * U64;
    assert e == (x - 1) % 10;
    hide Pack, Unpack;
    LastDigitOf(a, k);
  }

  lemma LastDigitOf(a: nat, k: nat)
    requires k <= 8
    ensures (10 * a - k * U64) % 10 == 4 * k % 10
  {
    var v := a - k * 1844674407370955162;
    assert 10 * a - k * U64 == 10 * v + 4 * k;
  }

  lemma WrapCase(n: nat, k: nat, x: nat, m: nat, e: nat)
    requires 0 < n < U64 && n % 10 != 0 && 1 <= k <= 8 && 0 < x < U64 && 0 < m && 0 < e == 4 * k % 10 && m % 10 != 0
    requires 9 * n + n % 10 - 9 == k * U64 + x && x == 9 * m + m % 10 + e - 9
    ensures m * Pow(10, e) % U64 != n
  {
    hide Pow;
    var T := Pow(10, e);
    var D := m * T;
    var j := D / U64;
    if D % U64 == n {
      WrapEquation(n, k, m, T, j, e);
      WrapsTooOften(k, e, T, m, j, m % 10 - n % 10);
      WrapBound(m, T, j, e);
    }
  }

  lemma WrapEquation(n: nat, k: nat, m: nat, T: nat, j: nat, e: nat)
    requires m * T == j * U64 + n && 9 * n + n % 10 - 9 == k * U64 + 9 * m + m % 10 + e - 9 && m % 10 != 0
    requires n % 10 != 0
    ensures WrapsAsOften(k, e, T, m, j, m % 10 - n % 10)
  {
    assert 9 * (T - 1) * m == 9 * (m * T) - 9 * m;
  }

  lemma WrapBound(m: nat, T: nat, j: nat, e: nat)
    requires 9 * m <= U64 + 8 && T == Pow(10, e) && e <= 8 && j * U64 <= m * T
    ensures 9 * j <= T
  {
    hide Pow;
    PowersOfTen();
    PowGrows(10, e, 8);
    MulMono(9 * m, U64 + 8, T);
    if 9 * j >= T + 1 { MulMono(T + 1, 9 * j, U64); }
  }

  /** In 64 bits, an amount is recovered exactly if it ends in zero or is at most the bound. */
  lemma RecoveredIff(n: nat)
    requires n < U64
    ensures Decompressed(Compressed(n) % U64) % U64 == n <==> n <= BOUND || n % 10 == 0
  {
    hide Compressed, Decompressed;
    FitsIff(n);
    if n <= BOUND || n % 10 == 0 {
      DecompressCompressed(n);
    } else {
      WrapLoses(n);
    }
  }

  const MAX_MONEY: nat := 9223372036854775807

  /** The range of valid amounts is larger than what is recovered. */
  lemma ValidAmountLost()
    ensures BOUND + 1 <= MAX_MONEY && Decompressed(Compressed(BOUND + 1) % U64) % U64 != BOUND + 1
  {
    RecoveredIff(BOUND + 1);
  }
}

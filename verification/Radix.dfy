/**
 Numbers in positional notation, most significant digit first, and the
 multiplication of a digit buffer in place.
*/
module Radix {

  function Pow(b: nat, n: nat): (r: nat)
    ensures b > 0 ==> r > 0
  {
    if n == 0 then 1 else b * Pow(b, n - 1)
  }

  lemma MulAssoc(x: nat, y: nat, z: nat)
    ensures x * y * z == x * (y * z) && x * y == y * x
  {
  }

  lemma MulMono(x: nat, y: nat, z: nat)
    requires x <= y
    ensures x * z <= y * z && z * x <= z * y
  {
  }

  lemma {:induction false} PowAdd(b: nat, m: nat, n: nat)
    ensures Pow(b, m + n) == Pow(b, m) * Pow(b, n)
  {
    if m > 0 {
      PowAdd(b, m - 1, n);
      MulAssoc(b, Pow(b, m - 1), Pow(b, n));
    }
  }

  lemma {:induction false} PowMul(b: nat, m: nat, n: nat)
    ensures Pow(Pow(b, m), n) == Pow(b, m * n)
  {
    if n > 0 {
      PowMul(b, m, n - 1);
      PowAdd(b, m, m * (n - 1));
      assert m * n == m + m * (n - 1);
    }
  }

  lemma {:induction false} PowMono(a: nat, b: nat, n: nat)
    requires a <= b
    ensures Pow(a, n) <= Pow(b, n)
    ensures a < b && n > 0 ==> Pow(a, n) < Pow(b, n)
  {
    if n > 0 {
      PowMono(a, b, n - 1);
      MulMono(Pow(a, n - 1), Pow(b, n - 1), a);
      MulMono(a, b, Pow(b, n - 1));
      if a < b { MulMono(a + 1, b, Pow(b, n - 1)); }
    }
  }

  lemma {:induction false} PowGrows(b: nat, m: nat, n: nat)
    requires b > 0 && m <= n
    ensures Pow(b, m) <= Pow(b, n)
    ensures b > 1 && m < n ==> Pow(b, m) < Pow(b, n)
  {
    if m < n {
      PowGrows(b, m, n - 1);
      MulMono(1, b, Pow(b, n - 1));
      if b > 1 { MulMono(2, b, Pow(b, n - 1)); }
    }
  }

  // ------------------------------------------------------------ positional notation

  function Num(b: nat, s: seq<nat>): nat {
    if s == [] then 0 else Num(b, s[..|s| - 1]) * b + s[|s| - 1]
  }

  ghost predicate IsDigits(b: nat, s: seq<nat>) {
    forall i :: 0 <= i < |s| ==> s[i] < b
  }

  /** The digits of a number, without leading zeros. */
  function Repr(b: nat, n: nat): seq<nat>
    requires b > 1
    decreases n
  {
    if n == 0 then [] else
      Shrinks(n, b);
      Repr(b, n / b) + [n % b]
  }

  lemma Shrinks(n: nat, b: nat)
    requires n > 0 && b > 1
    ensures n / b < n
  {
    Division(n, b);
    if n / b >= n { MulMono(n, n / b, b); MulMono(2, b, n); }
  }

  lemma Division(n: nat, b: nat)
    requires b > 0
    ensures n == n / b * b + n % b && n % b < b
  {
  }

  lemma Quotient(q: nat, b: nat, r: nat)
    requires r < b
    ensures (q * b + r) / b == q && (q * b + r) % b == r
  {
    var n := q * b + r;
    Division(n, b);
    if n / b < q {
      MulMono(n / b + 1, q, b);
    } else if n / b > q {
      MulMono(q + 1, n / b, b);
    }
  }

  lemma {:induction false} NumAppend(b: nat, s: seq<nat>, t: seq<nat>)
    ensures Num(b, s + t) == Num(b, s) * Pow(b, |t|) + Num(b, t)
  {
    if t == [] {
      assert s + t == s;
    } else {
      var u := t[..|t| - 1];
      assert (s + t)[..|s + t| - 1] == s + u;
      NumAppend(b, s, u);
      AppendStep(Num(b, s), Pow(b, |u|), Num(b, u), b, t[|t| - 1]);
    }
  }

  lemma AppendStep(x: nat, p: nat, y: nat, b: nat, d: nat)
    ensures (x * p + y) * b + d == x * (b * p) + (y * b + d)
  {
    assert (x * p + y) * b == x * p * b + y * b;
    assert x * p * b == x * (b * p);
  }

  lemma {:induction false} NumBound(b: nat, s: seq<nat>)
    requires IsDigits(b, s)
    ensures Num(b, s) < Pow(b, |s|)
  {
    if s != [] {
      NumBound(b, s[..|s| - 1]);
      MulMono(Num(b, s[..|s| - 1]) + 1, Pow(b, |s| - 1), b);
      MulAssoc(b, Pow(b, |s| - 1), 1);
    }
  }

  lemma {:induction false} NumZeros(b: nat, s: seq<nat>)
    requires forall i :: 0 <= i < |s| ==> s[i] == 0
    ensures Num(b, s) == 0
  {
    if s != [] { NumZeros(b, s[..|s| - 1]); }
  }

  /** The first digit counts for a power of the base. */
  lemma NumLeading(b: nat, s: seq<nat>)
    requires s != []
    ensures Num(b, s) == s[0] * Pow(b, |s| - 1) + Num(b, s[1..])
  {
    assert s == [s[0]] + s[1..];
    NumAppend(b, [s[0]], s[1..]);
    assert [s[0]][..0] == [];
  }

  lemma {:induction false} ReprOfNum(b: nat, s: seq<nat>)
    requires b > 1 && IsDigits(b, s) && (s != [] ==> s[0] != 0)
    ensures Repr(b, Num(b, s)) == s
  {
    if s != [] {
      var n := |s| - 1;
      var t := s[..n];
      ReprOfNum(b, t);
      Quotient(Num(b, t), b, s[n]);
      NumLeading(b, s);
      MulMono(1, s[0], Pow(b, n));
      assert s == t + [s[n]];
    }
  }

  lemma {:induction false} NumOfRepr(b: nat, n: nat)
    requires b > 1
    ensures Num(b, Repr(b, n)) == n && IsDigits(b, Repr(b, n))
    ensures (if n > 0 then Repr(b, n) != [] && Repr(b, n)[0] != 0 else Repr(b, n) == [])
  {
    if n > 0 {
      Shrinks(n, b);
      NumOfRepr(b, n / b);
      Division(n, b);
      assert Repr(b, n)[..|Repr(b, n)| - 1] == Repr(b, n / b);
    }
  }

  /** The digits are as many as the number needs. */
  lemma ReprIs(b: nat, s: seq<nat>)
    requires b > 1 && IsDigits(b, s) && (s != [] ==> Pow(b, |s| - 1) <= Num(b, s))
    ensures s == Repr(b, Num(b, s)) && (s != [] ==> s[0] != 0)
  {
    if s != [] {
      NumLeading(b, s);
      NumBound(b, s[1..]);
    }
    ReprOfNum(b, s);
  }

  // ------------------------------------------------------------ in place

  /** The buffer shows `value` in its last `length` digits, as few as possible. */
  ghost predicate Shows(b: nat, s: seq<nat>, length: nat, value: nat)
    requires b > 1
  {
    && length <= |s| && IsDigits(b, s)
    && (forall j :: 0 <= j < |s| - length ==> s[j] == 0)
    && Num(b, s) == value
    && (length > 0 ==> Pow(b, length - 1) <= value)
  }

  lemma ShowsRepr(b: nat, s: seq<nat>, length: nat, value: nat)
    requires b > 1 && Shows(b, s, length, value)
    ensures s[|s| - length..] == Repr(b, value)
  {
    hide Num, Pow, Repr;
    var k := |s| - length;
    assert s == s[..k] + s[k..];
    NumAppend(b, s[..k], s[k..]);
    NumZeros(b, s[..k]);
    ReprIs(b, s[k..]);
  }

  /** Part of the way: the last `i` digits are new, the others are as before. */
  ghost predicate Carrying(b: nat, m: nat, was: seq<nat>, s: seq<nat>, i: nat, carry: nat, value: nat) {
    && |s| == |was| && i <= |s|
    && s[..|s| - i] == was[..|s| - i]
    && IsDigits(b, s)
    && Num(b, s[|s| - i..]) + carry * Pow(b, i) + m * Num(b, was[..|s| - i]) * Pow(b, i) == value
  }

  lemma CarryStep(b: nat, m: nat, was: seq<nat>, s: seq<nat>, i: nat, carry: nat, value: nat)
    requires b > 1 && Carrying(b, m, was, s, i, carry, value) && i < |s|
    ensures var k := |s| - 1 - i;
            var t := carry + m * s[k];
            Carrying(b, m, was, s[k := t % b], i + 1, t / b, value)
  {
    hide Num, Pow;
    var k := |s| - 1 - i;
    var x := s[k];
    var t := carry + m * x;
    Division(t, b);
    CarryDigits(b, was, s, i, t % b);
    PowUnfold(b, i);
    CarryArithmetic(Num(b, s[k + 1..]), Pow(b, i), carry, m, Num(b, was[..k]), x, b, t / b, t % b);
  }

  lemma CarryDigits(b: nat, was: seq<nat>, s: seq<nat>, i: nat, d: nat)
    requires |s| == |was| && i < |s| && s[..|s| - i] == was[..|s| - i] && IsDigits(b, s) && d < b
    ensures var k := |s| - 1 - i;
            var s' := s[k := d];
            && s'[..k] == was[..k] && IsDigits(b, s')
            && Num(b, s'[k..]) == d * Pow(b, i) + Num(b, s[k + 1..])
            && Num(b, was[..k + 1]) == Num(b, was[..k]) * b + s[k]
  {
    hide Num, Pow;
    var k := |s| - 1 - i;
    var s' := s[k := d];
    assert was[..k + 1][..k] == was[..k] && was[..k + 1][k] == s[..k + 1][k];
    NumUnfold(b, was[..k + 1]);
    NumLeading(b, s'[k..]);
    assert s'[k..][1..] == s[k + 1..];
    assert forall j :: 0 <= j < k ==> s'[..k][j] == s[..k + 1][j];
  }

  lemma NumUnfold(b: nat, s: seq<nat>)
    requires s != []
    ensures Num(b, s) == Num(b, s[..|s| - 1]) * b + s[|s| - 1]
  {
  }

  lemma PowUnfold(b: nat, i: nat)
    ensures Pow(b, i + 1) == b * Pow(b, i) && Pow(b, 0) == 1
  {
  }

  lemma CarryArithmetic(low: nat, p: nat, carry: nat, m: nat, high: nat, x: nat, b: nat, q: nat, r: nat)
    requires q * b + r == carry + m * x
    ensures r * p + low + q * (b * p) + m * high * (b * p) == low + carry * p + m * (high * b + x) * p
  {
    assert q * (b * p) == q * b * p;
    assert m * high * (b * p) == m * (high * b) * p;
    assert m * (high * b + x) == m * (high * b) + m * x;
    assert (q * b + r) * p == q * b * p + r * p;
    assert (carry + m * x) * p == carry * p + m * x * p;
    assert (m * (high * b) + m * x) * p == m * (high * b) * p + m * x * p;
  }

  /**
   Multiply the number in the buffer and add to it, carrying from the last digit
   on until nothing is left to carry; the number of digits in use grows with it.
  */
  method MultiplyAdd(a: array<nat>, b: nat, m: nat, add: nat, length: nat, ghost value: nat) returns (used: nat)
    requires b > 1 && m > 0 && Shows(b, a[..], length, value) && m * value + add < Pow(b, a.Length)
    modifies a
    ensures Shows(b, a[..], used, m * value + add)
  {
    hide Num, Pow, Carrying, Shows;
    ghost var was, total := a[..], m * value + add;
    var carry: nat, i: nat := add, 0;
    CarryStart(b, m, was, add, length, value);
    while (carry != 0 || i < length) && i < a.Length
      invariant i <= a.Length && Carrying(b, m, was, a[..], i, carry, total)
      invariant i > length ==> Pow(b, i - 1) <= total
    {
      if i >= length { CarryGrows(b, m, was, a[..], i, carry, total, length); }
      carry := CarryDigit(a, b, m, i, carry, was, total);
      i := i + 1;
    }
    CarryFits(b, m, was, a[..], i, carry, total, length);
    assert carry == 0;
    used := i;
    CarryEnd(b, m, was, a[..], i, total, length, value, add);
  }

  method CarryDigit(a: array<nat>, b: nat, m: nat, i: nat, carry: nat, ghost was: seq<nat>, ghost total: nat)
      returns (rest: nat)
    requires b > 1 && i < a.Length && Carrying(b, m, was, a[..], i, carry, total)
    modifies a
    ensures Carrying(b, m, was, a[..], i + 1, rest, total)
  {
    CarryStep(b, m, was, a[..], i, carry, total);
    hide *;
    var k := a.Length - 1 - i;
    ghost var s: seq<nat> := a[..];
    rest := carry + m * a[k];
    a[k] := rest % b;
    assert a[..] == s[k := a[k]];
    rest := rest / b;
  }

  lemma CarryStart(b: nat, m: nat, s: seq<nat>, add: nat, length: nat, value: nat)
    requires b > 1 && Shows(b, s, length, value)
    ensures length <= |s| && Carrying(b, m, s, s, 0, add, m * value + add)
  {
    assert s[..|s|] == s && s[|s|..] == [];
  }

  lemma CarryGrows(b: nat, m: nat, was: seq<nat>, s: seq<nat>, i: nat, carry: nat, value: nat, length: nat)
    requires b > 1 && Carrying(b, m, was, s, i, carry, value) && carry != 0 && length <= i
    ensures Pow(b, i) <= value
  {
    hide Num, Pow, IsDigits;
    var p := Pow(b, i);
    MulMono(1, carry, p);
    var high: nat := m * Num(b, was[..|s| - i]);
    MulMono(0, high, p);
  }

  /** At the end of the buffer nothing is left, if the number fits in it. */
  lemma CarryFits(b: nat, m: nat, was: seq<nat>, s: seq<nat>, i: nat, carry: nat, value: nat, length: nat)
    requires b > 1 && Carrying(b, m, was, s, i, carry, value) && value < Pow(b, |s|)
    requires (carry == 0 && i >= length) || i == |s|
    ensures carry == 0
  {
    if carry != 0 { MulMono(1, carry, Pow(b, i)); }
  }

  lemma CarryEnd(b: nat, m: nat, was: seq<nat>, s: seq<nat>, i: nat, total: nat, length: nat, value: nat, add: nat)
    requires b > 1 && m > 0 && Carrying(b, m, was, s, i, 0, total) && total == m * value + add
    requires Shows(b, was, length, value) && (i >= length || i == |s|)
    requires i > length ==> Pow(b, i - 1) <= total
    ensures Shows(b, s, i, total)
  {
    hide Num, Pow;
    var k := |s| - i;
    assert forall j :: 0 <= j < k ==> s[j] == was[..k][j];
    NumZeros(b, was[..k]);
    NumZeros(b, s[..k]);
    assert s == s[..k] + s[k..];
    NumAppend(b, s[..k], s[k..]);
    MulMono(1, m, value);
  }
}

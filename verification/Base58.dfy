/**
 Base 58 strings: the in-place radix conversions of the core and the big-integer
 conversions of the web wallet, against one specification.
*/
module Base58 {
  import opened Prelude
  import opened Radix

  // ------------------------------------------------------------ the buffers are large enough

  /** If b^p is at least a^q, then n digits to base a fit in n*p/q + 1 digits to base b. */
  lemma Room(a: nat, b: nat, p: nat, q: nat, n: nat)
    requires a > 0 && b > 1 && q > 0 && Pow(a, q) <= Pow(b, p)
    ensures Pow(a, n) < Pow(b, n * p / q + 1)
  {
    hide Pow;
    var c := n * p / q + 1;
    Division(n * p, q);
    assert c * q == n * p / q * q + q;
    if Pow(b, c) <= Pow(a, n) {
      PowMono(Pow(b, c), Pow(a, n), q);
      PowMul(b, c, q);
      PowMul(a, n, q);
      PowMul(a, q, n);
      PowMono(Pow(a, q), Pow(b, p), n);
      PowMul(b, p, n);
      PowGrows(b, n * p, c * q);
      MulAssoc(n, q, 1);
      MulAssoc(n, p, 1);
    }
  }

  lemma EncodeRoom(n: nat)
    ensures Pow(256, n) < Pow(58, n * 138 / 100 + 1)
  {
    hide Pow;
    Powers();
    PowMono(Pow(256, 8), Pow(58, 11), 12);
    PowMul(256, 8, 12);
    PowMul(58, 11, 12);
    PowAdd(256, 96, 4);
    PowAdd(58, 132, 6);
    Products(Pow(256, 96), Pow(58, 132), Pow(256, 4), Pow(58, 6));
    Room(256, 58, 138, 100, n);
  }

  lemma DecodeRoom(n: nat)
    ensures Pow(58, n) < Pow(256, n * 733 / 1000 + 1)
  {
    hide Pow;
    Powers();
    PowMono(Pow(58, 71), Pow(256, 52), 14);
    PowMul(58, 71, 14);
    PowMul(256, 52, 14);
    PowAdd(58, 994, 6);
    PowAdd(256, 728, 5);
    Products(Pow(58, 994), Pow(256, 728), Pow(58, 6), Pow(256, 5));
    Room(58, 256, 733, 1000, n);
  }

  lemma Products(w: nat, x: nat, y: nat, z: nat)
    requires w <= x && y <= z
    ensures w * y <= x * z
  {
    MulMono(w, x, y);
    MulMono(y, z, x);
  }

  lemma Powers()
    ensures Pow(256, 8) <= Pow(58, 11) && Pow(256, 4) <= Pow(58, 6)
    ensures Pow(58, 71) <= Pow(256, 52) && Pow(58, 6) <= Pow(256, 5)
  {
    hide Pow;
    SmallPowers();
    PowAdd(58, 5, 6);
    LargePower();
  }

  lemma SmallPowers()
    ensures Pow(58, 5) == 656356768 && Pow(58, 6) == 38068692544
    ensures Pow(256, 4) == 4294967296 && Pow(256, 5) == 1099511627776 && Pow(256, 8) == 18446744073709551616
  {
    PowUnfold(58, 5);
    PowUnfold(256, 4);
    PowAdd(256, 4, 4);
  }

  lemma LargePower()
    ensures Pow(58, 71) <= Pow(256, 52)
  {
    hide Pow;
    SmallPowers();
    PowAdd(58, 6, 6);
    PowAdd(58, 5, 6);
    assert Pow(58, 12) == 1449225352009601191936 && Pow(58, 11) == 24986644000165537792;
    PowAdd(58, 12, 12);
    assert Pow(58, 24) == 2100254120907352485526230505830591911428096;
    PowAdd(58, 12, 11);
    assert Pow(58, 23) == 36211277946678491129762594928113653645312;
    PowAdd(58, 24, 24);
    PowAdd(58, 48, 23);
    PowAdd(256, 5, 8);
    assert Pow(256, 13) == 20282409603651670423947251286016;
    PowAdd(256, 13, 13);
    PowAdd(256, 26, 26);
  }

  // ------------------------------------------------------------ characters

  /** The alphabet: digits and letters without 0, I, O and l. */
  function CharOf(d: nat): char
    requires d < 58
  {
    if d < 9 then ('1' as int + d) as char
    else if d < 17 then ('A' as int + (d - 9)) as char
    else if d < 22 then ('J' as int + (d - 17)) as char
    else if d < 33 then ('P' as int + (d - 22)) as char
    else if d < 44 then ('a' as int + (d - 33)) as char
    else ('m' as int + (d - 44)) as char
  }

  function DigitOf(c: char): int {
    if '1' <= c <= '9' then c as int - '1' as int
    else if 'A' <= c <= 'H' then c as int - 'A' as int + 9
    else if 'J' <= c <= 'N' then c as int - 'J' as int + 17
    else if 'P' <= c <= 'Z' then c as int - 'P' as int + 22
    else if 'a' <= c <= 'k' then c as int - 'a' as int + 33
    else if 'm' <= c <= 'z' then c as int - 'm' as int + 44
    else -1
  }

  predicate IsSpace(c: char) {
    c == ' ' || c == '\n' || c == '\r' || c == '\t' || c as int == 11 || c as int == 12
  }

  predicate IsDigit(c: char) { DigitOf(c) >= 0 }

  lemma CharDigit(d: nat)
    requires d < 58
    ensures DigitOf(CharOf(d)) == d && !IsSpace(CharOf(d)) && (CharOf(d) == '1' <==> d == 0)
  {
  }

  lemma DigitChar(c: char)
    requires IsDigit(c)
    ensures 0 <= DigitOf(c) < 58 && CharOf(DigitOf(c)) == c && !IsSpace(c)
  {
  }

  ghost predicate AllDigits(t: string) {
    forall i :: 0 <= i < |t| ==> IsDigit(t[i])
  }

  function Text(ds: seq<nat>): (t: string)
    requires IsDigits(58, ds)
    ensures |t| == |ds| && forall i :: 0 <= i < |ds| ==> t[i] == CharOf(ds[i])
  {
    seq(|ds|, i requires 0 <= i < |ds| => CharOf(ds[i]))
  }

  function Digits(t: string): (ds: seq<nat>)
    requires AllDigits(t)
    ensures |ds| == |t| && forall i :: 0 <= i < |t| ==> ds[i] == DigitOf(t[i])
  {
    seq(|t|, i requires 0 <= i < |t| => DigitOf(t[i]))
  }

  lemma TextDigits(t: string)
    requires AllDigits(t)
    ensures IsDigits(58, Digits(t)) && Text(Digits(t)) == t
  {
    forall i | 0 <= i < |t| ensures Digits(t)[i] < 58 && CharOf(Digits(t)[i]) == t[i] { DigitChar(t[i]); }
  }

  lemma DigitsText(ds: seq<nat>)
    requires IsDigits(58, ds)
    ensures AllDigits(Text(ds)) && Digits(Text(ds)) == ds
    ensures forall i :: 0 <= i < |ds| ==> (Text(ds)[i] == '1' <==> ds[i] == 0) && !IsSpace(Text(ds)[i])
  {
    forall i | 0 <= i < |ds|
      ensures IsDigit(Text(ds)[i]) && DigitOf(Text(ds)[i]) == ds[i] && (Text(ds)[i] == '1' <==> ds[i] == 0)
      ensures !IsSpace(Text(ds)[i])
    {
      CharDigit(ds[i]);
    }
  }

  // ------------------------------------------------------------ the specification

  /** The number of leading elements equal to `x`. */
  function Leading<T(==)>(s: seq<T>, x: T): (k: nat)
    ensures k <= |s| && (forall i :: 0 <= i < k ==> s[i] == x) && (k < |s| ==> s[k] != x)
  {
    if s == [] || s[0] != x then 0 else 1 + Leading(s[1..], x)
  }

  lemma LeadingIs<T>(s: seq<T>, x: T, k: nat)
    requires k <= |s| && (forall i :: 0 <= i < k ==> s[i] == x) && (k < |s| ==> s[k] != x)
    ensures Leading(s, x) == k
  {
  }

  function Times<T>(n: nat, x: T): (s: seq<T>)
    ensures |s| == n && forall i :: 0 <= i < n ==> s[i] == x
  {
    seq(n, i => x)
  }

  lemma NumSkips(b: nat, s: seq<nat>, k: nat)
    requires k <= |s| && forall i :: 0 <= i < k ==> s[i] == 0
    ensures Num(b, s) == Num(b, s[k..])
  {
    hide Num, Pow;
    assert s == s[..k] + s[k..];
    NumAppend(b, s[..k], s[k..]);
    NumZeros(b, s[..k]);
  }

  /** A one for every leading zero byte, and then the number to base 58. */
  ghost function Encoded(v: seq<nat>): string {
    NumOfRepr(58, Num(256, v));
    Times(Leading(v, 0), '1') + Text(Repr(58, Num(256, v)))
  }

  /** The bytes a space-free string of valid characters stands for. */
  ghost function Bytes(t: string): seq<nat>
    requires AllDigits(t)
  {
    Times(Leading(t, '1'), 0) + Repr(256, Num(58, Digits(t)))
  }

  function First(s: string): (k: nat)
    ensures k <= |s| && (forall j :: 0 <= j < k ==> IsSpace(s[j])) && (k < |s| ==> !IsSpace(s[k]))
  {
    if s == "" || !IsSpace(s[0]) then 0 else 1 + First(s[1..])
  }

  function End(s: string): (k: nat)
    ensures k <= |s| && (forall j :: k <= j < |s| ==> IsSpace(s[j])) && (k > 0 ==> !IsSpace(s[k - 1]))
  {
    if s == "" || !IsSpace(s[|s| - 1]) then |s| else End(s[..|s| - 1])
  }

  /** The string without the spaces around it. */
  function Trim(s: string): string {
    if First(s) < End(s) then s[First(s)..End(s)] else ""
  }

  /** A negative limit leaves room for nothing. */
  function Cap(max: int): nat { if max < 0 then 0 else max }

  ghost function Decoded(s: string, max: int): Option<seq<nat>> {
    var t := Trim(s);
    if AllDigits(t) && |Bytes(t)| <= Cap(max) then Some(Bytes(t)) else None
  }

  // ------------------------------------------------------------ round trips

  lemma BytesOfEncoded(v: seq<nat>)
    requires IsDigits(256, v)
    ensures AllDigits(Encoded(v)) && Bytes(Encoded(v)) == v && Trim(Encoded(v)) == Encoded(v)
  {
    hide Num, Repr, IsDigit, IsSpace, CharOf, DigitOf, Trim, Pow;
    var k := Leading(v, 0);
    var n := Num(256, v);
    var ds := Repr(58, n);
    NumOfRepr(58, n);
    DigitsText(ds);
    var all := Times(k, 0) + ds;
    assert IsDigits(58, all);
    DigitsText(all);
    OneIsZero();
    assert Text(all) == Encoded(v);
    NumSkips(58, all, k);
    assert all[k..] == ds;
    NumSkips(256, v, k);
    ReprOfNum(256, v[k..]);
    EncodedZero(v, k);
    assert ds != [] ==> Encoded(v)[k] == Text(ds)[0];
    LeadingIs(Encoded(v), '1', k);
    assert v == Times(k, 0) + v[k..];
    TrimNone(Encoded(v));
  }

  lemma OneIsZero()
    ensures CharOf(0) == '1'
  {
  }

  lemma EncodedZero(v: seq<nat>, k: nat)
    requires k == Leading(v, 0)
    ensures Num(256, v) == 0 <==> k == |v|
  {
    hide Num, Pow;
    NumSkips(256, v, k);
    if k < |v| {
      LeadingPositive(256, v[k..]);
    } else {
      NumZeros(256, v[k..]);
    }
  }

  lemma LeadingPositive(b: nat, s: seq<nat>)
    requires b > 0 && s != [] && s[0] != 0
    ensures Num(b, s) > 0
  {
    hide Num, Pow;
    NumLeading(b, s);
    var p := Pow(b, |s| - 1);
    MulMono(1, s[0], p);
  }

  lemma TrimNone(t: string)
    requires forall i :: 0 <= i < |t| ==> !IsSpace(t[i])
    ensures Trim(t) == t
  {
    hide IsSpace;
    if t != "" {
      assert !IsSpace(t[0]) && !IsSpace(t[|t| - 1]);
      assert First(t) == 0;
      assert End(t) == |t|;
    }
  }

  lemma EncodedOfBytes(t: string)
    requires AllDigits(t)
    ensures IsDigits(256, Bytes(t)) && Encoded(Bytes(t)) == t
  {
    hide Num, Repr, AllDigits, CharOf, Digits;
    var k := Leading(t, '1');
    TextDigits(t);
    var ds := Digits(t);
    var n := Num(58, ds);
    NumOfRepr(256, n);
    var v := Bytes(t);
    assert k < |v| ==> v[k] == Repr(256, n)[0];
    LeadingIs(v, 0, k);
    NumSkips(256, v, k);
    assert v[k..] == Repr(256, n);
    OnesSplit(t, ds, k);
    NumSkips(58, ds, k);
    ReprOfNum(58, ds[k..]);
  }

  lemma OnesSplit(t: string, ds: seq<nat>, k: nat)
    requires AllDigits(t) && ds == Digits(t) && IsDigits(58, ds) && k == Leading(t, '1')
    ensures t == Times(k, '1') + Text(ds[k..])
    ensures (forall i :: 0 <= i < k ==> ds[i] == 0) && (k < |ds| ==> ds[k] != 0)
  {
    hide CharOf, DigitOf;
    OneIsZero();
    TextDigits(t);
    DigitsText(ds);
    assert forall i :: 0 <= i < |t| ==> t[i] == Text(ds)[i];
  }

  /** What decodes to `v` is the encoding of `v` with spaces around it, and nothing else. */
  lemma DecodesIff(s: string, max: int, v: seq<nat>)
    ensures Decoded(s, max) == Some(v) <==> IsDigits(256, v) && |v| <= Cap(max) && Trim(s) == Encoded(v)
  {
    if AllDigits(Trim(s)) { EncodedOfBytes(Trim(s)); }
    if IsDigits(256, v) { BytesOfEncoded(v); }
  }

  // ------------------------------------------------------------ the core's encoder

  method EncodeBase58(input: seq<nat>) returns (str: string)
    requires IsDigits(256, input)
    ensures str == Encoded(input)
  {
    hide Num, Pow, Repr, Shows;
    var zeroes := 0;
    while zeroes < |input| && input[zeroes] == 0
      invariant zeroes <= |input| && forall i :: 0 <= i < zeroes ==> input[i] == 0
    {
      zeroes := zeroes + 1;
    }
    LeadingIs(input, 0, zeroes);
    NumSkips(256, input, zeroes);
    var digits := ToBase58(input[zeroes..]);
    str := Times(zeroes, '1');
    for i := 0 to |digits|
      invariant str == Times(zeroes, '1') + Text(digits)[..i]
    {
      str := str + [CharOf(digits[i])];
    }
    assert Text(digits)[..|digits|] == Text(digits);
  }

  /** The conversion proper: the buffer always has room for the number. */
  method ToBase58(v: seq<nat>) returns (digits: seq<nat>)
    requires IsDigits(256, v)
    ensures digits == Repr(58, Num(256, v)) && IsDigits(58, digits)
  {
    hide Num, Pow, Repr, Shows;
    var size := |v| * 138 / 100 + 1;
    var b58 := new nat[size](_ => 0);
    var length := 0;
    EmptyShows(58, b58[..]);
    NumNone(256);
    EncodeRoom(|v|);
    for k := 0 to |v|
      invariant Shows(58, b58[..], length, Num(256, v[..k]))
    {
      NextFits(256, 58, v, k, size);
      length := MultiplyAdd(b58, 58, 256, v[k], length, Num(256, v[..k]));
    }
    assert v[..|v|] == v;
    ShowsLength(58, b58[..], length, Num(256, v));
    ShowsRepr(58, b58[..], length, Num(256, v));
    NumOfRepr(58, Num(256, v));
    assert length > 0 ==> b58[size - length] == b58[size - length..][0];
    var it := SkipZeros(b58, size - length);
    digits := b58[it..];
  }

  method SkipZeros(a: array<nat>, start: nat) returns (it: nat)
    requires start <= a.Length
    ensures start <= it <= a.Length && (forall j :: start <= j < it ==> a[j] == 0) && (it < a.Length ==> a[it] != 0)
  {
    it := start;
    while it < a.Length && a[it] == 0
      invariant start <= it <= a.Length && forall j :: start <= j < it ==> a[j] == 0
    {
      it := it + 1;
    }
  }

  lemma EmptyShows(b: nat, s: seq<nat>)
    requires b > 1 && forall i :: 0 <= i < |s| ==> s[i] == 0
    ensures Shows(b, s, 0, 0)
  {
    hide Num, Pow;
    NumZeros(b, s);
  }

  lemma NumNone(b: nat)
    ensures Num(b, []) == 0
  {
  }

  lemma ShowsLength(b: nat, s: seq<nat>, length: nat, value: nat)
    requires b > 1 && Shows(b, s, length, value)
    ensures length <= |s|
  {
  }

  /** One more digit to base `a` still fits in the buffer. */
  lemma NextFits(a: nat, b: nat, v: seq<nat>, k: nat, size: nat)
    requires a > 1 && b > 1 && IsDigits(a, v) && k < |v| && Pow(a, |v|) < Pow(b, size)
    ensures a * Num(a, v[..k]) + v[k] == Num(a, v[..k + 1]) < Pow(b, size)
  {
    hide Num, Pow;
    NumUnfold(a, v[..k + 1]);
    assert v[..k + 1][..k] == v[..k];
    MulAssoc(a, Num(a, v[..k]), 1);
    NumBound(a, v[..k + 1]);
    PowGrows(a, k + 1, |v|);
  }

  // ------------------------------------------------------------ the core's decoder

  method SkipSpaces(str: string, p: nat) returns (q: nat)
    requires p <= |str|
    ensures p <= q <= |str| && (forall j :: p <= j < q ==> IsSpace(str[j])) && (q < |str| ==> !IsSpace(str[q]))
  {
    q := p;
    while q < |str| && IsSpace(str[q])
      invariant p <= q <= |str| && forall j :: p <= j < q ==> IsSpace(str[j])
    {
      q := q + 1;
    }
  }

  /** The number of ones from `p` on, as long as they are not too many. */
  method CountOnes(str: string, p: nat, max: int) returns (ok: bool, zeroes: nat)
    requires p <= |str|
    ensures p + zeroes <= |str| && forall j :: p <= j < p + zeroes ==> str[j] == '1'
    ensures ok <==> zeroes <= Cap(max)
    ensures ok && p + zeroes < |str| ==> str[p + zeroes] != '1'
  {
    ok, zeroes := true, 0;
    while p + zeroes < |str| && str[p + zeroes] == '1'
      invariant p + zeroes <= |str| && zeroes <= Cap(max) && forall j :: p <= j < p + zeroes ==> str[j] == '1'
    {
      zeroes := zeroes + 1;
      if zeroes > max { return false, zeroes; }
    }
  }

  /**
   Convert the characters from `p` on up to a space or the end. On failure, `q`
   is an invalid character or the one that makes the number too long.
  */
  method ReadDigits(str: string, p: nat, zeroes: nat, max: int) returns (ok: bool, q: nat, bytes: seq<nat>)
    requires p <= |str| && zeroes <= Cap(max) && (p < |str| ==> str[p] != '1')
    ensures p <= q <= |str| && AllDigits(str[p..q])
    ensures ok ==> (q < |str| ==> IsSpace(str[q])) && bytes == Repr(256, Num(58, Digits(str[p..q])))
    ensures ok ==> |bytes| + zeroes <= Cap(max)
    ensures !ok ==> q < |str| && !IsSpace(str[q])
    ensures !ok && IsDigit(str[q]) ==>
              AllDigits(str[p..q + 1]) && |Repr(256, Num(58, Digits(str[p..q + 1])))| + zeroes > Cap(max)
  {
    hide Num, Pow, Repr, Shows, DigitOf, IsSpace, CharOf;
    var size := (|str| - p) * 733 / 1000 + 1;
    var b256 := new nat[size](_ => 0);
    var length: nat := 0;
    EmptyShows(256, b256[..]);
    NumNone(58);
    DecodeRoom(|str| - p);
    q := p;
    assert str[p..p] == "" && Digits("") == [];
    ok, bytes := true, [];
    while q < |str| && !IsSpace(str[q])
      invariant p <= q <= |str| && AllDigits(str[p..q]) && length + zeroes <= Cap(max)
      invariant Shows(256, b256[..], length, Num(58, Digits(str[p..q])))
    {
      var carry := DigitOf(str[q]);
      if carry == -1 {
        NotDigit(str[q]);
        return false, q, [];
      }
      NextDigit(str, p, q, size);
      length := MultiplyAdd(b256, 256, 58, carry, length, Num(58, Digits(str[p..q])));
      if length + zeroes > max {
        NotNothing(str, p, q);
        ShowsLength(256, b256[..], length, Num(58, Digits(str[p..q + 1])));
        ShowsRepr(256, b256[..], length, Num(58, Digits(str[p..q + 1])));
        return false, q, [];
      }
      q := q + 1;
    }
    ShowsLength(256, b256[..], length, Num(58, Digits(str[p..q])));
    ShowsRepr(256, b256[..], length, Num(58, Digits(str[p..q])));
    bytes := b256[size - length..];
  }

  /** A number whose first digit is not zero has digits to any base. */
  lemma NotNothing(str: string, p: nat, q: nat)
    requires p <= q < |str| && str[p] != '1' && AllDigits(str[p..q + 1])
    ensures |Repr(256, Num(58, Digits(str[p..q + 1])))| >= 1
  {
    hide Num, Repr, CharOf, DigitOf, Pow;
    var t := str[p..q + 1];
    var ds := Digits(t);
    assert t[0] == str[p] && IsDigit(t[0]);
    DigitChar(t[0]);
    CharDigit(0);
    OneIsZero();
    NumLeading(58, ds);
    NumOfRepr(256, Num(58, ds));
    assert ds[0] * Pow(58, |ds| - 1) >= 1 by { ProductPositive(ds[0], Pow(58, |ds| - 1)); }
  }

  lemma ProductPositive(x: nat, y: nat)
    requires x >= 1 && y >= 1
    ensures x * y >= 1
  {
  }

  lemma NotDigit(c: char)
    requires DigitOf(c) == -1
    ensures !IsDigit(c)
  {
    hide DigitOf;
  }

  lemma NextDigit(str: string, p: nat, q: nat, size: nat)
    requires p <= q < |str| && AllDigits(str[p..q]) && DigitOf(str[q]) != -1 && Pow(58, |str| - p) < Pow(256, size)
    ensures IsDigit(str[q]) && AllDigits(str[p..q + 1])
    ensures 0 <= DigitOf(str[q])
    ensures 58 * Num(58, Digits(str[p..q])) + DigitOf(str[q]) == Num(58, Digits(str[p..q + 1])) < Pow(256, size)
  {
    hide Num, Pow;
    var t := str[p..q + 1];
    assert IsDigit(str[q]);
    assert t == str[p..q] + [str[q]];
    TextDigits(t);
    var ds := Digits(t);
    assert Digits(str[p..q]) == ds[..q - p] && ds[..q - p + 1] == ds;
    PowGrows(58, q + 1 - p, |str| - p);
    NextFits(58, 256, ds, q - p, size);
  }

  method DecodeBase58(str: string, max: int) returns (r: Option<seq<nat>>)
    ensures r == Decoded(str, max)
  {
    hide Num, Repr, Decoded, DigitOf, IsSpace, IsDigit, Trim, First, End;
    var nul := ContainsNul(str);
    if nul < |str| {
      NulIsNothing();
      BadCharacter(str, nul, max);
      return None;
    }
    var a := SkipSpaces(str, 0);
    FirstIs(str, a);
    var few, zeroes := CountOnes(str, a, max);
    OnesAreDigits(str, a, zeroes);
    if !few {
      TooLong(str, zeroes, a + zeroes, max);
      return None;
    }
    var ok, q, bytes := ReadDigits(str, a + zeroes, zeroes, max);
    JoinDigits(str, a, a + zeroes, q);
    if !ok {
      if IsDigit(str[q]) {
        JoinDigits(str, a, a + zeroes, q + 1);
        TooLong(str, zeroes, q + 1, max);
      } else {
        BadCharacter(str, q, max);
      }
      return None;
    }
    var e := SkipSpaces(str, q);
    if e != |str| {
      Interior(str, a, q, e, max);
      return None;
    }
    r := Some(Times(zeroes, 0) + bytes);
    DecodedWhole(str, zeroes, q, bytes, max);
  }

  method ContainsNul(str: string) returns (k: nat)
    ensures k <= |str| && (forall j :: 0 <= j < k ==> str[j] != '\0') && (k < |str| ==> str[k] == '\0')
  {
    k := 0;
    while k < |str| && str[k] != '\0'
      invariant k <= |str| && forall j :: 0 <= j < k ==> str[j] != '\0'
    {
      k := k + 1;
    }
  }

  lemma NulIsNothing()
    ensures !IsSpace('\0') && !IsDigit('\0')
  {
  }

  lemma FirstIs(s: string, k: nat)
    requires k <= |s| && (forall j :: 0 <= j < k ==> IsSpace(s[j])) && (k < |s| ==> !IsSpace(s[k]))
    ensures First(s) == k
  {
    hide First, IsSpace;
  }

  lemma EndIs(s: string, k: nat)
    requires k <= |s| && (forall j :: k <= j < |s| ==> IsSpace(s[j])) && (k > 0 ==> !IsSpace(s[k - 1]))
    ensures End(s) == k
  {
    hide End, IsSpace;
  }

  /** Everything but the spaces around it is part of the trimmed string. */
  lemma InTrim(s: string, j: nat)
    requires j < |s| && !IsSpace(s[j])
    ensures First(s) <= j < End(s) && Trim(s) == s[First(s)..End(s)]
  {
    hide First, End, IsSpace;
  }

  lemma BadCharacter(s: string, j: nat, max: int)
    requires j < |s| && !IsSpace(s[j]) && !IsDigit(s[j])
    ensures Decoded(s, max) == None
  {
    hide First, End, IsSpace, IsDigit, Bytes;
    InTrim(s, j);
    assert Trim(s)[j - First(s)] == s[j];
  }

  lemma SpaceIsNoDigit(c: char)
    ensures !(IsSpace(c) && IsDigit(c))
  {
  }

  /** A space between other characters. */
  lemma Interior(s: string, a: nat, q: nat, e: nat, max: int)
    requires a == First(s) && a <= q < e < |s| && IsSpace(s[q]) && !IsSpace(s[e])
    ensures Decoded(s, max) == None
  {
    hide First, End, IsSpace, IsDigit, Bytes;
    InTrim(s, e);
    SpaceIsNoDigit(s[q]);
    assert Trim(s)[q - First(s)] == s[q];
  }

  lemma OnesAreDigits(s: string, a: nat, k: nat)
    requires a + k <= |s| && forall j :: a <= j < a + k ==> s[j] == '1'
    ensures AllDigits(s[a..a + k])
  {
  }

  lemma JoinDigits(s: string, a: nat, b: nat, c: nat)
    requires a <= b <= c <= |s| && AllDigits(s[a..b]) && AllDigits(s[b..c])
    ensures AllDigits(s[a..c])
  {
    hide IsDigit;
    assert forall i :: 0 <= i < b - a ==> s[a..c][i] == s[a..b][i];
    assert forall i :: b - a <= i < c - a ==> s[a..c][i] == s[b..c][i - (b - a)];
  }

  lemma NumPrefix(b: nat, s: seq<nat>, n: nat)
    requires b > 0 && n <= |s|
    ensures Num(b, s[..n]) <= Num(b, s)
  {
    hide Num, Pow;
    assert s == s[..n] + s[n..];
    NumAppend(b, s[..n], s[n..]);
    MulMono(1, Pow(b, |s| - n), Num(b, s[..n]));
  }

  lemma DivMono(m: nat, n: nat, b: nat)
    requires b > 0 && m <= n
    ensures m / b <= n / b
  {
    Division(m, b);
    Division(n, b);
    if m / b > n / b { MulMono(n / b + 1, m / b, b); }
  }

  lemma {:induction false} ReprMono(b: nat, m: nat, n: nat)
    requires b > 1 && m <= n
    ensures |Repr(b, m)| <= |Repr(b, n)|
    decreases m
  {
    hide Repr;
    if m > 0 {
      Shrinks(m, b);
      DivMono(m, n, b);
      ReprMono(b, m / b, n / b);
      ReprUnfold(b, m);
      ReprUnfold(b, n);
    } else {
      NumOfRepr(b, 0);
    }
  }

  lemma SubDigits(s: string, a: nat, b: nat, q: nat)
    requires a <= b <= q <= |s| && AllDigits(s[a..q])
    ensures AllDigits(s[b..q])
  {
    hide IsDigit;
    forall i | 0 <= i < q - b ensures IsDigit(s[b..q][i]) {
      assert s[b..q][i] == s[a..q][b - a + i];
    }
  }

  /** If the characters up to `q` give too many bytes, so does the whole. */
  lemma TooLong(s: string, k: nat, q: nat, max: int)
    requires First(s) + k <= q <= |s| && AllDigits(s[First(s)..q])
    requires forall j :: First(s) <= j < First(s) + k ==> s[j] == '1'
    requires AllDigits(s[First(s) + k..q]) ==> k + |Repr(256, Num(58, Digits(s[First(s) + k..q])))| > Cap(max)
    ensures Decoded(s, max) == None
  {
    hide First, End, Trim, IsSpace, AllDigits, Num, Repr, Digits, Bytes;
    var a := First(s);
    var u := s[a + k..q];
    SubDigits(s, a, a + k, q);
    if q == a {
      EmptyRepr(u);
    } else {
      LastIsDigit(s, a, q);
      InTrim(s, q - 1);
      var t := Trim(s);
      if AllDigits(t) { LongPrefix(t, k, u, q - a); }
    }
  }

  lemma EmptyRepr(u: string)
    requires u == ""
    ensures AllDigits(u) && Repr(256, Num(58, Digits(u))) == []
  {
  }

  lemma LongPrefix(t: string, k: nat, u: string, n: nat)
    requires AllDigits(t) && AllDigits(u) && k <= n <= |t| && u == t[k..n] && forall j :: 0 <= j < k ==> t[j] == '1'
    ensures |Bytes(t)| >= k + |Repr(256, Num(58, Digits(u)))|
  {
    hide Num, Repr;
    var ds := Digits(t);
    assert Digits(u) == ds[..n][k..];
    NumSkips(58, ds[..n], k);
    NumPrefix(58, ds, n);
    ReprMono(256, Num(58, Digits(u)), Num(58, ds));
    assert k <= Leading(t, '1');
  }

  lemma DecodedWhole(s: string, k: nat, q: nat, bytes: seq<nat>, max: int)
    requires First(s) + k <= q <= |s| && AllDigits(s[First(s)..q]) && (forall j :: q <= j < |s| ==> IsSpace(s[j]))
    requires forall j :: First(s) <= j < First(s) + k ==> s[j] == '1'
    requires First(s) + k < |s| ==> s[First(s) + k] != '1'
    requires AllDigits(s[First(s) + k..q]) && bytes == Repr(256, Num(58, Digits(s[First(s) + k..q])))
    requires k + |bytes| <= Cap(max)
    ensures Decoded(s, max) == Some(Times(k, 0) + bytes)
  {
    hide First, Trim, IsSpace, AllDigits, Digits, Bytes, Num, Repr;
    var t := s[First(s)..q];
    if First(s) < q { LastIsDigit(s, First(s), q); }
    TrimmedTo(s, q);
    assert s[First(s) + k..q] == t[k..];
    BytesAfterOnes(t, k);
  }

  lemma BytesAfterOnes(t: string, k: nat)
    requires AllDigits(t) && k <= |t| && AllDigits(t[k..])
    requires (forall j :: 0 <= j < k ==> t[j] == '1') && (k < |t| ==> t[k] != '1')
    ensures Bytes(t) == Times(k, 0) + Repr(256, Num(58, Digits(t[k..])))
  {
    hide AllDigits, Digits, Num, Repr;
    LeadingIs(t, '1', k);
    DigitsSkip(t, k);
  }

  lemma DigitsSkip(t: string, k: nat)
    requires AllDigits(t) && k <= |t| && AllDigits(t[k..]) && forall j :: 0 <= j < k ==> t[j] == '1'
    ensures Num(58, Digits(t)) == Num(58, Digits(t[k..]))
  {
    hide Num, CharOf, DigitOf;
    OneIsZero();
    CharDigit(0);
    assert Digits(t[k..]) == Digits(t)[k..];
    NumSkips(58, Digits(t), k);
  }

  lemma LastIsDigit(s: string, a: nat, q: nat)
    requires a < q <= |s| && AllDigits(s[a..q])
    ensures !IsSpace(s[q - 1])
  {
    hide IsSpace, IsDigit;
    assert s[a..q][q - 1 - a] == s[q - 1];
    SpaceIsNoDigit(s[q - 1]);
  }

  lemma AllSpaces(s: string)
    requires First(s) == |s|
    ensures Trim(s) == ""
  {
    hide First, End, IsSpace;
  }

  lemma TrimmedTo(s: string, q: nat)
    requires First(s) <= q <= |s| && (First(s) < q ==> !IsSpace(s[q - 1])) && forall j :: q <= j < |s| ==> IsSpace(s[j])
    ensures Trim(s) == s[First(s)..q]
  {
    hide First, End, IsSpace, Trim;
    if First(s) < q {
      EndIs(s, q);
      InTrim(s, q - 1);
    } else {
      AllSpaces(s);
    }
  }

  // ------------------------------------------------------------ the wallet's codec

  /** The wallet's encoder, on one big integer, agrees with the core's. */
  method WalletEncode(full: seq<nat>) returns (out: string)
    requires IsDigits(256, full)
    ensures out == Encoded(full)
  {
    hide Num, Repr, CharOf;
    var leadingZeros := 0;
    while leadingZeros < |full| && full[leadingZeros] == 0
      invariant leadingZeros <= |full| && forall i :: 0 <= i < leadingZeros ==> full[i] == 0
    {
      leadingZeros := leadingZeros + 1;
    }
    LeadingIs(full, 0, leadingZeros);
    var num: nat := 0;
    NumNone(256);
    for i := 0 to |full|
      invariant num == Num(256, full[..i])
    {
      NumUnfold(256, full[..i + 1]);
      assert full[..i + 1][..i] == full[..i];
      num := num * 256 + full[i];
    }
    assert full[..|full|] == full;
    out := "";
    ghost var whole := num;
    NumOfRepr(58, whole);
    assert Text(Repr(58, whole))[|Repr(58, whole)|..] == "";
    while num > 0
      invariant IsPrefix(58, num, whole) && out == Text(Repr(58, whole))[|Repr(58, num)|..]
      decreases num
    {
      Shrinks(num, 58);
      PrefixStep(58, num, whole);
      out := [CharOf(num % 58)] + out;
      num := num / 58;
    }
    NumOfRepr(58, 0);
    out := Times(leadingZeros, '1') + out;
  }

  ghost predicate IsPrefix(b: nat, m: nat, n: nat)
    requires b > 1
  {
    |Repr(b, m)| <= |Repr(b, n)| && Repr(b, n)[..|Repr(b, m)|] == Repr(b, m)
  }

  lemma PrefixStep(b: nat, m: nat, n: nat)
    requires b > 1 && m > 0 && IsPrefix(b, m, n)
    ensures IsPrefix(b, m / b, n) && |Repr(b, m)| == |Repr(b, m / b)| + 1 && Repr(b, n)[|Repr(b, m)| - 1] == m % b
  {
    hide Repr;
    var r, p := Repr(b, n), Repr(b, m);
    ReprUnfold(b, m);
    assert p[|p| - 1] == r[|p| - 1];
    assert Repr(b, m / b) == p[..|p| - 1] == r[..|p| - 1];
  }

  /** The wallet's decoder knows no spaces and no limit. */
  method WalletDecode(str: string) returns (r: Option<seq<nat>>)
    ensures r == if AllDigits(str) then Some(Bytes(str)) else None
  {
    hide Num, Repr, DigitOf;
    var num: nat := 0;
    NumNone(58);
    assert Digits("") == [];
    for i := 0 to |str|
      invariant AllDigits(str[..i]) && num == Num(58, Digits(str[..i]))
    {
      var idx := DigitOf(str[i]);
      if idx < 0 { return None; }
      assert AllDigits(str[..i + 1]) by { assert str[..i + 1] == str[..i] + [str[i]]; }
      var ds := Digits(str[..i + 1]);
      NumUnfold(58, ds);
      assert ds[..i] == Digits(str[..i]);
      num := num * 58 + idx;
    }
    assert str[..|str|] == str;
    var bytes: seq<nat> := [];
    ghost var whole := num;
    while num > 0
      invariant Repr(256, whole) == Repr(256, num) + bytes
      decreases num
    {
      Shrinks(num, 256);
      ReprUnfold(256, num);
      bytes := [num % 256] + bytes;
      num := num / 256;
    }
    NumOfRepr(256, 0);
    assert Repr(256, whole) == bytes;
    var leadingZeros := 0;
    while leadingZeros < |str| && str[leadingZeros] == '1'
      invariant leadingZeros <= |str| && forall i :: 0 <= i < leadingZeros ==> str[i] == '1'
    {
      leadingZeros := leadingZeros + 1;
    }
    LeadingIs(str, '1', leadingZeros);
    r := Some(Times(leadingZeros, 0) + bytes);
  }

  lemma ReprUnfold(b: nat, n: nat)
    requires b > 1 && n > 0
    ensures Repr(b, n) == Repr(b, n / b) + [n % b]
  {
  }

  // ------------------------------------------------------------ with a checksum

  const INT_MAX: nat := 2147483647

  ghost predicate IsHash(hash: seq<nat> -> seq<nat>) {
    forall v :: |hash(v)| == 32 && IsDigits(256, hash(v))
  }

  ghost function EncodedCheck(hash: seq<nat> -> seq<nat>, v: seq<nat>): string
    requires IsHash(hash)
  {
    Encoded(v + hash(v)[..4])
  }

  method EncodeBase58Check(hash: seq<nat> -> seq<nat>, input: seq<nat>) returns (str: string)
    requires IsHash(hash) && IsDigits(256, input)
    ensures str == EncodedCheck(hash, input)
  {
    hide Encoded;
    var vch := input + hash(input)[..4];
    str := EncodeBase58(vch);
  }

  /** The limit with the checksum, without overflow. */
  function CheckLimit(max: int): int { if max > INT_MAX - 4 then INT_MAX else max + 4 }

  /**
   Success means the string is the encoding of the result and its checksum; failure, that
   it is of nothing short enough.
  */
  method DecodeBase58Check(hash: seq<nat> -> seq<nat>, str: string, max: int) returns (r: Option<seq<nat>>)
    requires IsHash(hash)
    ensures r.Some? ==> IsDigits(256, r.value) && Trim(str) == EncodedCheck(hash, r.value)
    ensures r.Some? ==> |r.value| + 4 <= CheckLimit(max)
    ensures r.None? ==>
              forall v :: IsDigits(256, v) && Trim(str) == EncodedCheck(hash, v) ==> |v| + 4 > CheckLimit(max)
  {
    hide Encoded, Decoded, Trim;
    var limit := CheckLimit(max);
    var d := DecodeBase58(str, limit);
    forall v | IsDigits(256, v) && Trim(str) == EncodedCheck(hash, v) && |v| + 4 <= limit
        ensures d == Some(v + hash(v)[..4]) {
      DecodesIff(str, limit, v + hash(v)[..4]);
    }
    if d.None? || |d.value| < 4 { return None; }
    var w := d.value;
    DecodesIff(str, limit, w);
    var v := w[..|w| - 4];
    if hash(v)[..4] != w[|w| - 4..] {
      forall u: seq<nat> ensures w != u + hash(u)[..4] {
        Parts(u, hash(u)[..4]);
      }
      return None;
    }
    assert w == v + hash(v)[..4];
    r := Some(v);
  }

  lemma Parts(u: seq<nat>, x: seq<nat>)
    requires |x| == 4
    ensures var w := u + x; |w| >= 4 && w[..|w| - 4] == u && w[|w| - 4..] == x
  {
  }

  method WalletEncodeCheck(hash: seq<nat> -> seq<nat>, payload: seq<nat>) returns (str: string)
    requires IsHash(hash) && IsDigits(256, payload)
    ensures str == EncodedCheck(hash, payload)
  {
    hide Encoded;
    str := WalletEncode(payload + hash(payload)[..4]);
  }

  /**
   The wallet accepts exactly the encodings with their checksums; missing checksum
   bytes compare as different.
  */
  method WalletDecodeCheck(hash: seq<nat> -> seq<nat>, str: string) returns (r: Option<seq<nat>>)
    requires IsHash(hash)
    ensures r.Some? ==> IsDigits(256, r.value) && str == EncodedCheck(hash, r.value)
    ensures r.None? ==> forall v :: IsDigits(256, v) ==> str != EncodedCheck(hash, v)
  {
    hide Encoded, Bytes, Trim, AllDigits;
    var d := WalletDecode(str);
    forall v | IsDigits(256, v) && str == EncodedCheck(hash, v) ensures d == Some(v + hash(v)[..4]) {
      BytesOfEncoded(v + hash(v)[..4]);
    }
    if d.None? || |d.value| < 4 { return None; }
    EncodedOfBytes(str);
    var full := d.value;
    var payload, checksum := full[..|full| - 4], full[|full| - 4..];
    if hash(payload)[..4] != checksum {
      forall u: seq<nat> ensures full != u + hash(u)[..4] {
        Parts(u, hash(u)[..4]);
      }
      return None;
    }
    assert full == payload + hash(payload)[..4];
    r := Some(payload);
  }
}

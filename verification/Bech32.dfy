/**
 Encoding and decoding of Bech32 and Bech32m strings.
*/
module Bech32 {
  import opened Bech32Code
  import Errors = Bech32Errors

  // ------------------------------------------------------------ characters

  /** Bytes are bit-vectors of the same width as the groups. */
  type Text = seq<bv32>

  const SEPARATOR: bv32 := 0x31
  const NONE: bv32 := 0xff

  predicate IsLower(c: bv32) { 0x61 <= c <= 0x7a }

  predicate IsUpper(c: bv32) { 0x41 <= c <= 0x5a }

  predicate Printable(c: bv32) { 33 <= c <= 126 }

  function LowerCase(c: bv32): bv32 { if IsUpper(c) then (c - 0x41) + 0x61 else c }

  function Lower(s: Text): (r: Text)
    ensures |r| == |s| && forall i :: 0 <= i < |s| ==> r[i] == LowerCase(s[i])
  {
    seq(|s|, i requires 0 <= i < |s| => LowerCase(s[i]))
  }

  /** The character set for encoding. */
  function CharOf(v: bv32): bv32 {
    if v == 0 then 0x71 else if v == 1 then 0x70 else if v == 2 then 0x7a else if v == 3 then 0x72 else
    if v == 4 then 0x79 else if v == 5 then 0x39 else if v == 6 then 0x78 else if v == 7 then 0x38 else
    if v == 8 then 0x67 else if v == 9 then 0x66 else if v == 10 then 0x32 else if v == 11 then 0x74 else
    if v == 12 then 0x76 else if v == 13 then 0x64 else if v == 14 then 0x77 else if v == 15 then 0x30 else
    if v == 16 then 0x73 else if v == 17 then 0x33 else if v == 18 then 0x6a else if v == 19 then 0x6e else
    if v == 20 then 0x35 else if v == 21 then 0x34 else if v == 22 then 0x6b else if v == 23 then 0x68 else
    if v == 24 then 0x63 else if v == 25 then 0x65 else if v == 26 then 0x36 else if v == 27 then 0x6d else
    if v == 28 then 0x75 else if v == 29 then 0x61 else if v == 30 then 0x37 else
    0x6c
  }

  /** The character set for decoding, which knows both cases. */
  function GroupOf(c: bv32): bv32 {
    var d := LowerCase(c);
    if d == 0x71 then 0 else if d == 0x70 then 1 else if d == 0x7a then 2 else if d == 0x72 then 3 else
    if d == 0x79 then 4 else if d == 0x39 then 5 else if d == 0x78 then 6 else if d == 0x38 then 7 else
    if d == 0x67 then 8 else if d == 0x66 then 9 else if d == 0x32 then 10 else if d == 0x74 then 11 else
    if d == 0x76 then 12 else if d == 0x64 then 13 else if d == 0x77 then 14 else if d == 0x30 then 15 else
    if d == 0x73 then 16 else if d == 0x33 then 17 else if d == 0x6a then 18 else if d == 0x6e then 19 else
    if d == 0x35 then 20 else if d == 0x34 then 21 else if d == 0x6b then 22 else if d == 0x68 then 23 else
    if d == 0x63 then 24 else if d == 0x65 then 25 else if d == 0x36 then 26 else if d == 0x6d then 27 else
    if d == 0x75 then 28 else if d == 0x61 then 29 else if d == 0x37 then 30 else if d == 0x6c then 31 else
    NONE
  }

  lemma GroupTable()
    ensures GroupOf(0x71) == 0 && GroupOf(0x70) == 1 && GroupOf(0x7a) == 2 && GroupOf(0x72) == 3 && GroupOf(0x79) == 4
    ensures GroupOf(0x39) == 5 && GroupOf(0x78) == 6 && GroupOf(0x38) == 7
    ensures GroupOf(0x67) == 8 && GroupOf(0x66) == 9 && GroupOf(0x32) == 10 && GroupOf(0x74) == 11
    ensures GroupOf(0x76) == 12 && GroupOf(0x64) == 13 && GroupOf(0x77) == 14 && GroupOf(0x30) == 15
    ensures GroupOf(0x73) == 16 && GroupOf(0x33) == 17 && GroupOf(0x6a) == 18 && GroupOf(0x6e) == 19
    ensures GroupOf(0x35) == 20 && GroupOf(0x34) == 21 && GroupOf(0x6b) == 22 && GroupOf(0x68) == 23
    ensures GroupOf(0x63) == 24 && GroupOf(0x65) == 25 && GroupOf(0x36) == 26 && GroupOf(0x6d) == 27
    ensures GroupOf(0x75) == 28 && GroupOf(0x61) == 29 && GroupOf(0x37) == 30 && GroupOf(0x6c) == 31
  {
  }

  lemma CharTable0()
    ensures CharOf(0) == 0x71 && CharOf(1) == 0x70 && CharOf(2) == 0x7a && CharOf(3) == 0x72 && CharOf(4) == 0x79
    ensures CharOf(5) == 0x39 && CharOf(6) == 0x78 && CharOf(7) == 0x38
  {
  }

  lemma CharTable1()
    ensures CharOf(8) == 0x67 && CharOf(9) == 0x66 && CharOf(10) == 0x32 && CharOf(11) == 0x74 && CharOf(12) == 0x76
    ensures CharOf(13) == 0x64 && CharOf(14) == 0x77 && CharOf(15) == 0x30
  {
  }

  lemma CharTable2()
    ensures CharOf(16) == 0x73 && CharOf(17) == 0x33 && CharOf(18) == 0x6a && CharOf(19) == 0x6e && CharOf(20) == 0x35
    ensures CharOf(21) == 0x34 && CharOf(22) == 0x6b && CharOf(23) == 0x68
  {
  }

  lemma CharTable3()
    ensures CharOf(24) == 0x63 && CharOf(25) == 0x65 && CharOf(26) == 0x36 && CharOf(27) == 0x6d && CharOf(28) == 0x75
    ensures CharOf(29) == 0x61 && CharOf(30) == 0x37 && CharOf(31) == 0x6c
  {
  }

  lemma CharGroup(v: bv32)
    requires v < 32
    ensures var c := CharOf(v); GroupOf(c) == v && Printable(c) && !IsUpper(c) && c != SEPARATOR
  {
    hide GroupOf;
    GroupTable();
  }

  lemma GroupChar(c: bv32)
    requires GroupOf(c) != NONE
    ensures GroupOf(c) < 32 && CharOf(GroupOf(c)) == LowerCase(c)
  {
    hide CharOf, LowerCase;
    CharTable0(); CharTable1(); CharTable2(); CharTable3();
  }

  // ------------------------------------------------------------ the checksum

  datatype Encoding = BECH32 | BECH32M

  function Constant(e: Encoding): bv32 {
    if e == BECH32 then 1 else 0x2bc830a3
  }

  /** The human-readable part as groups: high bits, a zero, low bits. */
  function Expand(hrp: Text): (r: Data)
    ensures |r| == 2 * |hrp| + 1
    ensures forall i :: 0 <= i < |r| ==> r[i] < TWO30
  {
    seq(|hrp|, i requires 0 <= i < |hrp| => HighBits(hrp[i])) + [0]
    + seq(|hrp|, i requires 0 <= i < |hrp| => LowBits(hrp[i]))
  }

  function HighBits(c: bv32): bv32 { c >> 5 }

  function LowBits(c: bv32): bv32 { c & 31 }

  method ExpandHrp(hrp: Text) returns (ret: array<bv32>)
    ensures fresh(ret) && ret[..] == Expand(hrp)
  {
    var n := |hrp|;
    ret := new bv32[2 * n + 1];
    for i := 0 to n
      invariant forall j :: 0 <= j < i ==> ret[j] == HighBits(hrp[j]) && ret[j + n + 1] == LowBits(hrp[j])
    {
      ret[i] := hrp[i] >> 5;
      ret[i + n + 1] := hrp[i] & 31;
    }
    ret[n] := 0;
  }

  function Group(mod: bv32, i: nat): bv32
    requires i < 6
  {
    (if i == 0 then mod >> 25 else if i == 1 then mod >> 20 else if i == 2 then mod >> 15
     else if i == 3 then mod >> 10 else if i == 4 then mod >> 5 else mod) & 31
  }

  function Groups(mod: bv32): (r: Data)
    ensures |r| == 6
  {
    [(mod >> 25) & 31, (mod >> 20) & 31, (mod >> 15) & 31, (mod >> 10) & 31, (mod >> 5) & 31, mod & 31]
  }

  lemma GroupAt(mod: bv32, i: nat)
    requires i < 6
    ensures Groups(mod)[i] == Group(mod, i)
  {
    if i == 0 {
    } else if i == 1 {
    } else if i == 2 {
    } else if i == 3 {
    } else if i == 4 {
    }
  }

  const SIX_ZEROS: Data := [0, 0, 0, 0, 0, 0]

  function Checksum(e: Encoding, hrp: Text, values: Data): Data {
    Groups(Xor(Fold(1, Expand(hrp) + values + SIX_ZEROS), Constant(e)))
  }

  method CreateChecksum(e: Encoding, hrp: Text, values: Data) returns (ret: Data)
    ensures ret == Checksum(e, hrp, values)
  {
    var x := ExpandHrp(hrp);
    var enc := x[..] + values;
    enc := enc + SIX_ZEROS;
    var mod := PolyMod(enc);
    mod := Xor(mod, Constant(e));
    ret := [];
    for i := 0 to 6
      invariant ret == Groups(mod)[..i]
    {
      GroupAt(mod, i);
      ret := ret + [Group(mod, i)];
    }
  }

  /** Six groups pack back into the number they were cut from. */
  lemma PackGroups(m: bv32)
    requires m < TWO30
    ensures Fold(0, Groups(m)) == m && FiveBit(Groups(m))
  {
    hide Fold;
    var r := Groups(m);
    Pack0(m, r); Pack1(m, r); Pack2(m, r); Pack3(m, r); Pack4(m, r); Pack5(m, r);
    assert r[..6] == r;
  }

  lemma FoldNone(c: bv32)
    ensures Fold(c, []) == c
  {
  }

  lemma Pack0(m: bv32, r: Data)
    requires m < TWO30 && |r| == 6 && r[0] == (m >> 25) & 31
    ensures Fold(0, r[..1]) == m >> 25 && r[0] < 32
  {
    FoldNone(0);
    PackTo(0, r, 0, 0, m >> 25);
  }

  lemma Pack1(m: bv32, r: Data)
    requires m < TWO30 && |r| == 6 && r[1] == (m >> 20) & 31 && Fold(0, r[..1]) == m >> 25
    ensures Fold(0, r[..2]) == m >> 20 && r[1] < 32
  {
    hide Fold;
    PackTo(0, r, 1, m >> 25, m >> 20);
  }

  lemma Pack2(m: bv32, r: Data)
    requires m < TWO30 && |r| == 6 && r[2] == (m >> 15) & 31 && Fold(0, r[..2]) == m >> 20
    ensures Fold(0, r[..3]) == m >> 15 && r[2] < 32
  {
    hide Fold;
    PackTo(0, r, 2, m >> 20, m >> 15);
  }

  lemma Pack3(m: bv32, r: Data)
    requires m < TWO30 && |r| == 6 && r[3] == (m >> 10) & 31 && Fold(0, r[..3]) == m >> 15
    ensures Fold(0, r[..4]) == m >> 10 && r[3] < 32
  {
    hide Fold;
    PackTo(0, r, 3, m >> 15, m >> 10);
  }

  lemma Pack4(m: bv32, r: Data)
    requires m < TWO30 && |r| == 6 && r[4] == (m >> 5) & 31 && Fold(0, r[..4]) == m >> 10
    ensures Fold(0, r[..5]) == m >> 5 && r[4] < 32
  {
    hide Fold;
    PackTo(0, r, 4, m >> 10, m >> 5);
  }

  lemma Pack5(m: bv32, r: Data)
    requires m < TWO30 && |r| == 6 && r[5] == m & 31 && Fold(0, r[..5]) == m >> 5
    ensures Fold(0, r[..6]) == m && r[5] < 32
  {
    hide Fold;
    PackTo(0, r, 5, m >> 5, m);
  }

  lemma PackTo(z: bv32, r: Data, i: nat, c: bv32, d: bv32)
    requires i < |r| && c == Fold(z, r[..i]) && c < TWO25 && d == (c << 5) ^ r[i]
    ensures Fold(z, r[..i + 1]) == d
  {
    hide Step;
    StepSmall(c, r[i]);
    assert r[..i + 1][..i] == r[..i];
  }

  /** The checksum completes its word to the constant of the encoding, and no other six groups do. */
  lemma ChecksumCompletes(e: Encoding, hrp: Text, values: Data, sum: Data)
    requires |sum| == 6 && FiveBit(values) && FiveBit(sum)
    ensures Fold(1, Expand(hrp) + values + sum) == Constant(e) <==> sum == Checksum(e, hrp, values)
    ensures FiveBit(Checksum(e, hrp, values))
  {
    hide Xor, Step, Fold, Expand;
    var x := Expand(hrp) + values;
    var c := Fold(1, x);
    var own := Checksum(e, hrp, values);
    FoldBound(1, x);
    FoldBound(c, SIX_ZEROS);
    FoldAppend(1, x, SIX_ZEROS);
    FoldAppend(1, x, own);
    FoldAppend(1, x, sum);
    var z := Fold(c, SIX_ZEROS);
    var m := Xor(z, Constant(e));
    BoundXor(z, Constant(e));
    PackGroups(m);
    XorLaws(c, 0, 0);
    assert XorAll(SIX_ZEROS, own) == own by { ZerosNeutral(SIX_ZEROS, own); }
    FoldLinear(c, 0, SIX_ZEROS, own);
    XorLaws(z, z, Constant(e));
    XorLaws(Constant(e), 0, 0);
    XorLaws(0, Constant(e), 0);
    assert Fold(c, own) == Constant(e);
    if Fold(c, sum) == Constant(e) {
      assert sum[0..] == sum && own[0..] == own;
      WindowDetected(c, sum, own, 0);
    }
  }

  lemma BoundXor(a: bv32, b: bv32)
    requires a < TWO30 && b < TWO30
    ensures Xor(a, b) < TWO30
  {
  }

  lemma ZerosNeutral(z: Data, v: Data)
    requires |z| == |v| && IsZero(z)
    ensures XorAll(z, v) == v
  {
    forall i | 0 <= i < |v| ensures XorAll(z, v)[i] == v[i] {
      XorLaws(v[i], 0, 0);
      XorLaws(0, v[i], 0);
    }
  }

  // ------------------------------------------------------------ strings

  predicate IsLetter(c: bv32) { IsLower(c) || IsUpper(c) }

  ghost predicate FirstLetter(s: Text, j: nat) {
    j < |s| && IsLetter(s[j]) && forall k :: 0 <= k < j ==> !IsLetter(s[k])
  }

  /** A character is wrong if it cannot be printed, or its case is not that of the first letter. */
  ghost predicate WrongAt(s: Text, i: nat)
    requires i < |s|
  {
    !Printable(s[i]) || (IsLetter(s[i]) && exists j: nat :: FirstLetter(s, j) && IsUpper(s[j]) != IsUpper(s[i]))
  }

  /** Only printable characters, and letters of one case. */
  ghost predicate Clean(s: Text) {
    && (forall i :: 0 <= i < |s| ==> Printable(s[i]))
    && ((forall i :: 0 <= i < |s| ==> !IsUpper(s[i])) || (forall i :: 0 <= i < |s| ==> !IsLower(s[i])))
  }

  method CheckCharacters(s: Text) returns (errors: seq<nat>)
    ensures forall i: nat :: i in errors <==> i < |s| && WrongAt(s, i)
    ensures errors == [] <==> Clean(s)
  {
    var lower, upper := false, false;
    errors := [];
    for i := 0 to |s|
      invariant lower <==> exists j :: 0 <= j < i && FirstLetter(s, j) && IsLower(s[j])
      invariant upper <==> exists j :: 0 <= j < i && FirstLetter(s, j) && IsUpper(s[j])
      invariant !lower && !upper ==> forall j :: 0 <= j < i ==> !IsLetter(s[j])
      invariant forall k: nat :: k in errors <==> k < i && WrongAt(s, k)
    {
      var c := s[i];
      if IsLower(c) {
        if upper { errors := errors + [i]; } else { lower := true; }
      } else if IsUpper(c) {
        if lower { errors := errors + [i]; } else { upper := true; }
      } else if !Printable(c) {
        errors := errors + [i];
      }
    }
    CleanIff(s, errors);
  }

  lemma LetterKinds(c: bv32)
    ensures !(IsLower(c) && IsUpper(c)) && (IsLetter(c) ==> Printable(c))
  {
  }

  lemma CleanIff(s: Text, errors: seq<nat>)
    requires forall i: nat :: i in errors <==> i < |s| && WrongAt(s, i)
    ensures errors == [] <==> Clean(s)
  {
    hide Printable, IsLower, IsUpper;
    forall c ensures !(IsLower(c) && IsUpper(c)) { LetterKinds(c); }
    if errors != [] {
      assert errors[0] in errors;
    } else {
      forall i: nat | i < |s| ensures !WrongAt(s, i) { assert i !in errors; }
      NoneWrong(s);
    }
  }

  lemma NoneWrong(s: Text)
    requires forall i: nat :: i < |s| ==> !WrongAt(s, i)
    requires forall c :: !(IsLower(c) && IsUpper(c))
    ensures Clean(s)
  {
    hide Printable, IsLower, IsUpper;
    forall i | 0 <= i < |s| ensures Printable(s[i]) { assert !WrongAt(s, i); }
    if i :| 0 <= i < |s| && IsLetter(s[i]) {
      var j := LeastLetter(s, i);
      forall k | 0 <= k < |s| && IsLetter(s[k]) ensures IsUpper(s[k]) == IsUpper(s[j]) { assert !WrongAt(s, k); }
    }
  }

  lemma {:induction false} LeastLetter(s: Text, i: nat) returns (j: nat)
    requires i < |s| && IsLetter(s[i])
    ensures FirstLetter(s, j)
  {
    j := i;
    if k :| 0 <= k < i && IsLetter(s[k]) {
      j := LeastLetter(s, k);
    }
  }

  /** The position of the last separator, or -1. */
  function LastSeparator(s: Text): (r: int)
    ensures -1 <= r < |s|
    ensures r >= 0 ==> s[r] == SEPARATOR
    ensures forall j :: r < j < |s| ==> s[j] != SEPARATOR
  {
    if s == [] then -1
    else if s[|s| - 1] == SEPARATOR then |s| - 1
    else LastSeparator(s[..|s| - 1])
  }

  function Chars(v: Data): (r: Text)
    ensures |r| == |v| && forall i :: 0 <= i < |v| ==> r[i] == CharOf(v[i])
  {
    seq(|v|, i requires 0 <= i < |v| => CharOf(v[i]))
  }

  function Values(s: Text): (r: Data)
    ensures |r| == |s| && forall i :: 0 <= i < |s| ==> r[i] == GroupOf(s[i])
  {
    seq(|s|, i requires 0 <= i < |s| => GroupOf(s[i]))
  }

  function Encoded(e: Encoding, hrp: Text, values: Data): Text {
    hrp + [SEPARATOR] + Chars(values + Checksum(e, hrp, values))
  }

  method Encode(e: Encoding, hrp: Text, values: Data) returns (s: Text)
    requires forall i :: 0 <= i < |hrp| ==> !IsUpper(hrp[i])
    ensures s == Encoded(e, hrp, values)
  {
    hide Checksum, CharOf;
    var checksum := CreateChecksum(e, hrp, values);
    var combined := values + checksum;
    s := hrp + [SEPARATOR];
    for i := 0 to |combined|
      invariant s == hrp + [SEPARATOR] + Chars(combined[..i])
    {
      s := s + [CharOf(combined[i])];
      assert Chars(combined[..i + 1]) == Chars(combined[..i]) + [CharOf(combined[i])];
    }
    assert combined[..|combined|] == combined;
  }

  datatype DecodeResult = Invalid | Decoded(encoding: Encoding, hrp: Text, data: Data)

  function Verified(hrp: Text, values: Data): DecodeResult
    requires |values| >= 6
  {
    var check := Fold(1, Expand(hrp) + values);
    if check == Constant(BECH32) then Decoded(BECH32, hrp, values[..|values| - 6])
    else if check == Constant(BECH32M) then Decoded(BECH32M, hrp, values[..|values| - 6])
    else Invalid
  }

  ghost function Meaning(s: Text): DecodeResult {
    var pos := LastSeparator(s);
    if !Clean(s) || |s| > 90 || pos <= 0 || pos + 7 > |s| then Invalid
    else if NONE in Values(s[pos + 1..]) then Invalid
    else Verified(Lower(s[..pos]), Values(s[pos + 1..]))
  }

  method Decode(s: Text) returns (r: DecodeResult)
    ensures r == Meaning(s)
  {
    hide Fold, Expand, Constant, GroupOf, LowerCase;
    var errors := CheckCharacters(s);
    if errors != [] { return Invalid; }
    var pos := LastSeparator(s);
    if |s| > 90 || pos <= 0 || pos + 7 > |s| { return Invalid; }
    var tail, values := s[pos + 1..], [];
    for i := 0 to |s| - 1 - pos
      invariant values == Values(tail)[..i] && NONE !in values
    {
      var rev := GroupOf(s[i + pos + 1]);
      if rev == NONE {
        assert Values(tail)[i] == NONE;
        return Invalid;
      }
      values := values + [rev];
    }
    assert values == Values(tail);
    var hrp := [];
    for i := 0 to pos
      invariant hrp == Lower(s[..pos])[..i]
    {
      hrp := hrp + [LowerCase(s[i])];
    }
    assert hrp == Lower(s[..pos]);
    r := VerifyChecksum(hrp, values);
  }

  method VerifyChecksum(hrp: Text, values: Data) returns (r: DecodeResult)
    requires |values| >= 6
    ensures r == Verified(hrp, values)
  {
    var x := ExpandHrp(hrp);
    var check := PolyMod(x[..] + values);
    if check == Constant(BECH32) { return Decoded(BECH32, hrp, values[..|values| - 6]); }
    if check == Constant(BECH32M) { return Decoded(BECH32M, hrp, values[..|values| - 6]); }
    r := Invalid;
  }

  // ------------------------------------------------------------ decoding undoes encoding

  ghost predicate NoUpper(s: Text) {
    forall i :: 0 <= i < |s| ==> !IsUpper(s[i])
  }

  ghost predicate AllPrintable(s: Text) {
    forall i :: 0 <= i < |s| ==> Printable(s[i])
  }

  lemma CaseLaws(c: bv32)
    ensures !IsUpper(LowerCase(c)) && (!IsUpper(c) ==> LowerCase(c) == c)
    ensures LowerCase(LowerCase(c)) == LowerCase(c)
    ensures (LowerCase(c) == SEPARATOR <==> c == SEPARATOR) && (Printable(LowerCase(c)) <==> Printable(c))
  {
  }

  lemma LowerOfLower(s: Text)
    requires NoUpper(s)
    ensures Lower(s) == s
  {
    forall i | 0 <= i < |s| ensures Lower(s)[i] == s[i] { CaseLaws(s[i]); }
  }

  lemma ValuesOfChars(v: Data)
    requires FiveBit(v)
    ensures Values(Chars(v)) == v && NONE !in v
    ensures NoUpper(Chars(v)) && AllPrintable(Chars(v)) && SEPARATOR !in Chars(v)
  {
    hide GroupOf, CharOf, IsUpper, Printable;
    var t := Chars(v);
    forall i | 0 <= i < |v|
      ensures Values(t)[i] == v[i] && v[i] != NONE && !IsUpper(t[i]) && Printable(t[i]) && t[i] != SEPARATOR
    {
      CharGroup(v[i]);
    }
  }

  lemma CharsOfValues(t: Text)
    requires NONE !in Values(t)
    ensures FiveBit(Values(t)) && Chars(Values(t)) == Lower(t)
  {
    hide GroupOf, CharOf, LowerCase;
    var v := Values(t);
    forall i | 0 <= i < |t| ensures v[i] < 32 && Chars(v)[i] == Lower(t)[i] {
      assert v[i] in v;
      GroupChar(t[i]);
    }
  }

  ghost predicate Encodable(hrp: Text, values: Data) {
    hrp != [] && AllPrintable(hrp) && |hrp| + |values| + 7 <= 90
  }

  /** Decoding gives back what was encoded, exactly if the parts are acceptable. */
  lemma DecodeEncoded(e: Encoding, hrp: Text, values: Data)
    requires NoUpper(hrp) && FiveBit(values)
    ensures Meaning(Encoded(e, hrp, values)) == if Encodable(hrp, values) then Decoded(e, hrp, values) else Invalid
  {
    hide Fold, Expand, Checksum, IsUpper, IsLower, Printable, Constant;
    var sum := Checksum(e, hrp, values);
    assert |sum| == 6 by { ChecksumLength(e, hrp, values); }
    assert FiveBit(sum) by { ChecksumGroups(e, hrp, values); }
    var word := values + sum;
    var s := Encoded(e, hrp, values);
    ValuesOfChars(word);
    SeparatorKind();
    EncodedShape(s, hrp, Chars(word));
    LowerOfLower(hrp);
    ChecksumCompletes(e, hrp, values, sum);
    ConstantsDiffer();
    assert Expand(hrp) + word == Expand(hrp) + values + sum;
    assert word[..|word| - 6] == values;
  }

  lemma ChecksumLength(e: Encoding, hrp: Text, values: Data)
    ensures |Checksum(e, hrp, values)| == 6
  {
    hide Fold;
  }

  lemma ChecksumGroups(e: Encoding, hrp: Text, values: Data)
    requires FiveBit(values)
    ensures FiveBit(Checksum(e, hrp, values))
  {
    hide Checksum;
    assert FiveBit(SIX_ZEROS);
    ChecksumCompletes(e, hrp, values, SIX_ZEROS);
  }

  lemma ConstantsDiffer()
    ensures Constant(BECH32) != Constant(BECH32M)
  {
  }

  lemma SeparatorKind()
    ensures Printable(SEPARATOR) && !IsUpper(SEPARATOR) && !IsLower(SEPARATOR) && LowerCase(SEPARATOR) == SEPARATOR
  {
  }

  /** A text without capitals after whose separator there is no other. */
  lemma EncodedShape(s: Text, hrp: Text, tail: Text)
    requires s == hrp + [SEPARATOR] + tail && NoUpper(hrp) && NoUpper(tail) && AllPrintable(tail) && SEPARATOR !in tail
    requires Printable(SEPARATOR) && !IsUpper(SEPARATOR)
    ensures LastSeparator(s) == |hrp| && s[..|hrp|] == hrp && s[|hrp| + 1..] == tail
    ensures Clean(s) <==> AllPrintable(hrp)
  {
    hide LastSeparator, IsUpper, IsLower, Printable;
    var r := LastSeparator(s);
    forall i | |hrp| < i < |s| ensures s[i] == tail[i - |hrp| - 1] && s[i] != SEPARATOR {
      assert tail[i - |hrp| - 1] in tail;
    }
    assert s[|hrp|] == SEPARATOR;
    if AllPrintable(hrp) {
      forall i | 0 <= i < |s| ensures Printable(s[i]) && !IsUpper(s[i]) {
        if i > |hrp| { assert s[i] == tail[i - |hrp| - 1]; }
      }
    } else {
      var i :| 0 <= i < |hrp| && !Printable(hrp[i]);
      assert s[i] == hrp[i];
    }
  }

  /** Encoding what was decoded gives the text in lower case: each word has one encoding. */
  lemma EncodeDecoded(s: Text)
    requires Meaning(s).Decoded?
    ensures var r := Meaning(s);
            && Encoded(r.encoding, r.hrp, r.data) == Lower(s)
            && NoUpper(r.hrp) && FiveBit(r.data) && Encodable(r.hrp, r.data)
  {
    hide Fold, Expand, Checksum, Encoded, IsUpper, IsLower, Printable, Constant, GroupOf, LowerCase;
    var r := Meaning(s);
    var pos := LastSeparator(s);
    var tail := s[pos + 1..];
    CharsOfValues(tail);
    VerifiedWord(r.hrp, Values(tail));
    EncodedWord(r.encoding, r.hrp, r.data, Values(tail));
    LowerParts(s, pos);
    forall i | 0 <= i < |r.hrp| ensures !IsUpper(r.hrp[i]) && Printable(r.hrp[i]) { CaseLaws(s[i]); }
  }

  lemma LowerParts(s: Text, pos: nat)
    requires pos < |s| && s[pos] == SEPARATOR
    ensures Lower(s) == Lower(s[..pos]) + [SEPARATOR] + Lower(s[pos + 1..])
  {
    hide LowerCase;
    SeparatorKind();
  }

  /** A word that verifies ends in its checksum. */
  lemma VerifiedWord(hrp: Text, v: Data)
    requires |v| >= 6 && FiveBit(v) && Verified(hrp, v).Decoded?
    ensures var r := Verified(hrp, v);
            r.hrp == hrp && FiveBit(r.data) && |v| == |r.data| + 6 && v == r.data + Checksum(r.encoding, hrp, r.data)
  {
    hide Fold, Expand, Checksum, Constant;
    var r := Verified(hrp, v);
    var sum := v[|v| - 6..];
    assert v == r.data + sum;
    assert Expand(hrp) + v == Expand(hrp) + r.data + sum;
    ChecksumCompletes(r.encoding, hrp, r.data, sum);
  }

  lemma EncodedWord(e: Encoding, hrp: Text, data: Data, v: Data)
    requires v == data + Checksum(e, hrp, data)
    ensures Encoded(e, hrp, data) == hrp + [SEPARATOR] + Chars(v)
  {
  }

  lemma LowerClean(s: Text)
    requires Clean(s)
    ensures Clean(Lower(s))
  {
    hide IsUpper, IsLower, Printable, LowerCase;
    forall i | 0 <= i < |s| ensures !IsUpper(Lower(s)[i]) && Printable(Lower(s)[i]) { CaseLaws(s[i]); }
  }

  lemma LowerSeparator(s: Text)
    ensures LastSeparator(Lower(s)) == LastSeparator(s)
  {
    hide LastSeparator, LowerCase;
    forall i | 0 <= i < |s| ensures Lower(s)[i] == SEPARATOR <==> s[i] == SEPARATOR { CaseLaws(s[i]); }
  }

  lemma LowerAgain(s: Text)
    ensures Lower(Lower(s)) == Lower(s) && Values(Lower(s)) == Values(s)
  {
    hide LowerCase, GroupOf;
    forall i | 0 <= i < |s| ensures Lower(Lower(s))[i] == Lower(s)[i] && Values(Lower(s))[i] == Values(s)[i] {
      CaseLaws(s[i]);
      GroupLower(s[i]);
    }
  }

  /** Case does not matter, as long as it is not mixed. */
  lemma DecodeLower(s: Text)
    requires Clean(s)
    ensures Meaning(Lower(s)) == Meaning(s)
  {
    hide Verified, GroupOf, LowerCase, LastSeparator, Clean;
    var l := Lower(s);
    LowerClean(s);
    LowerSeparator(s);
    var pos := LastSeparator(s);
    if pos >= 0 {
      assert l[..pos] == Lower(s[..pos]) && l[pos + 1..] == Lower(s[pos + 1..]);
      LowerAgain(s[..pos]);
      LowerAgain(s[pos + 1..]);
    }
  }

  lemma GroupLower(c: bv32)
    ensures GroupOf(LowerCase(c)) == GroupOf(c)
  {
    CaseLaws(c);
  }

  /** The texts that decode to a triple are its encoding in either case, and nothing else. */
  lemma DecodesIff(s: Text, e: Encoding, hrp: Text, values: Data)
    ensures Meaning(s) == Decoded(e, hrp, values) <==>
            && Clean(s) && NoUpper(hrp) && FiveBit(values) && Encodable(hrp, values)
            && Lower(s) == Encoded(e, hrp, values)
  {
    hide Encoded, Verified;
    if Meaning(s) == Decoded(e, hrp, values) {
      EncodeDecoded(s);
    }
    if Clean(s) && NoUpper(hrp) && FiveBit(values) && Lower(s) == Encoded(e, hrp, values) {
      DecodeLower(s);
      DecodeEncoded(e, hrp, values);
    }
  }

  /** A text with errors in up to six neighbouring characters does not decode under the same encoding. */
  lemma ErrorsDetected(s: Text, t: Text, p: nat)
    requires Meaning(s).Decoded? && Meaning(t).Decoded? && Meaning(s).encoding == Meaning(t).encoding
    requires |s| == |t| && LastSeparator(s) < p
    requires forall i :: LastSeparator(s) < i < |t| ==> t[i] != SEPARATOR
    requires forall i :: 0 <= i < |s| && !(p <= i < p + 6) ==> s[i] == t[i]
    ensures Lower(s) == Lower(t)
  {
    hide Fold, Expand, Constant, Meaning, Verified, Encoded, LastSeparator, GroupOf, LowerCase;
    var pos := LastSeparator(s);
    MeaningParts(s);
    MeaningParts(t);
    assert LastSeparator(t) == pos;
    assert s[..pos] == t[..pos];
    var v, w := Values(s[pos + 1..]), Values(t[pos + 1..]);
    SameWord(Expand(Lower(s[..pos])), v, w, p - pos - 1);
    EncodeDecoded(s);
    EncodeDecoded(t);
  }

  lemma MeaningIs(s: Text)
    requires Meaning(s).Decoded?
    ensures var pos := LastSeparator(s);
            && 0 < pos <= |s| - 7 && NONE !in Values(s[pos + 1..])
            && Meaning(s) == Verified(Lower(s[..pos]), Values(s[pos + 1..]))
  {
    hide Clean, Verified, Values, Lower, LastSeparator;
  }

  lemma MeaningParts(s: Text)
    requires Meaning(s).Decoded?
    ensures var pos := LastSeparator(s);
            && 0 < pos <= |s| - 7
            && var hrp, v := Lower(s[..pos]), Values(s[pos + 1..]);
               FiveBit(v) && Meaning(s) == Verified(hrp, v) && Fold(1, Expand(hrp) + v) == Constant(Meaning(s).encoding)
  {
    hide Fold, Expand, Constant, Verified, Meaning, LastSeparator, GroupOf, LowerCase;
    MeaningIs(s);
    var pos := LastSeparator(s);
    CharsOfValues(s[pos + 1..]);
    VerifiedFold(Lower(s[..pos]), Values(s[pos + 1..]));
  }

  lemma VerifiedFold(hrp: Text, v: Data)
    requires |v| >= 6 && Verified(hrp, v).Decoded?
    ensures Fold(1, Expand(hrp) + v) == Constant(Verified(hrp, v).encoding)
  {
  }

  lemma SameWord(x: Data, v: Data, w: Data, p: nat)
    requires AgreeOutside(v, w, p) && FiveBit(v) && FiveBit(w) && Fold(1, x + v) == Fold(1, x + w)
    ensures v == w
  {
    hide Fold;
    if p <= |v| {
      FoldAppend(1, x, v);
      FoldAppend(1, x, w);
      WindowDetected(Fold(1, x), v, w, p);
    }
  }

  /** Nor does one with up to three wrong characters anywhere after the separator. */
  lemma ThreeErrorsDetected(s: Text, t: Text, p: nat, q: nat, r: nat)
    requires Meaning(s).Decoded? && Meaning(t).Decoded? && Meaning(s).encoding == Meaning(t).encoding
    requires |s| == |t| && LastSeparator(s) < p < q < r < |s|
    requires forall i :: LastSeparator(s) < i < |t| ==> t[i] != SEPARATOR
    requires forall i :: 0 <= i < |s| && i != p && i != q && i != r ==> s[i] == t[i]
    ensures Lower(s) == Lower(t)
  {
    hide Fold, Expand, Constant, Meaning, Verified, Encoded, LastSeparator, GroupOf, LowerCase;
    var pos := LastSeparator(s);
    MeaningParts(s);
    MeaningParts(t);
    assert LastSeparator(t) == pos;
    assert s[..pos] == t[..pos];
    var v, w := Values(s[pos + 1..]), Values(t[pos + 1..]);
    MeaningShort(s);
    SameThree(Expand(Lower(s[..pos])), v, w, p - pos - 1, q - pos - 1, r - pos - 1);
    EncodeDecoded(s);
    EncodeDecoded(t);
  }

  lemma MeaningShort(s: Text)
    requires Meaning(s).Decoded?
    ensures |s| <= 90
  {
    hide Verified, LastSeparator, Values, Lower;
  }

  lemma SameThree(x: Data, v: Data, w: Data, p: nat, q: nat, r: nat)
    requires Errors.AgreeBut(v, w, p, q, r) && p < q < r < |v| < 1023 && FiveBit(v) && FiveBit(w)
    requires Fold(1, x + v) == Fold(1, x + w)
    ensures v == w
  {
    hide Fold;
    FoldAppend(1, x, v);
    FoldAppend(1, x, w);
    Errors.ThreeDetected(Fold(1, x), v, w, p, q, r);
  }
}

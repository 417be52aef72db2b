/**
 The stored form of coins: the height and two flags in one number, the time, the
 compressed amount, and the script, with short forms for common kinds.
*/
module CoinCodec {
  import opened Prelude
  import opened Radix
  import opened VarInt
  import Amount

  type Bytes = seq<nat>

  const UINT32_MAX: nat := 4294967295
  const UINT64_MAX: nat := 18446744073709551615
  const MAX_SCRIPT_SIZE: nat := 10000
  const SPECIAL_SCRIPTS: nat := 6

  const OP_RETURN: nat := 0x6a
  const OP_DUP: nat := 0x76
  const OP_EQUAL: nat := 0x87
  const OP_EQUALVERIFY: nat := 0x88
  const OP_HASH160: nat := 0xa9
  const OP_CHECKSIG: nat := 0xac

  // ------------------------------------------------------------ scripts

  /** The curve arithmetic: which keys are points, and the point with a given coordinate and parity. */
  datatype Curve = Curve(fullyValid: Bytes -> bool, decompress: (nat, Bytes) -> Option<Bytes>)

  /** A valid key is recovered from its first coordinate and the parity of its second. */
  ghost predicate Lawful(curve: Curve) {
    && (forall k: Bytes :: |k| == 65 && k[0] == 4 && curve.fullyValid(k) ==>
        curve.decompress(2 + k[64] % 2, k[1..33]) == Some(k))
    && (forall tag: nat, x: Bytes :: curve.decompress(tag, x).Some? ==> |curve.decompress(tag, x).value| == 65)
  }

  predicate IsToKeyID(s: Bytes) {
    |s| == 25 && s[0] == OP_DUP && s[1] == OP_HASH160 && s[2] == 20 && s[23] == OP_EQUALVERIFY && s[24] == OP_CHECKSIG
  }

  predicate IsToScriptID(s: Bytes) {
    |s| == 23 && s[0] == OP_HASH160 && s[1] == 20 && s[22] == OP_EQUAL
  }

  predicate IsToShortKey(s: Bytes) {
    |s| == 35 && s[0] == 33 && s[34] == OP_CHECKSIG && (s[1] == 2 || s[1] == 3)
  }

  predicate IsToLongKey(curve: Curve, s: Bytes) {
    |s| == 67 && s[0] == 65 && s[66] == OP_CHECKSIG && s[1] == 4 && curve.fullyValid(s[1..66])
  }

  function CompressScript(curve: Curve, s: Bytes): Option<Bytes> {
    if IsToKeyID(s) then Some([0] + s[3..23])
    else if IsToScriptID(s) then Some([1] + s[2..22])
    else if IsToShortKey(s) then Some([s[1]] + s[2..34])
    else if IsToLongKey(curve, s) then Some([4 + s[65] % 2] + s[2..34])
    else None
  }

  function SpecialSize(tag: nat): nat {
    if tag <= 1 then 20 else if tag <= 5 then 32 else 0
  }

  function DecompressScript(curve: Curve, tag: nat, x: Bytes): Option<Bytes>
    requires tag < SPECIAL_SCRIPTS
  {
    if tag == 0 then Some([OP_DUP, OP_HASH160, 20] + x + [OP_EQUALVERIFY, OP_CHECKSIG])
    else if tag == 1 then Some([OP_HASH160, 20] + x + [OP_EQUAL])
    else if tag <= 3 then Some([33, tag] + x + [OP_CHECKSIG])
    else
      match curve.decompress(tag - 2, x)
      case None => None
      case Some(k) => Some([65] + k + [OP_CHECKSIG])
  }

  /** The short form starts with its tag, has the size the tag stands for, and gives the script back. */
  lemma DecompressCompressed(curve: Curve, s: Bytes)
    requires Lawful(curve) && CompressScript(curve, s).Some?
    ensures var out := CompressScript(curve, s).value;
            && out != [] && out[0] < SPECIAL_SCRIPTS && |out| == 1 + SpecialSize(out[0])
            && DecompressScript(curve, out[0], out[1..]) == Some(s)
  {
    hide Lawful;
    var out := CompressScript(curve, s).value;
    if IsToKeyID(s) {
      assert out[1..] == s[3..23];
      assert s == [OP_DUP, OP_HASH160, 20] + s[3..23] + [OP_EQUALVERIFY, OP_CHECKSIG];
    } else if IsToScriptID(s) {
      assert out[1..] == s[2..22];
      assert s == [OP_HASH160, 20] + s[2..22] + [OP_EQUAL];
    } else if IsToShortKey(s) {
      assert out[1..] == s[2..34];
      assert s == [33, s[1]] + s[2..34] + [OP_CHECKSIG];
    } else {
      LongKey(curve, s);
      assert out[1..] == s[2..34];
    }
  }

  lemma LongKey(curve: Curve, s: Bytes)
    requires Lawful(curve) && IsToLongKey(curve, s)
    ensures curve.decompress(2 + s[65] % 2, s[2..34]) == Some(s[1..66]) && s == [65] + s[1..66] + [OP_CHECKSIG]
  {
    var k := s[1..66];
    assert k[64] == s[65] && k[1..33] == s[2..34];
  }

  function ScriptBytes(curve: Curve, s: Bytes): Bytes {
    match CompressScript(curve, s)
    case Some(out) => out
    case None => Encoded((|s| + SPECIAL_SCRIPTS) % (UINT32_MAX + 1)) + s
  }

  /** The script read, into a fresh object, and what follows it. */
  function ReadScript(curve: Curve, s: Bytes): Option<(Bytes, Bytes)> {
    match Read(s, UINT32_MAX)
    case None => None
    case Some((size, rest)) =>
      if size < SPECIAL_SCRIPTS then
        var k := SpecialSize(size);
        if k > |rest| then None else
          match DecompressScript(curve, size, rest[..k])
          case Some(script) => Some((script, rest[k..]))
          case None => Some(([], rest[k..]))
      else
        var k := size - SPECIAL_SCRIPTS;
        if k > |rest| then None
        else if k > MAX_SCRIPT_SIZE then Some(([OP_RETURN], rest[k..]))
        else Some((rest[..k], rest[k..]))
  }

  lemma ReadShortForm(curve: Curve, s: Bytes, rest: Bytes)
    requires Lawful(curve) && CompressScript(curve, s).Some?
    ensures ReadScript(curve, CompressScript(curve, s).value + rest) == Some((s, rest))
  {
    hide Lawful, Encoded, ReadOn, CompressScript, DecompressScript;
    var out := CompressScript(curve, s).value;
    DecompressCompressed(curve, s);
    var t := out[1..] + rest;
    assert out + rest == [out[0]] + t;
    SmallNumber(out[0]);
    ReadEncoded(out[0], t, UINT32_MAX);
    assert t[..|out| - 1] == out[1..] && t[|out| - 1..] == rest;
  }

  lemma ReadLongForm(curve: Curve, s: Bytes, rest: Bytes)
    requires |s| + SPECIAL_SCRIPTS <= UINT32_MAX
    ensures var back := if |s| <= MAX_SCRIPT_SIZE then s else [OP_RETURN];
            ReadScript(curve, Encoded(|s| + SPECIAL_SCRIPTS) + s + rest) == Some((back, rest))
  {
    hide Encoded, ReadOn, DecompressScript;
    var n := |s| + SPECIAL_SCRIPTS;
    assert Encoded(n) + s + rest == Encoded(n) + (s + rest);
    ReadEncoded(n, s + rest, UINT32_MAX);
    assert (s + rest)[..|s|] == s && (s + rest)[|s|..] == rest;
  }

  /** The short forms never clash with the others; overly long scripts are replaced. */
  lemma ReadScriptBytes(curve: Curve, s: Bytes, rest: Bytes)
    requires Lawful(curve) && |s| + SPECIAL_SCRIPTS <= UINT32_MAX
    ensures var back := if |s| <= MAX_SCRIPT_SIZE then s else [OP_RETURN];
            ReadScript(curve, ScriptBytes(curve, s) + rest) == Some((back, rest))
  {
    hide ReadScript, CompressScript;
    if CompressScript(curve, s).Some? {
      ReadShortForm(curve, s, rest);
      CompressedShort(curve, s);
    } else {
      ReadLongForm(curve, s, rest);
    }
  }

  lemma SmallNumber(n: nat)
    requires n < 128
    ensures Encoded(n) == [n]
  {
  }

  lemma CompressedShort(curve: Curve, s: Bytes)
    requires CompressScript(curve, s).Some?
    ensures |s| <= 67
  {
  }

  // ------------------------------------------------------------ coins

  datatype Coin = Coin(value: nat, script: Bytes, coinBase: bool, coinStake: bool, height: nat, time: nat)

  /** The ranges of the fields: 64 bits, 31 bits and 32 bits. */
  ghost predicate InRange(c: Coin) {
    && c.value <= UINT64_MAX && |c.script| + SPECIAL_SCRIPTS <= UINT32_MAX
    && c.height < 0x8000_0000 && c.time <= UINT32_MAX
  }

  function Code(c: Coin): nat {
    (c.height * 4 + (if c.coinBase then 1 else 0) + (if c.coinStake then 2 else 0)) % (UINT32_MAX + 1)
  }

  function CoinBytes(curve: Curve, c: Coin): Bytes {
    var value := Encoded(Amount.Compressed(c.value) % Amount.U64);
    Encoded(Code(c)) + (Encoded(c.time) + (value + ScriptBytes(curve, c.script)))
  }

  function ReadCoin(curve: Curve, s: Bytes): Option<(Coin, Bytes)> {
    match Read(s, UINT32_MAX)
    case None => None
    case Some((code, s1)) =>
      match Read(s1, UINT32_MAX)
      case None => None
      case Some((time, s2)) =>
        match Read(s2, UINT64_MAX)
        case None => None
        case Some((x, s3)) =>
          match ReadScript(curve, s3)
          case None => None
          case Some((script, s4)) =>
            Some((Coin(Amount.Decompressed(x) % Amount.U64, script, code % 2 == 1, code / 2 % 2 == 1, code / 4, time),
                  s4))
  }

  /** What is left of a coin after storing it. */
  function Stored(c: Coin): Coin {
    c.(height := c.height % 0x4000_0000,
       value := Amount.Decompressed(Amount.Compressed(c.value) % Amount.U64) % Amount.U64,
       script := if |c.script| <= MAX_SCRIPT_SIZE then c.script else [OP_RETURN])
  }

  lemma CodeParts(c: Coin)
    requires c.height < 0x8000_0000
    ensures Code(c) <= UINT32_MAX && Code(c) / 4 == c.height % 0x4000_0000
    ensures (Code(c) % 2 == 1 <==> c.coinBase) && (Code(c) / 2 % 2 == 1 <==> c.coinStake)
  {
    var f := (if c.coinBase then 1 else 0) + (if c.coinStake then 2 else 0);
    assert Code(c) == c.height % 0x4000_0000 * 4 + f;
  }

  lemma ReadCoinBytes(curve: Curve, c: Coin, rest: Bytes)
    requires Lawful(curve) && InRange(c)
    ensures ReadCoin(curve, CoinBytes(curve, c) + rest) == Some((Stored(c), rest))
  {
    hide Lawful, Encoded, ReadOn, ReadScript, ScriptBytes, Code, Amount.Compressed, Amount.Decompressed;
    CodeParts(c);
    var x := Amount.Compressed(c.value) % Amount.U64;
    var t3 := ScriptBytes(curve, c.script) + rest;
    var t2 := Encoded(x) + t3;
    var t1 := Encoded(c.time) + t2;
    assert CoinBytes(curve, c) + rest == Encoded(Code(c)) + t1;
    ReadEncoded(Code(c), t1, UINT32_MAX);
    ReadEncoded(c.time, t2, UINT32_MAX);
    ReadEncoded(x, t3, UINT64_MAX);
    ReadScriptBytes(curve, c.script, rest);
  }

  /**
   A coin survives storing exactly if its height has 30 bits, its script is not
   overly long, and its amount ends in zero or is at most the bound.
  */
  lemma StoredIff(curve: Curve, c: Coin, rest: Bytes)
    requires Lawful(curve) && InRange(c)
    ensures ReadCoin(curve, CoinBytes(curve, c) + rest) == Some((c, rest)) <==>
            && c.height < 0x4000_0000
            && |c.script| <= MAX_SCRIPT_SIZE
            && (c.value <= Amount.BOUND || c.value % 10 == 0)
  {
    hide Lawful, ReadCoin, CoinBytes, Amount.Compressed, Amount.Decompressed;
    ReadCoinBytes(curve, c, rest);
    Amount.RecoveredIff(c.value);
  }

  // ------------------------------------------------------------ streams

  lemma Bits()
    ensures Pow(2, 32) == UINT32_MAX + 1 && Pow(2, 64) == UINT64_MAX + 1
  {
    hide Pow;
    EightBits();
    PowAdd(2, 8, 8);
    PowAdd(2, 16, 16);
    PowAdd(2, 32, 32);
  }

  lemma EightBits()
    ensures Pow(2, 8) == 256
  {
  }

  /** Writing appends to a stream, reading takes from its front; a failed read throws. */
  class Stream {
    var data: Bytes

    constructor ()
      ensures data == []
    {
      data := [];
    }

    method Write(s: Bytes)
      modifies this
      ensures data == old(data) + s
    {
      data := data + s;
    }

    method ReadBytes(n: nat) returns (r: Option<Bytes>)
      modifies this
      ensures r.Some? <==> n <= |old(data)|
      ensures r.Some? ==> r.value == old(data)[..n] && data == old(data)[n..]
    {
      if n > |data| { return None; }
      r := Some(data[..n]);
      data := data[n..];
    }

    method WriteNumber(n: nat, bits: nat)
      requires bits > 0 && n < Pow(2, bits)
      modifies this
      ensures data == old(data) + Encoded(n)
    {
      var s := WriteVarInt(n, bits);
      Write(s);
    }

    method ReadNumber(max: nat) returns (r: Option<nat>)
      modifies this
      ensures match Read(old(data), max)
              case None => r.None?
              case Some((n, rest)) => r == Some(n) && data == rest
    {
      hide ReadOn;
      var p := ReadVarInt(data, max);
      if p.None? { return None; }
      r := Some(p.value.0);
      data := p.value.1;
    }

    method SerScript(curve: Curve, script: Bytes)
      requires |script| + SPECIAL_SCRIPTS <= UINT32_MAX
      modifies this
      ensures data == old(data) + ScriptBytes(curve, script)
    {
      hide Pow, Encoded, CompressScript;
      Bits();
      var compr := CompressScript(curve, script);
      if compr.Some? {
        Write(compr.value);
        return;
      }
      WriteNumber((|script| + SPECIAL_SCRIPTS) % (UINT32_MAX + 1), 32);
      Write(script);
    }

    method UnserScript(curve: Curve) returns (r: Option<Bytes>)
      modifies this
      ensures match ReadScript(curve, old(data))
              case None => r.None?
              case Some((script, rest)) => r == Some(script) && data == rest
    {
      hide ReadOn, DecompressScript;
      var n := ReadNumber(UINT32_MAX);
      if n.None? { return None; }
      var size := n.value;
      if size < SPECIAL_SCRIPTS {
        var vch := ReadBytes(SpecialSize(size));
        if vch.None? { return None; }
        var script := DecompressScript(curve, size, vch.value);
        return if script.Some? then script else Some([]);
      }
      size := size - SPECIAL_SCRIPTS;
      var body := ReadBytes(size);
      if body.None? { return None; }
      r := if size > MAX_SCRIPT_SIZE then Some([OP_RETURN]) else body;
    }

    method Serialize(curve: Curve, c: Coin)
      requires InRange(c)
      modifies this
      ensures data == old(data) + CoinBytes(curve, c)
    {
      hide Pow, Encoded, Code, ScriptBytes, Amount.Compressed;
      Bits();
      CodeParts(c);
      var code := Code(c);
      WriteNumber(code, 32);
      WriteNumber(c.time, 32);
      var x := Amount.CompressAmount(c.value);
      WriteNumber(x, 64);
      SerScript(curve, c.script);
    }

    method Unserialize(curve: Curve) returns (r: Option<Coin>)
      modifies this
      ensures match ReadCoin(curve, old(data))
              case None => r.None?
              case Some((c, rest)) => r == Some(c) && data == rest
    {
      hide ReadOn, ReadScript, Amount.Decompressed;
      ghost var s := data;
      var n := ReadNumber(UINT32_MAX);
      if n.None? { return None; }
      var code := n.value;
      var time := ReadNumber(UINT32_MAX);
      if time.None? { return None; }
      ghost var s2 := data;
      var x := ReadNumber(UINT64_MAX);
      if x.None? { return None; }
      ReadMax(s2, UINT64_MAX);
      var value := Amount.DecompressAmount(x.value);
      var script := UnserScript(curve);
      if script.None? { return None; }
      r := Some(Coin(value, script.value, code % 2 == 1, code / 2 % 2 == 1, code / 4, time.value));
    }
  }

  lemma {:induction false} ReadOnMax(n: nat, s: Bytes, max: nat)
    requires max % 128 == 127 && ReadOn(n, s, max).Some?
    ensures ReadOn(n, s, max).value.0 <= max
    decreases |s|
  {
    if s[0] >= 128 { ReadOnMax(n * 128 + s[0] % 128 + 1, s[1..], max); }
  }

  lemma ReadMax(s: Bytes, max: nat)
    requires max % 128 == 127 && Read(s, max).Some?
    ensures Read(s, max).value.0 <= max
  {
    ReadOnMax(0, s, max);
  }

  /** A coin written and read again, through any number of others, comes back as it was stored. */
  method Store(curve: Curve, coins: seq<Coin>) returns (bytes: Bytes, back: seq<Coin>, stream: Stream)
    requires Lawful(curve) && forall i :: 0 <= i < |coins| ==> InRange(coins[i])
    ensures bytes == AllBytes(curve, coins)
    ensures |back| == |coins| && forall i :: 0 <= i < |coins| ==> back[i] == Stored(coins[i])
    ensures stream.data == []
  {
    hide Lawful, CoinBytes, ReadCoin, Stored, InRange;
    stream := new Stream();
    for i := 0 to |coins|
      invariant fresh(stream) && stream.data == AllBytes(curve, coins[..i])
    {
      stream.Serialize(curve, coins[i]);
      AllBytesEnd(curve, coins, i);
    }
    assert coins[..|coins|] == coins;
    assert coins[0..] == coins;
    bytes, back := stream.data, [];
    for i := 0 to |coins|
      invariant fresh(stream) && stream.data == AllBytes(curve, coins[i..])
      invariant |back| == i && forall k :: 0 <= k < i ==> back[k] == Stored(coins[k])
    {
      ReadCoinBytes(curve, coins[i], AllBytes(curve, coins[i + 1..]));
      assert coins[i..][1..] == coins[i + 1..];
      var c := stream.Unserialize(curve);
      back := back + [c.value];
    }
  }

  ghost function AllBytes(curve: Curve, coins: seq<Coin>): Bytes {
    if coins == [] then [] else CoinBytes(curve, coins[0]) + AllBytes(curve, coins[1..])
  }

  lemma {:induction false} AllBytesEnd(curve: Curve, coins: seq<Coin>, i: nat)
    requires i < |coins|
    ensures AllBytes(curve, coins[..i + 1]) == AllBytes(curve, coins[..i]) + CoinBytes(curve, coins[i])
    decreases i
  {
    hide CoinBytes;
    if i == 0 {
      assert coins[..1][1..] == [];
    } else {
      AllBytesEnd(curve, coins[1..], i - 1);
      assert coins[..i + 1][1..] == coins[1..][..i] && coins[..i][1..] == coins[1..][..i - 1];
      assert CoinBytes(curve, coins[0]) + AllBytes(curve, coins[..i][1..]) + CoinBytes(curve, coins[i])
          == CoinBytes(curve, coins[0]) + (AllBytes(curve, coins[..i][1..]) + CoinBytes(curve, coins[i]));
    }
  }
}

/**
 Variable-length integers: base 128, most significant group first, the high bit of
 a byte announcing another one; one is subtracted from all groups but the last.
*/
module VarInt {
  import opened Prelude
  import opened Radix

  /** The groups before the last, all announcing another one. */
  function Continued(n: nat): seq<nat> {
    if n < 128 then [n + 128] else Continued(n / 128 - 1) + [n % 128 + 128]
  }

  function Encoded(n: nat): seq<nat> {
    if n < 128 then [n] else Continued(n / 128 - 1) + [n % 128]
  }

  /** Read on with `n` accumulated so far; numbers above `max` are refused. */
  function ReadOn(n: nat, s: seq<nat>, max: nat): Option<(nat, seq<nat>)>
    decreases |s|
  {
    if s == [] || n > max / 128 then None else
      var v := n * 128 + s[0] % 128;
      if s[0] < 128 then Some((v, s[1..]))
      else if v == max then None
      else ReadOn(v + 1, s[1..], max)
  }

  function Read(s: seq<nat>, max: nat): Option<(nat, seq<nat>)> { ReadOn(0, s, max) }

  // ------------------------------------------------------------ every number has one encoding

  lemma {:induction false} ReadContinued(n: nat, rest: seq<nat>, max: nat)
    requires n < max / 128
    ensures ReadOn(0, Continued(n) + rest, max) == ReadOn(n + 1, rest, max)
  {
    if n < 128 {
      var s := Continued(n) + rest;
      assert s[0] == n + 128 && s[1..] == rest;
    } else {
      var q := n / 128 - 1;
      var t := [n % 128 + 128] + rest;
      assert Continued(n) + rest == Continued(q) + t;
      ReadContinued(q, t, max);
      assert t[0] % 128 == n % 128 && t[1..] == rest;
    }
  }

  lemma ReadEncoded(n: nat, rest: seq<nat>, max: nat)
    requires n <= max
    ensures Read(Encoded(n) + rest, max) == Some((n, rest))
  {
    if n < 128 {
      var s := Encoded(n) + rest;
      assert s[0] == n && s[1..] == rest;
    } else {
      var t := [n % 128] + rest;
      assert Encoded(n) + rest == Continued(n / 128 - 1) + t;
      ReadContinued(n / 128 - 1, t, max);
      assert t[0] == n % 128 && t[1..] == rest;
    }
  }

  /** The bytes read so far, when `n` has been accumulated. */
  ghost function Consumed(n: nat): seq<nat> {
    if n == 0 then [] else Continued(n - 1)
  }

  lemma {:induction false} ReadIsEncoded(n: nat, s: seq<nat>, max: nat)
    requires ReadOn(n, s, max).Some? && forall i :: 0 <= i < |s| ==> s[i] < 256
    ensures var (v, rest) := ReadOn(n, s, max).value;
            Consumed(n) + s == Encoded(v) + rest && v <= max / 128 * 128 + 127
    decreases |s|
  {
    hide Consumed, Encoded, Continued;
    ConsumedMore(n, s[0]);
    assert Consumed(n) + s == Consumed(n) + [s[0]] + s[1..];
    if s[0] >= 128 {
      ReadIsEncoded(n * 128 + s[0] % 128 + 1, s[1..], max);
    }
  }

  lemma ConsumedMore(n: nat, b: nat)
    requires b < 256
    ensures b < 128 ==> Consumed(n) + [b] == Encoded(n * 128 + b % 128)
    ensures b >= 128 ==> Consumed(n) + [b] == Consumed(n * 128 + b % 128 + 1)
  {
    var v := n * 128 + b % 128;
    assert v / 128 == n && v % 128 == b % 128;
  }

  /** What is read is exactly the encoding of the number and what follows it. */
  lemma ReadIff(s: seq<nat>, max: nat, n: nat, rest: seq<nat>)
    requires max % 128 == 127 && forall i :: 0 <= i < |s| ==> s[i] < 256
    ensures Read(s, max) == Some((n, rest)) <==> n <= max && s == Encoded(n) + rest
  {
    hide ReadOn, Encoded;
    if Read(s, max) == Some((n, rest)) {
      ReadIsEncoded(0, s, max);
      assert Consumed(0) + s == s;
    }
    if n <= max { ReadEncoded(n, rest, max); }
  }

  // ------------------------------------------------------------ the loops

  lemma {:induction false} EncodedBytes(n: nat)
    ensures forall i :: 0 <= i < |Encoded(n)| ==> Encoded(n)[i] < 256
    ensures forall i :: 0 <= i < |Continued(n)| ==> 128 <= Continued(n)[i] < 256
    decreases n
  {
    if n >= 128 { EncodedBytes(n / 128 - 1); }
  }

  function Reversed(s: seq<nat>): (r: seq<nat>)
    ensures |r| == |s| && forall i :: 0 <= i < |s| ==> r[i] == s[|s| - 1 - i]
  {
    seq(|s|, i requires 0 <= i < |s| => s[|s| - 1 - i])
  }

  /** The byte of the last group of `n`. */
  function Group(n: nat, last: bool): nat { n % 128 + if last then 0 else 128 }

  /** What is left for the groups before it. */
  function Rest(n: nat): (r: nat)
    requires n >= 128
    ensures r < n
  {
    n / 128 - 1
  }

  /**
   The groups are collected from the last to the first in a buffer of the size
   for `bits` bits, which is always large enough, and written in reverse.
  */
  method WriteVarInt(number: nat, bits: nat) returns (out: seq<nat>)
    requires bits > 0 && number < Pow(2, bits)
    ensures out == Encoded(number) && forall i :: 0 <= i < |out| ==> out[i] < 256
  {
    hide Pow, Encoded, Continued, Reversed, Group, Rest;
    var n: nat, len: nat := number, 0;
    var tmp := new nat[(bits + 6) / 7];
    ghost var done: seq<nat> := [];
    while true
      invariant len == |done| < tmp.Length && tmp[..len] == done
      invariant 7 * len < bits && n < Pow(2, bits - 7 * len)
      invariant Encoded(number) == (if len == 0 then Encoded(n) else Continued(n)) + Reversed(done)
      decreases n
    {
      tmp[len] := Group(n, len == 0);
      done := done + [tmp[len]];
      assert tmp[..len + 1] == done;
      NextGroup(number, n, done, len);
      if n < 128 { break; }
      NextFits(n, bits, len);
      n := Rest(n);
      len := len + 1;
    }
    assert tmp[..len + 1] == done;
    out := WriteReversed(tmp, len);
    EncodedBytes(number);
  }

  method WriteReversed(tmp: array<nat>, last: nat) returns (out: seq<nat>)
    requires last < tmp.Length
    ensures out == Reversed(tmp[..last + 1])
  {
    var len: int := last;
    out := [];
    while len >= 0
      invariant -1 <= len <= last && out == Reversed(tmp[len + 1..last + 1])
    {
      out := out + [tmp[len]];
      len := len - 1;
    }
    assert tmp[0..last + 1] == tmp[..last + 1];
  }

  lemma NextGroup(number: nat, n: nat, done: seq<nat>, len: nat)
    requires |done| == len + 1 && done[len] == Group(n, len == 0)
    requires Encoded(number) == (if len == 0 then Encoded(n) else Continued(n)) + Reversed(done[..len])
    ensures Encoded(number) == (if n < 128 then [] else Continued(Rest(n))) + Reversed(done)
  {
    assert Reversed(done) == [done[len]] + Reversed(done[..len]);
    assert Reversed(done[..len]) == Reversed(done)[1..];
  }

  lemma NextFits(n: nat, bits: nat, len: nat)
    requires n >= 128 && 7 * len < bits && n < Pow(2, bits - 7 * len)
    ensures 7 * (len + 1) < bits && Rest(n) < Pow(2, bits - 7 * (len + 1)) && len + 1 < (bits + 6) / 7
  {
    hide Pow;
    SevenBits();
    if bits - 7 * len <= 7 {
      PowGrows(2, bits - 7 * len, 7);
    } else {
      PowAdd(2, 7, bits - 7 * (len + 1));
      Below128(n, Pow(2, bits - 7 * (len + 1)));
    }
  }

  lemma SevenBits()
    ensures Pow(2, 7) == 128
  {
  }

  lemma Below128(n: nat, p: nat)
    requires n < 128 * p
    ensures n / 128 < p
  {
  }

  method ReadVarInt(s: seq<nat>, max: nat) returns (r: Option<(nat, seq<nat>)>)
    ensures r == Read(s, max)
  {
    var n: nat, p: nat := 0, 0;
    while true
      invariant p <= |s| && Read(s, max) == ReadOn(n, s[p..], max)
      decreases |s| - p
    {
      if p == |s| { return None; }
      var chData := s[p];
      p := p + 1;
      if n > max / 128 { return None; }
      n := n * 128 + chData % 128;
      if chData >= 128 {
        if n == max { return None; }
        n := n + 1;
      } else {
        return Some((n, s[p..]));
      }
    }
  }
}

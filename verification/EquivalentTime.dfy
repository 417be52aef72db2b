/** The time it takes, at the difficulty of a tip, to do the work between two blocks. */
module EquivalentTime {
  import opened Prelude
  import opened Bits
  import opened Limbs
  import opened ArithUint256
  import opened CompactTarget
  import Multiply

  const INT64_MAX: int := 9223372036854775807

  /** The work difference times the spacing, in 256 bits, over the work of the tip. */
  ghost function Seconds(to: nat, start: nat, spacing: nat, proof: nat): nat
    requires proof > 0
  {
    (if to > start then to - start else start - to) * spacing % M / proof
  }

  /** The work of a block: none for a target that is negative, zero or too large. */
  ghost function Work(nBits: nat): nat {
    if Sign(nBits) || Denoted(nBits) == 0 || Denoted(nBits) >= M then 0 else M / (Denoted(nBits) + 1)
  }

  /** Clamped to 64 bits, and negative when going back; a tip without work divides by zero. */
  method GetBlockProofEquivalentTime(to: BaseUint, start: BaseUint, nBits: nat, spacing: nat) returns (r: Option<int>)
    requires to.Valid() && start.Valid() && nBits < 0x1_0000_0000 && spacing < BASE * BASE
    ensures r.Some? <==> Work(nBits) > 0
    ensures r.Some? ==>
              var q := Seconds(to.V(), start.V(), spacing, Work(nBits));
              r.value == (if to.V() > start.V() then 1 else -1) * (if q > INT64_MAX then INT64_MAX else q)
  {
    hide Val, W, Pow2, Work, Seconds;
    var c := to.CompareTo(start);
    var work := Difference(to, start);
    var factor := new BaseUint.FromUint64(spacing);
    Multiply.MulAssign(work, factor);
    var tip := WorkOf(nBits);
    ghost var w := work.V();
    var ok := work.DivAssign(tip);
    if !ok { return None; }
    SecondsAre(to.V(), start.V(), spacing, Work(nBits), w);
    var n := Clamp(work);
    r := Some(if c > 0 then n else -n);
  }

  lemma SecondsAre(to: nat, start: nat, spacing: nat, proof: nat, w: nat)
    requires proof > 0 && w == (if to > start then to - start else start - to) * spacing % M
    ensures Seconds(to, start, spacing, proof) == w / proof
  {
  }

  method WorkOf(nBits: nat) returns (tip: BaseUint)
    requires nBits < 0x1_0000_0000
    ensures fresh(tip) && tip.Valid() && tip.V() == Work(nBits)
  {
    hide Val, W, Pow2;
    tip := GetBlockProof(nBits);
    NegativeZero(nBits);
  }

  /** A negative form stands for zero or has a mantissa. */
  lemma NegativeZero(nBits: nat)
    ensures Size(nBits) > 3 && Word(nBits) == 0 ==> Denoted(nBits) == 0
  {
  }

  method Clamp(work: BaseUint) returns (n: int)
    requires work.Valid()
    ensures n == if work.V() > INT64_MAX then INT64_MAX else work.V()
  {
    hide Val, W, Pow2;
    var bits := work.BitLength();
    LongBits();
    if bits > 63 {
      Pow2Mono(63, bits - 1);
      return INT64_MAX;
    }
    if bits > 0 { Pow2Mono(bits, 63); }
    n := work.Low64();
  }

  method Difference(to: BaseUint, start: BaseUint) returns (d: BaseUint)
    requires to.Valid() && start.Valid()
    ensures fresh(d) && fresh(d.pn) && d.Valid()
    ensures d.V() == if to.V() > start.V() then to.V() - start.V() else start.V() - to.V()
  {
    hide Val, W;
    var c := to.CompareTo(start);
    if c > 0 {
      d := new BaseUint.Copy(to);
      ExactSub(d.pn[..], start.V());
      d.SubAssign(start);
    } else {
      d := new BaseUint.Copy(start);
      ExactSub(d.pn[..], to.V());
      d.SubAssign(to);
    }
  }

  lemma LongBits()
    ensures Pow2(63) == INT64_MAX + 1
  {
    hide Pow2;
    Pow2Values();
    Pow2Add(16, 15);
    Pow2Add(31, 32);
  }
}

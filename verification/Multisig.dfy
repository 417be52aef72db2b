/**
 The wallet's side of spending from a multi-signature script: cosigners sign and
 merge copies of a proposal in any order, and the signatures are put in the order
 the script asks for.
*/
module Multisig {
  import opened Prelude

  type Bytes = seq<nat>
  type Key = Bytes
  type Signature = Bytes

  /**
   Signatures of the inputs of one proposal. What is signed does not depend on the
   signatures collected so far, so it is fixed by the index of the input.
  */
  datatype Signing = Signing(sign: (nat, Key) -> Signature, verify: (nat, Key, Signature) -> bool)

  /** Signatures verify, and are as short as DER makes them. */
  ghost predicate Sound(w: Signing) {
    forall i: nat, k: Key :: w.verify(i, k, w.sign(i, k)) && 1 <= |w.sign(i, k)| <= 75
  }

  const OP_BASE: nat := 0x50
  const OP_CHECKMULTISIG: nat := 0xae

  // ------------------------------------------------------------ the redeem script

  /** Every item after its length, which is cut to a byte. */
  function Pushes(items: seq<Bytes>): Bytes {
    if items == [] then [] else
      var x := items[|items| - 1];
      Pushes(items[..|items| - 1]) + [|x| % 256] + x
  }

  predicate Legal(m: int, keys: seq<Key>) {
    1 <= m <= |keys| <= 16 && forall j :: 0 <= j < |keys| ==> |keys[j]| == 33
  }

  function Script(m: nat, keys: seq<Key>): Bytes {
    [OP_BASE + m] + Pushes(keys) + [OP_BASE + |keys|, OP_CHECKMULTISIG]
  }

  method CreateRedeemScript(m: int, keys: seq<Key>) returns (r: Option<Bytes>)
    ensures r == if Legal(m, keys) then Some(Script(m, keys)) else None
  {
    if m < 1 || m > |keys| { return None; }
    if |keys| > 16 { return None; }
    var parts := [OP_BASE + m];
    for j := 0 to |keys|
      invariant parts == [OP_BASE + m] + Pushes(keys[..j])
      invariant forall i :: 0 <= i < j ==> |keys[i]| == 33
    {
      if |keys[j]| != 33 { return None; }
      assert keys[..j + 1][..j] == keys[..j];
      parts := parts + [|keys[j]| % 256] + keys[j];
    }
    assert keys[..|keys|] == keys;
    r := Some(parts + [OP_BASE + |keys|, OP_CHECKMULTISIG]);
  }

  /** The pushes from position `i` on. */
  function KeysFrom(s: Bytes, i: nat): seq<Key>
    decreases |s| - i
  {
    if i >= |s| || !(1 <= s[i] <= 75) then []
    else [s[i + 1..if i + 1 + s[i] <= |s| then i + 1 + s[i] else |s|]] + KeysFrom(s, i + 1 + s[i])
  }

  method ParsePubkeysInOrder(s: Bytes) returns (keys: seq<Key>)
    ensures keys == KeysFrom(s, 1)
  {
    keys := [];
    var i := 1;
    while i < |s|
      invariant i >= 1 && keys + KeysFrom(s, i) == KeysFrom(s, 1)
    {
      var opcode := s[i];
      if opcode < 1 || opcode > 75 { break; }
      var end := if i + 1 + opcode <= |s| then i + 1 + opcode else |s|;
      keys := keys + [s[i + 1..end]];
      i := i + 1 + opcode;
    }
  }

  lemma {:induction false} PushesAt(keys: seq<Key>, j: nat)
    requires j < |keys| && forall i :: 0 <= i < |keys| ==> |keys[i]| == 33
    ensures |Pushes(keys)| == 34 * |keys|
    ensures Pushes(keys)[34 * j] == 33 && Pushes(keys)[34 * j + 1..34 * j + 34] == keys[j]
  {
    var n := |keys| - 1;
    PushesLength(keys[..n]);
    if j < n {
      PushesAt(keys[..n], j);
      assert Pushes(keys)[34 * j + 1..34 * j + 34] == Pushes(keys[..n])[34 * j + 1..34 * j + 34];
    }
  }

  lemma {:induction false} PushesLength(keys: seq<Key>)
    requires forall i :: 0 <= i < |keys| ==> |keys[i]| == 33
    ensures |Pushes(keys)| == 34 * |keys|
  {
    if keys != [] { PushesLength(keys[..|keys| - 1]); }
  }

  lemma {:induction false} KeysFromAt(m: nat, keys: seq<Key>, j: nat)
    requires Legal(m, keys) && j <= |keys|
    ensures KeysFrom(Script(m, keys), 1 + 34 * j) == keys[j..]
    decreases |keys| - j
  {
    hide Pushes;
    var s := Script(m, keys);
    PushesLength(keys);
    if j < |keys| {
      KeysFromAt(m, keys, j + 1);
      PushesAt(keys, j);
      var i := 1 + 34 * j;
      assert s[i] == 33;
      assert s[i + 1..i + 34] == keys[j];
      assert keys[j..] == [keys[j]] + keys[j + 1..];
    } else {
      assert s[1 + 34 * j] == OP_BASE + |keys|;
    }
  }

  /** Parsing a redeem script gives back the keys and the number of signatures. */
  lemma ParseScript(m: nat, keys: seq<Key>)
    requires Legal(m, keys)
    ensures KeysFrom(Script(m, keys), 1) == keys && Script(m, keys)[0] - OP_BASE == m
  {
    hide Pushes, KeysFrom;
    KeysFromAt(m, keys, 0);
    assert keys[0..] == keys;
  }

  // ------------------------------------------------------------ membership by text search

  function Hex(b: Bytes): (r: seq<nat>)
    ensures |r| == 2 * |b|
  {
    seq(2 * |b|, i requires 0 <= i < 2 * |b| => if i % 2 == 0 then b[i / 2] / 16 else b[i / 2] % 16)
  }

  predicate OccursAt(text: seq<nat>, needle: seq<nat>, o: nat) {
    o + |needle| <= |text| && text[o..o + |needle|] == needle
  }

  predicate Includes(text: seq<nat>, needle: seq<nat>) {
    exists o :: 0 <= o <= |text| && OccursAt(text, needle, o)
  }

  predicate ContainsKey(script: Bytes, key: Key) { Includes(Hex(script), Hex(key)) }

  /** Every key of a script is found in it. */
  lemma KeyIsContained(m: nat, keys: seq<Key>, j: nat)
    requires Legal(m, keys) && j < |keys|
    ensures ContainsKey(Script(m, keys), keys[j])
  {
    hide Pushes;
    var s, k := Script(m, keys), keys[j];
    PushesAt(keys, j);
    var i := 2 + 34 * j;
    assert s[i..i + 33] == k;
    HexSlice(s, i, i + 33);
    assert OccursAt(Hex(s), Hex(k), 2 * i);
  }

  lemma HexSlice(b: Bytes, i: nat, j: nat)
    requires i <= j <= |b|
    ensures Hex(b)[2 * i..2 * j] == Hex(b[i..j])
  {
    var x, y := Hex(b)[2 * i..2 * j], Hex(b[i..j]);
    forall k | 0 <= k < |y| ensures x[k] == y[k] {
      assert x[k] == Hex(b)[2 * i + k];
      assert (2 * i + k) / 2 == i + k / 2 && (2 * i + k) % 2 == k % 2;
      assert b[i..j][k / 2] == b[i + k / 2];
    }
  }

  // ------------------------------------------------------------ signing and merging

  /** For every input, the signatures collected so far by key. */
  type Collected = seq<map<Key, Signature>>

  /** How a proposal came about: signed by some keys, and merged with other copies. */
  datatype Plan = Start | SignBy(plan: Plan, key: Key) | MergeWith(plan: Plan, other: Plan)

  function Signers(plan: Plan): set<Key> {
    match plan
    case Start => {}
    case SignBy(p, k) => Signers(p) + {k}
    case MergeWith(p, q) => Signers(p) + Signers(q)
  }

  /** The signatures of `signers` that belong to input `i`. */
  ghost function Of(w: Signing, scripts: seq<Bytes>, signers: set<Key>, i: nat): map<Key, Signature>
    requires i < |scripts|
  {
    map k | k in signers && ContainsKey(scripts[i], k) :: w.sign(i, k)
  }

  ghost predicate Holds(w: Signing, scripts: seq<Bytes>, c: Collected, signers: set<Key>) {
    |c| == |scripts| && forall i :: 0 <= i < |c| ==> c[i] == Of(w, scripts, signers, i)
  }

  class Proposal {
    const scripts: seq<Bytes>
    var signatures: Collected

    constructor (scripts: seq<Bytes>)
      ensures this.scripts == scripts && signatures == seq(|scripts|, i => map[])
    {
      this.scripts := scripts;
      signatures := seq(|scripts|, i => map[]);
    }

    /** Add this signer's signature to every input whose script has the key. */
    method Sign(w: Signing, key: Key)
      requires |signatures| == |scripts|
      modifies this
      ensures |signatures| == |scripts|
      ensures forall i :: 0 <= i < |scripts| ==>
                signatures[i] == if ContainsKey(scripts[i], key) then old(signatures)[i][key := w.sign(i, key)]
                    else old(signatures)[i]
    {
      for i := 0 to |scripts|
        invariant |signatures| == |scripts|
        invariant forall j :: 0 <= j < i ==>
                    signatures[j] == if ContainsKey(scripts[j], key) then old(signatures)[j][key := w.sign(j, key)]
                        else old(signatures)[j]
        invariant forall j :: i <= j < |scripts| ==> signatures[j] == old(signatures)[j]
      {
        if ContainsKey(scripts[i], key) {
          signatures := signatures[i := signatures[i][key := w.sign(i, key)]];
        }
      }
    }

    /** Take over the signatures of another copy. */
    method Assign(p: Proposal)
      requires |signatures| == |p.signatures| && p != this
      modifies this
      ensures |signatures| == |p.signatures| && forall i :: 0 <= i < |signatures| ==>
                signatures[i] == old(signatures)[i] + p.signatures[i]
    {
      for i := 0 to |signatures|
        invariant |signatures| == |p.signatures|
        invariant forall j :: 0 <= j < i ==> signatures[j] == old(signatures)[j] + p.signatures[j]
        invariant forall j :: i <= j < |signatures| ==> signatures[j] == old(signatures)[j]
      {
        signatures := signatures[i := signatures[i] + p.signatures[i]];
      }
    }
  }

  lemma StartHolds(w: Signing, scripts: seq<Bytes>)
    ensures Holds(w, scripts, seq(|scripts|, i => map[]), {})
  {
    forall i | 0 <= i < |scripts| ensures Of(w, scripts, {}, i) == map[] {
      assert forall k :: k !in Of(w, scripts, {}, i);
    }
  }

  lemma SignHolds(w: Signing, scripts: seq<Bytes>, c: Collected, d: Collected, signers: set<Key>, key: Key)
    requires Holds(w, scripts, c, signers) && |d| == |scripts|
    requires forall i :: 0 <= i < |scripts| ==>
               d[i] == if ContainsKey(scripts[i], key) then c[i][key := w.sign(i, key)] else c[i]
    ensures Holds(w, scripts, d, signers + {key})
  {
    hide ContainsKey;
    forall i | 0 <= i < |scripts| ensures d[i] == Of(w, scripts, signers + {key}, i) {
      var m := Of(w, scripts, signers + {key}, i);
      assert c[i] == Of(w, scripts, signers, i);
      assert forall k :: k in d[i] <==> k in m;
      assert d[i].Keys == m.Keys;
      assert forall k :: k in d[i] ==> d[i][k] == m[k];
    }
  }

  lemma MergeHolds(w: Signing, scripts: seq<Bytes>, c: Collected, e: Collected, d: Collected, signers: set<Key>,
                   others: set<Key>)
    requires Holds(w, scripts, c, signers) && Holds(w, scripts, e, others) && |d| == |scripts|
    requires forall i :: 0 <= i < |scripts| ==> d[i] == c[i] + e[i]
    ensures Holds(w, scripts, d, signers + others)
  {
    hide ContainsKey;
    forall i | 0 <= i < |scripts| ensures d[i] == Of(w, scripts, signers + others, i) {
      var m := Of(w, scripts, signers + others, i);
      assert c[i] == Of(w, scripts, signers, i) && e[i] == Of(w, scripts, others, i);
      assert forall k :: k in d[i] <==> k in m;
      assert d[i].Keys == m.Keys;
      assert forall k :: k in d[i] ==> d[i][k] == m[k];
    }
  }

  /** Whatever the order of signing and merging, the signatures are those of the signers. */
  method Carry(w: Signing, scripts: seq<Bytes>, plan: Plan) returns (p: Proposal)
    ensures fresh(p) && p.scripts == scripts && Holds(w, scripts, p.signatures, Signers(plan))
  {
    hide Holds, ContainsKey;
    match plan {
      case Start =>
        p := new Proposal(scripts);
        StartHolds(w, scripts);
      case SignBy(q, key) =>
        p := Carry(w, scripts, q);
        ghost var c := p.signatures;
        HoldsLength(w, scripts, c, Signers(q));
        p.Sign(w, key);
        SignHolds(w, scripts, c, p.signatures, Signers(q), key);
      case MergeWith(q, r) =>
        p := Carry(w, scripts, q);
        ghost var c := p.signatures;
        var o := Carry(w, scripts, r);
        HoldsLength(w, scripts, c, Signers(q));
        HoldsLength(w, scripts, o.signatures, Signers(r));
        p.Assign(o);
        MergeHolds(w, scripts, c, o.signatures, p.signatures, Signers(q), Signers(r));
    }
  }

  lemma HoldsLength(w: Signing, scripts: seq<Bytes>, c: Collected, signers: set<Key>)
    requires Holds(w, scripts, c, signers)
    ensures |c| == |scripts|
  {
  }

  // ------------------------------------------------------------ checking signatures in order

  ghost predicate Embeds(w: Signing, i: nat, sigs: seq<Signature>, keys: seq<Key>, f: seq<nat>) {
    && |f| == |sigs|
    && (forall a :: 0 <= a < |f| ==> f[a] < |keys| && w.verify(i, keys[f[a]], sigs[a]))
    && (forall a, b :: 0 <= a < b < |f| ==> f[a] < f[b])
  }

  /** The signatures belong to some of the keys, in the same order. */
  ghost predicate Matches(w: Signing, i: nat, sigs: seq<Signature>, keys: seq<Key>) {
    exists f :: Embeds(w, i, sigs, keys, f)
  }

  lemma MatchNone(w: Signing, i: nat, keys: seq<Key>)
    ensures Matches(w, i, [], keys)
  {
    assert Embeds(w, i, [], keys, []);
  }

  lemma {:induction false} MatchBound(w: Signing, i: nat, sigs: seq<Signature>, keys: seq<Key>, f: seq<nat>)
    requires Embeds(w, i, sigs, keys, f)
    ensures |sigs| <= |keys|
    decreases |keys|
  {
    if |sigs| > 0 {
      var n := |sigs| - 1;
      assert f[n] < |keys| && forall a :: 0 <= a < n ==> f[a] < f[n];
      assert Embeds(w, i, sigs[..n], keys[..|keys| - 1], f[..n]);
      MatchBound(w, i, sigs[..n], keys[..|keys| - 1], f[..n]);
    }
  }

  /** If the last signature fits the last key, it may as well be matched with it. */
  lemma MatchLast(w: Signing, i: nat, sigs: seq<Signature>, keys: seq<Key>)
    requires sigs != [] && keys != []
    ensures w.verify(i, keys[|keys| - 1], sigs[|sigs| - 1]) ==>
            (Matches(w, i, sigs, keys) <==> Matches(w, i, sigs[..|sigs| - 1], keys[..|keys| - 1]))
    ensures !w.verify(i, keys[|keys| - 1], sigs[|sigs| - 1]) ==>
            (Matches(w, i, sigs, keys) <==> Matches(w, i, sigs, keys[..|keys| - 1]))
  {
    var n, k := |sigs| - 1, |keys| - 1;
    if Matches(w, i, sigs, keys) {
      var f :| Embeds(w, i, sigs, keys, f);
      if w.verify(i, keys[k], sigs[n]) {
        assert forall a :: 0 <= a < n ==> f[a] < f[n];
        assert Embeds(w, i, sigs[..n], keys[..k], f[..n]);
      } else {
        assert f[n] != k && forall a :: 0 <= a < n ==> f[a] < f[n];
        assert Embeds(w, i, sigs, keys[..k], f);
      }
    }
    if Matches(w, i, sigs[..n], keys[..k]) && w.verify(i, keys[k], sigs[n]) {
      var f :| Embeds(w, i, sigs[..n], keys[..k], f);
      assert Embeds(w, i, sigs, keys, f + [k]);
    }
    if Matches(w, i, sigs, keys[..k]) {
      var f :| Embeds(w, i, sigs, keys[..k], f);
      assert Embeds(w, i, sigs, keys, f);
    }
  }

  /** The interpreter's loop, from the last signature and the last key on, decides exactly this. */
  method CheckMultisig(w: Signing, i: nat, sigs: seq<Signature>, keys: seq<Key>) returns (ok: bool)
    ensures ok <==> Matches(w, i, sigs, keys)
  {
    hide Matches;
    var n, k := |sigs|, |keys|;
    ok := n <= k;
    assert sigs[..n] == sigs && keys[..k] == keys;
    if !ok { TooMany(w, i, sigs, keys); }
    while ok && n > 0
      invariant 0 <= n <= |sigs| && 0 <= k <= |keys| && (ok ==> n <= k)
      invariant Matches(w, i, sigs, keys) <==> Matches(w, i, sigs[..n], keys[..k])
      invariant !ok ==> !Matches(w, i, sigs, keys)
      decreases k, ok
    {
      MatchLast(w, i, sigs[..n], keys[..k]);
      assert sigs[..n][..n - 1] == sigs[..n - 1] && keys[..k][..k - 1] == keys[..k - 1];
      if w.verify(i, keys[k - 1], sigs[n - 1]) {
        n := n - 1;
      }
      k := k - 1;
      if n > k {
        TooMany(w, i, sigs[..n], keys[..k]);
        ok := false;
      }
    }
    if ok { MatchNone(w, i, keys[..k]); }
  }

  lemma TooMany(w: Signing, i: nat, sigs: seq<Signature>, keys: seq<Key>)
    requires |sigs| > |keys|
    ensures !Matches(w, i, sigs, keys)
  {
    forall f ensures !Embeds(w, i, sigs, keys, f) {
      if Embeds(w, i, sigs, keys, f) { MatchBound(w, i, sigs, keys, f); }
    }
  }

  // ------------------------------------------------------------ finishing

  datatype Policy = Policy(m: nat, keys: seq<Key>)

  ghost predicate AllLegal(ps: seq<Policy>) {
    forall i :: 0 <= i < |ps| ==> Legal(ps[i].m, ps[i].keys)
  }

  function Scripts(ps: seq<Policy>): (r: seq<Bytes>)
    ensures |r| == |ps| && forall i :: 0 <= i < |ps| ==> r[i] == Script(ps[i].m, ps[i].keys)
  {
    seq(|ps|, i requires 0 <= i < |ps| => Script(ps[i].m, ps[i].keys))
  }

  /** The collected signatures, in the order of the keys; empty ones are left out. */
  function Ordered(keys: seq<Key>, c: map<Key, Signature>): seq<Signature> {
    if keys == [] then [] else
      var k := keys[|keys| - 1];
      Ordered(keys[..|keys| - 1], c) + if k in c && c[k] != [] then [c[k]] else []
  }

  /** How many of the keys are in the set, repeated keys counted repeatedly. */
  function CountIn(keys: seq<Key>, signers: set<Key>): nat {
    if keys == [] then 0 else CountIn(keys[..|keys| - 1], signers) + if keys[|keys| - 1] in signers then 1 else 0
  }

  method InOrder(keys: seq<Key>, c: map<Key, Signature>) returns (sigs: seq<Signature>)
    ensures sigs == Ordered(keys, c)
  {
    sigs := [];
    for j := 0 to |keys|
      invariant sigs == Ordered(keys[..j], c)
    {
      assert keys[..j + 1][..j] == keys[..j];
      if keys[j] in c && c[keys[j]] != [] { sigs := sigs + [c[keys[j]]]; }
    }
    assert keys[..|keys|] == keys;
  }

  /** A length as it is written in transactions. */
  function VarInt(n: nat): Bytes {
    if n < 0xfd then [n]
    else if n <= 0xffff then [0xfd] + LowBytes(n, 2)
    else if n <= 0xffff_ffff then [0xfe] + LowBytes(n, 4)
    else [0xff] + LowBytes(n, 8)
  }

  function LowBytes(n: nat, k: nat): Bytes { if k == 0 then [] else [n % 256] + LowBytes(n / 256, k - 1) }

  /** The input script: a dummy, the signatures, and the redeem script after its length. */
  function InputScript(sigs: seq<Signature>, script: Bytes): Bytes {
    [0] + Pushes(sigs) + VarInt(|script|) + script
  }

  lemma ScriptLength(m: nat, keys: seq<Key>)
    requires Legal(m, keys)
    ensures |Script(m, keys)| == 34 * |keys| + 3
  {
    PushesLength(keys);
  }

  /** How many signatures a script asks for; an empty one asks for no number at all. */
  function Threshold(script: Bytes): Option<int> { if script == [] then None else Some(script[0] as int - OP_BASE) }

  function InScript(script: Bytes, c: map<Key, Signature>): seq<Signature> { Ordered(KeysFrom(script, 1), c) }

  predicate TooFew(script: Bytes, c: map<Key, Signature>) {
    Threshold(script).Some? && |InScript(script, c)| < Threshold(script).value
  }

  /** The first signatures; a negative number leaves out as many at the end. */
  function Chosen(sigs: seq<Signature>, m: Option<int>): seq<Signature>
    requires m.Some? ==> m.value <= |sigs|
  {
    if m.None? then [] else if m.value >= 0 then sigs[..m.value] else sigs[..Max(0, |sigs| + m.value)]
  }

  /** The finished input script of a policy. */
  ghost predicate Finished(p: Policy, c: map<Key, Signature>, s: Bytes) {
    p.m <= |Ordered(p.keys, c)| && s == InputScript(Ordered(p.keys, c)[..p.m], Script(p.m, p.keys))
  }

  /** For the script of a policy, these are its own number and keys. */
  lemma PolicyScript(p: Policy, c: map<Key, Signature>)
    requires Legal(p.m, p.keys)
    ensures var s := Script(p.m, p.keys);
            && Threshold(s) == Some(p.m) && InScript(s, c) == Ordered(p.keys, c)
            && (TooFew(s, c) <==> |Ordered(p.keys, c)| < p.m)
            && (!TooFew(s, c) ==> Finished(p, c, InputScript(Chosen(InScript(s, c), Threshold(s)), s)))
  {
    hide Ordered, KeysFrom, Pushes;
    ParseScript(p.m, p.keys);
  }

  method PushAll(sigs: seq<Signature>) returns (parts: Bytes)
    ensures parts == Pushes(sigs)
  {
    parts := [];
    for j := 0 to |sigs|
      invariant parts == Pushes(sigs[..j])
    {
      assert sigs[..j + 1][..j] == sigs[..j];
      parts := parts + [|sigs[j]| % 256] + sigs[j];
    }
    assert sigs[..|sigs|] == sigs;
  }

  /** Assemble the input scripts, whatever the redeem scripts are. */
  method Finalize(p: Proposal) returns (r: Option<seq<Bytes>>)
    requires |p.signatures| == |p.scripts|
    ensures r.None? <==> exists i :: 0 <= i < |p.scripts| && TooFew(p.scripts[i], p.signatures[i])
    ensures r.Some? ==> |r.value| == |p.scripts|
    ensures r.Some? ==>
              forall i :: 0 <= i < |p.scripts| ==>
                && !TooFew(p.scripts[i], p.signatures[i])
                && r.value[i] == InputScript(Chosen(InScript(p.scripts[i], p.signatures[i]), Threshold(p.scripts[i])),
                                             p.scripts[i])
  {
    hide Ordered, KeysFrom, Pushes, VarInt;
    var done: seq<Bytes> := [];
    for i := 0 to |p.scripts|
      invariant |done| == i
      invariant forall j :: 0 <= j < i ==>
                  && !TooFew(p.scripts[j], p.signatures[j])
                  && done[j] == InputScript(Chosen(InScript(p.scripts[j], p.signatures[j]), Threshold(p.scripts[j])),
                                            p.scripts[j])
    {
      var script := p.scripts[i];
      var m := if script == [] then None else Some(script[0] as int - OP_BASE);
      var keys := ParsePubkeysInOrder(script);
      var sigs := InOrder(keys, p.signatures[i]);
      if m.Some? && |sigs| < m.value { return None; }
      var parts := PushAll(Chosen(sigs, m));
      done := done + [[0] + parts + VarInt(|script|) + script];
    }
    r := Some(done);
  }

  /** The signatures in order belong to the keys in order. */
  lemma {:induction false} OrderedMatches(w: Signing, i: nat, keys: seq<Key>, c: map<Key, Signature>)
    requires forall k :: k in c ==> w.verify(i, k, c[k])
    ensures Matches(w, i, Ordered(keys, c), keys)
  {
    if keys == [] {
      MatchNone(w, i, keys);
    } else {
      var n := |keys| - 1;
      OrderedMatches(w, i, keys[..n], c);
      hide Matches;
      var sigs := Ordered(keys[..n], c);
      if keys[n] in c && c[keys[n]] != [] {
        var more := sigs + [c[keys[n]]];
        MatchLast(w, i, more, keys);
        assert more[..|sigs|] == sigs;
      } else {
        MatchWider(w, i, sigs, keys);
        assert Ordered(keys, c) == sigs;
      }
    }
  }

  lemma MatchWider(w: Signing, i: nat, sigs: seq<Signature>, keys: seq<Key>)
    requires keys != [] && Matches(w, i, sigs, keys[..|keys| - 1])
    ensures Matches(w, i, sigs, keys)
  {
    var f :| Embeds(w, i, sigs, keys[..|keys| - 1], f);
    assert Embeds(w, i, sigs, keys, f);
  }

  lemma FirstOnes(w: Signing, i: nat, sigs: seq<Signature>, keys: seq<Key>, m: nat)
    requires Matches(w, i, sigs, keys) && m <= |sigs|
    ensures Matches(w, i, sigs[..m], keys)
  {
    var f :| Embeds(w, i, sigs, keys, f);
    assert Embeds(w, i, sigs[..m], keys, f[..m]);
  }

  lemma {:induction false} OrderedCount(keys: seq<Key>, c: map<Key, Signature>, signers: set<Key>)
    requires forall j :: 0 <= j < |keys| ==> (keys[j] in c && c[keys[j]] != [] <==> keys[j] in signers)
    ensures |Ordered(keys, c)| == CountIn(keys, signers)
  {
    if keys != [] { OrderedCount(keys[..|keys| - 1], c, signers); }
  }

  lemma InputSpends(w: Signing, ps: seq<Policy>, c: Collected, signers: set<Key>, i: nat)
    requires Sound(w) && AllLegal(ps) && Holds(w, Scripts(ps), c, signers) && i < |ps|
    ensures |Ordered(ps[i].keys, c[i])| == CountIn(ps[i].keys, signers)
    ensures ps[i].m <= |Ordered(ps[i].keys, c[i])| ==> Matches(w, i, Ordered(ps[i].keys, c[i])[..ps[i].m], ps[i].keys)
  {
    hide Ordered, Matches, ContainsKey, Script;
    var p := ps[i];
    assert c[i] == Of(w, Scripts(ps), signers, i);
    forall j | 0 <= j < |p.keys| ensures p.keys[j] in c[i] && c[i][p.keys[j]] != [] <==> p.keys[j] in signers {
      KeyIsContained(p.m, p.keys, j);
    }
    OrderedCount(p.keys, c[i], signers);
    OrderedMatches(w, i, p.keys, c[i]);
    if p.m <= |Ordered(p.keys, c[i])| { FirstOnes(w, i, Ordered(p.keys, c[i]), p.keys, p.m); }
  }

  /** Signatures of the signers are as short as signatures are. */
  lemma {:induction false} OrderedShort(w: Signing, scripts: seq<Bytes>, signers: set<Key>, i: nat, keys: seq<Key>,
                                        j: nat)
    requires Sound(w) && i < |scripts| && j < |Ordered(keys, Of(w, scripts, signers, i))|
    ensures 1 <= |Ordered(keys, Of(w, scripts, signers, i))[j]| <= 75
  {
    hide ContainsKey;
    var c := Of(w, scripts, signers, i);
    if keys != [] {
      var n := |keys| - 1;
      if j < |Ordered(keys[..n], c)| { OrderedShort(w, scripts, signers, i, keys[..n], j); }
    }
  }
}

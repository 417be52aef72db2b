/**
 The node's side of spending from a multi-signature script: input scripts are read
 opcode by opcode, must only push, and leave the arguments of the redeem script.
*/
module ScriptEval {
  import opened Prelude
  import opened Multisig

  const OP_PUSHDATA1: nat := 76
  const OP_PUSHDATA4: nat := 78
  const OP_1NEGATE: nat := 79
  const OP_RESERVED: nat := 80
  const OP_16: nat := 96
  const MAX_SCRIPT_ELEMENT_SIZE: nat := 520
  const MAX_PUBKEYS_PER_MULTISIG: nat := 20
  const MAX_OPS_PER_SCRIPT: nat := 201
  const MAX_SCRIPT_SIZE: nat := 10000
  const MAX_STACK_SIZE: nat := 1000

  // ------------------------------------------------------------ reading opcodes

  datatype Op = Op(opcode: nat, data: Bytes, next: nat)

  /** The number with these bytes, the lowest first. */
  function Little(s: Bytes): nat { if s == [] then 0 else s[0] + 256 * Little(s[1..]) }

  function GetOp(s: Bytes, i: nat): (r: Option<Op>)
    requires i < |s|
    ensures r.Some? ==> i < r.value.next <= |s|
  {
    var opcode := s[i];
    if opcode > OP_PUSHDATA4 then Some(Op(opcode, [], i + 1))
    else
      var start := i + 1 + if opcode < OP_PUSHDATA1 then 0 else if opcode == OP_PUSHDATA1 then 1
          else if opcode < OP_PUSHDATA4 then 2 else 4;
      if start > |s| then None
      else
        var size := if opcode < OP_PUSHDATA1 then opcode else Little(s[i + 1..start]);
        if start + size > |s| then None else Some(Op(opcode, s[start..start + size], start + size))
  }

  /** Whether there are only pushes from position `i` on. */
  predicate PushOnly(s: Bytes, i: nat)
    decreases |s| - i
  {
    i >= |s| || (GetOp(s, i).Some? && GetOp(s, i).value.opcode <= OP_16 && PushOnly(s, GetOp(s, i).value.next))
  }

  method IsPushOnly(s: Bytes) returns (ok: bool)
    ensures ok <==> PushOnly(s, 0)
  {
    var i := 0;
    ok := true;
    while i < |s|
      invariant 0 <= i <= |s| && (PushOnly(s, 0) <==> PushOnly(s, i))
    {
      var op := GetOp(s, i);
      if op.None? || op.value.opcode > OP_16 { return false; }
      i := op.value.next;
    }
  }

  // ------------------------------------------------------------ executing them

  function Pushed(op: Op): Option<Bytes> {
    if op.opcode <= OP_PUSHDATA4 then (if |op.data| <= MAX_SCRIPT_ELEMENT_SIZE then Some(op.data) else None)
    else if op.opcode == OP_1NEGATE then Some([0x81])
    else if OP_RESERVED < op.opcode <= OP_16 then Some([op.opcode - OP_RESERVED])
    else None
  }

  /** A stack item as a number, the sign in the highest bit. */
  function Num(b: Bytes): Option<int> {
    if |b| > 4 then None
    else if b == [] then Some(0)
    else
      var n := |b| - 1;
      var v: int := if b[n] >= 0x80 then -(Little(b[..n] + [b[n] - 0x80]) as int) else Little(b);
      Some(v)
  }

  function Verdict(ok: bool): Bytes { if ok then [1] else [] }

  /** The counts and arguments on the stack, if they are there: how many keys, how many signatures. */
  function Arguments(stack: seq<Bytes>): (r: Option<(nat, nat)>)
    ensures r.Some? ==> r.value.1 <= r.value.0 && r.value.0 + r.value.1 + 3 <= |stack|
  {
    var t := |stack|;
    if t < 1 then None else
      match Num(stack[t - 1])
      case None => None
      case Some(n) =>
        if n < 0 || n > MAX_PUBKEYS_PER_MULTISIG || t < n + 2 then None else
          match Num(stack[t - 2 - n])
          case None => None
          case Some(m) => if m < 0 || m > n || t < n + m + 3 || stack[t - n - m - 3] != [] then None else Some((n, m))
  }

  function KeysOn(stack: seq<Bytes>, n: nat): seq<Key>
    requires n + 1 <= |stack|
  {
    stack[|stack| - 1 - n..|stack| - 1]
  }

  function SigsOn(stack: seq<Bytes>, n: nat, m: nat): seq<Signature>
    requires n + m + 2 <= |stack|
  {
    stack[|stack| - 2 - n - m..|stack| - 2 - n]
  }

  /** The stack after execution from position `i` on; opcodes other than these are not executed. */
  ghost function Exec(w: Signing, input: nat, s: Bytes, i: nat, ops: nat, stack: seq<Bytes>): Option<seq<Bytes>>
    decreases |s| - i
  {
    if i >= |s| then Some(stack) else
      match GetOp(s, i)
      case None => None
      case Some(op) =>
        if Pushed(op).Some? then
          if |stack| + 1 > MAX_STACK_SIZE then None
          else Exec(w, input, s, op.next, ops, stack + [Pushed(op).value])
        else if op.opcode == OP_CHECKMULTISIG && ops < MAX_OPS_PER_SCRIPT && Arguments(stack).Some? then
          var (n, m) := Arguments(stack).value;
          if ops + 1 + n > MAX_OPS_PER_SCRIPT || |stack| - n - m - 2 > MAX_STACK_SIZE then None
          else Exec(w, input, s, op.next, ops + 1 + n, Checked(w, input, stack, n, m))
        else None
  }

  /** The stack with the verdict in place of the arguments. */
  ghost function Checked(w: Signing, input: nat, stack: seq<Bytes>, n: nat, m: nat): seq<Bytes>
    requires n + m + 3 <= |stack|
  {
    stack[..|stack| - n - m - 3] + [Verdict(Matches(w, input, SigsOn(stack, n, m), KeysOn(stack, n)))]
  }

  ghost function Evaluated(w: Signing, input: nat, s: Bytes, start: seq<Bytes>): Option<seq<Bytes>> {
    if |s| > MAX_SCRIPT_SIZE then None else Exec(w, input, s, 0, 0, start)
  }

  method EvalScript(w: Signing, input: nat, s: Bytes, start: seq<Bytes>) returns (r: Option<seq<Bytes>>)
    ensures r == Evaluated(w, input, s, start)
  {
    hide Matches, Arguments, Pushed;
    if |s| > MAX_SCRIPT_SIZE { return None; }
    var i, ops, stack := 0, 0, start;
    while i < |s|
      invariant 0 <= i <= |s| && 0 <= ops && Exec(w, input, s, 0, 0, start) == Exec(w, input, s, i, ops, stack)
    {
      var op := GetOp(s, i);
      if op.None? { return None; }
      var item := Pushed(op.value);
      if item.Some? {
        stack := stack + [item.value];
      } else if op.value.opcode == OP_CHECKMULTISIG {
        ops := ops + 1;
        if ops > MAX_OPS_PER_SCRIPT { return None; }
        var counts := Arguments(stack);
        if counts.None? { return None; }
        var (n, m) := counts.value;
        ops := ops + n;
        if ops > MAX_OPS_PER_SCRIPT { return None; }
        var ok := CheckMultisig(w, input, SigsOn(stack, n, m), KeysOn(stack, n));
        stack := stack[..|stack| - n - m - 3] + [Verdict(ok)];
      } else {
        return None;
      }
      if |stack| > MAX_STACK_SIZE { return None; }
      i := op.value.next;
    }
    r := Some(stack);
  }

  predicate Truthy(b: Bytes) {
    exists k :: 0 <= k < |b| && b[k] != 0 && !(k == |b| - 1 && b[k] == 0x80)
  }

  // ------------------------------------------------------------ checking an input

  ghost predicate Accepts(w: Signing, input: nat, hash: Bytes -> int, scriptSig: Bytes, scriptHash: int) {
    var stack := Evaluated(w, input, scriptSig, []);
    && stack.Some? && stack.value != []
    && PushOnly(scriptSig, 0)
    && var n := |stack.value| - 1;
       && hash(stack.value[n]) == scriptHash
       && var after := Evaluated(w, input, stack.value[n], stack.value[..n]);
          after.Some? && after.value != [] && Truthy(after.value[|after.value| - 1])
  }

  /** An input that pays to the hash of a script. */
  method VerifyInput(w: Signing, input: nat, hash: Bytes -> int, scriptSig: Bytes, scriptHash: int) returns (ok: bool)
    ensures ok <==> Accepts(w, input, hash, scriptSig, scriptHash)
  {
    hide Evaluated, PushOnly, Truthy;
    var r := EvalScript(w, input, scriptSig, []);
    if r.None? || r.value == [] { return false; }
    var stack := r.value;
    var n := |stack| - 1;
    if hash(stack[n]) != scriptHash { return false; }
    var pushOnly := IsPushOnly(scriptSig);
    if !pushOnly { return false; }
    var after := EvalScript(w, input, stack[n], stack[..n]);
    if after.None? || after.value == [] { return false; }
    ok := Truthy(after.value[|after.value| - 1]);
  }

  // ------------------------------------------------------------ pushes are read back

  ghost predicate Short(items: seq<Bytes>) {
    forall j :: 0 <= j < |items| ==> 1 <= |items[j]| <= 75
  }

  lemma OnePush(s: Bytes, i: nat, x: Bytes)
    requires 1 <= |x| <= 75 && i + 1 + |x| <= |s| && s[i] == |x| && s[i + 1..i + 1 + |x|] == x
    ensures GetOp(s, i) == Some(Op(|x|, x, i + 1 + |x|)) && Pushed(Op(|x|, x, i + 1 + |x|)) == Some(x)
  {
  }

  lemma {:induction false} ExecPushes(w: Signing, input: nat, s: Bytes, i: nat, items: seq<Bytes>, stack: seq<Bytes>)
    requires |stack| + |items| <= MAX_STACK_SIZE
    requires Short(items) && i + |Pushes(items)| <= |s| && s[i..i + |Pushes(items)|] == Pushes(items)
    ensures Exec(w, input, s, i, 0, stack) == Exec(w, input, s, i + |Pushes(items)|, 0, stack + items)
    ensures PushOnly(s, i) <==> PushOnly(s, i + |Pushes(items)|)
  {
    hide Matches, GetOp, Pushed, Arguments;
    if items == [] {
      assert stack + items == stack;
    } else {
      var n := |items| - 1;
      var x, p := items[n], |Pushes(items[..n])|;
      LastPush(s, i, items);
      ExecPushes(w, input, s, i, items[..n], stack);
      OnePush(s, i + p, x);
      assert stack + items[..n] + [x] == stack + items;
    }
  }

  lemma LastPush(s: Bytes, i: nat, items: seq<Bytes>)
    requires items != [] && Short(items) && i + |Pushes(items)| <= |s| && s[i..i + |Pushes(items)|] == Pushes(items)
    ensures var n := |items| - 1;
            var x, p := items[n], |Pushes(items[..n])|;
            && |Pushes(items)| == p + 1 + |x|
            && s[i..i + p] == Pushes(items[..n])
            && s[i + p] == |x| && s[i + p + 1..i + p + 1 + |x|] == x
  {
    var n := |items| - 1;
    var x, q, p := items[n], Pushes(items), |Pushes(items[..n])|;
    assert q == Pushes(items[..n]) + [|x|] + x;
    assert forall k :: 0 <= k < |q| ==> s[i + k] == q[k];
    assert q[..p] == Pushes(items[..n]) && q[p] == |x| && q[p + 1..] == x;
    assert s[i..i + p] == q[..p] && s[i + p + 1..i + p + 1 + |x|] == q[p + 1..];
  }

  // ------------------------------------------------------------ the input script

  lemma Shape(sigs: seq<Signature>, script: Bytes)
    ensures var s, p := InputScript(sigs, script), |Pushes(sigs)|;
            1 + p <= |s| && s[0] == 0 && s[1..1 + p] == Pushes(sigs) && s[1 + p..] == VarInt(|script|) + script
  {
    hide Pushes, VarInt;
    var s, p := InputScript(sigs, script), |Pushes(sigs)|;
    assert s == [0] + Pushes(sigs) + (VarInt(|script|) + script);
  }

  lemma {:induction false} PushesShort(items: seq<Bytes>)
    requires Short(items)
    ensures |Pushes(items)| <= 76 * |items|
  {
    if items != [] { PushesShort(items[..|items| - 1]); }
  }

  lemma InputLength(sigs: seq<Signature>, script: Bytes)
    requires Short(sigs) && |sigs| <= MAX_PUBKEYS_PER_MULTISIG && |script| <= 75
    ensures |InputScript(sigs, script)| <= MAX_SCRIPT_SIZE
  {
    hide Pushes;
    PushesShort(sigs);
  }

  lemma Dummy(w: Signing, input: nat, s: Bytes)
    requires s != [] && s[0] == 0
    ensures Exec(w, input, s, 0, 0, []) == Exec(w, input, s, 1, 0, [[]]) && (PushOnly(s, 0) <==> PushOnly(s, 1))
  {
    hide Matches, Arguments;
    assert s[1..1] == [];
    assert GetOp(s, 0) == Some(Op(0, [], 1));
    var none: seq<Bytes> := [];
    assert none + [[]] == [[]];
  }

  lemma Opens(w: Signing, input: nat, sigs: seq<Signature>, script: Bytes)
    requires Short(sigs) && |sigs| < MAX_STACK_SIZE
    ensures var s, i := InputScript(sigs, script), 1 + |Pushes(sigs)|;
            && i <= |s| && s[i..] == VarInt(|script|) + script
            && Exec(w, input, s, 0, 0, []) == Exec(w, input, s, i, 0, [[]] + sigs)
            && (PushOnly(s, 0) <==> PushOnly(s, i))
  {
    hide Pushes, InputScript, VarInt, Exec, PushOnly;
    var s := InputScript(sigs, script);
    Shape(sigs, script);
    Dummy(w, input, s);
    ExecPushes(w, input, s, 1, sigs, [[]]);
  }

  /** A short redeem script is read back after the signatures. */
  lemma ReadBack(w: Signing, input: nat, sigs: seq<Signature>, script: Bytes)
    requires Short(sigs) && |sigs| <= MAX_PUBKEYS_PER_MULTISIG && 1 <= |script| <= 75
    ensures Evaluated(w, input, InputScript(sigs, script), []) == Some([[]] + sigs + [script])
    ensures PushOnly(InputScript(sigs, script), 0)
  {
    hide Matches, Arguments, InputScript;
    InputLength(sigs, script);
    Opens(w, input, sigs, script);
    var s, i := InputScript(sigs, script), 1 + |Pushes(sigs)|;
    assert s[i..][0] == |script| && s[i..][1..] == script;
    assert s[i + 1..i + 1 + |script|] == script;
    OnePush(s, i, script);
  }

  /** The length of a longer one is read as an opcode that does not push. */
  lemma NotRead(w: Signing, input: nat, sigs: seq<Signature>, script: Bytes)
    requires Short(sigs) && |sigs| <= MAX_PUBKEYS_PER_MULTISIG && |script| > OP_16
    ensures !PushOnly(InputScript(sigs, script), 0)
  {
    hide Matches, Arguments, InputScript, Exec;
    Opens(w, input, sigs, script);
    var s, i := InputScript(sigs, script), 1 + |Pushes(sigs)|;
    assert s[i..][0] > OP_16;
    assert s[i] == s[i..][0];
  }

  // ------------------------------------------------------------ the redeem script

  lemma ScriptParts(m: nat, keys: seq<Key>)
    requires Legal(m, keys)
    ensures var s, p := Script(m, keys), |Pushes(keys)|;
            && |s| == p + 3 && s[0] == OP_BASE + m && s[1..1 + p] == Pushes(keys)
            && s[1 + p] == OP_BASE + |keys| && s[2 + p] == OP_CHECKMULTISIG
  {
    hide Pushes;
  }

  lemma SmallOp(s: Bytes, i: nat, n: nat)
    requires i < |s| && s[i] == OP_BASE + n && 1 <= n <= 16
    ensures GetOp(s, i) == Some(Op(OP_BASE + n, [], i + 1)) && Pushed(Op(OP_BASE + n, [], i + 1)) == Some([n])
  {
  }

  lemma ArgumentsAre(m: nat, keys: seq<Key>, sigs: seq<Signature>)
    requires 1 <= m <= |keys| <= 16 && |sigs| == m
    ensures var stack := [[]] + sigs + [[m]] + keys + [[|keys|]];
            && Arguments(stack) == Some((|keys|, m)) && |stack| == |keys| + m + 3
            && SigsOn(stack, |keys|, m) == sigs && KeysOn(stack, |keys|) == keys
  {
    var stack := [[]] + sigs + [[m]] + keys + [[|keys|]];
    var n, t := |keys|, |stack|;
    assert stack[t - 1] == [n] && stack[t - 2 - n] == [m] && stack[0] == [];
    assert Little([]) == 0;
    assert Little([n]) == n && Little([m]) == m by { assert [n][1..] == [] && [m][1..] == []; }
    assert Num([n]) == Some(n) && Num([m]) == Some(m);
  }

  lemma Redeemed(w: Signing, input: nat, m: nat, keys: seq<Key>, sigs: seq<Signature>)
    requires Legal(m, keys) && |sigs| == m
    ensures Evaluated(w, input, Script(m, keys), [[]] + sigs) == Some([Verdict(Matches(w, input, sigs, keys))])
  {
    hide Matches, Script, Pushes, GetOp, Pushed, Arguments, SigsOn, KeysOn, Num;
    var s, p := Script(m, keys), |Pushes(keys)|;
    ScriptLength(m, keys);
    ScriptParts(m, keys);
    var a := [[]] + sigs + [[m]];
    SmallOp(s, 0, m);
    assert Exec(w, input, s, 0, 0, [[]] + sigs) == Exec(w, input, s, 1, 0, a);
    ExecPushes(w, input, s, 1, keys, a);
    SmallOp(s, 1 + p, |keys|);
    var stack := a + keys + [[|keys|]];
    assert Exec(w, input, s, 1 + p, 0, a + keys) == Exec(w, input, s, 2 + p, 0, stack);
    ArgumentsAre(m, keys, sigs);
    LastOp(s, 2 + p);
    var v := Verdict(Matches(w, input, sigs, keys));
    assert stack[..|stack| - |keys| - m - 3] + [v] == [v];
    assert Exec(w, input, s, 2 + p, 0, stack) == Exec(w, input, s, 3 + p, 1 + |keys|, [v]);
  }

  lemma LastOp(s: Bytes, i: nat)
    requires i < |s| && s[i] == OP_CHECKMULTISIG
    ensures GetOp(s, i) == Some(Op(OP_CHECKMULTISIG, [], i + 1)) && Pushed(Op(OP_CHECKMULTISIG, [], i + 1)).None?
  {
  }

  // ------------------------------------------------------------ what the node accepts

  /** A finished input is accepted exactly if its signatures fit and its script has at most two keys. */
  lemma AcceptsIff(w: Signing, input: nat, hash: Bytes -> int, m: nat, keys: seq<Key>, sigs: seq<Signature>)
    requires Legal(m, keys) && |sigs| == m && Short(sigs)
    ensures Accepts(w, input, hash, InputScript(sigs, Script(m, keys)), hash(Script(m, keys))) <==>
            |keys| <= 2 && Matches(w, input, sigs, keys)
  {
    hide Matches, Script, InputScript, Evaluated, PushOnly;
    var script := Script(m, keys);
    ScriptLength(m, keys);
    if |keys| <= 2 {
      ReadBack(w, input, sigs, script);
      var stack := [[]] + sigs + [script];
      assert stack[..|stack| - 1] == [[]] + sigs;
      Redeemed(w, input, m, keys, sigs);
      assert Truthy([1]) by { assert [1][0] == 1; }
      assert !Truthy([]);
    } else {
      NotRead(w, input, sigs, script);
    }
  }

  /** Two signers of three finish a transaction that the node refuses. */
  lemma ThreeKeysRefused(w: Signing, hash: Bytes -> int, a: Key, b: Key, c: Key)
    requires Sound(w) && |a| == |b| == |c| == 33
    ensures var sigs := [w.sign(0, a), w.sign(0, b)];
            && Matches(w, 0, sigs, [a, b, c])
            && !Accepts(w, 0, hash, InputScript(sigs, Script(2, [a, b, c])), hash(Script(2, [a, b, c])))
  {
    hide Script, InputScript, Accepts;
    var sigs, keys := [w.sign(0, a), w.sign(0, b)], [a, b, c];
    assert Embeds(w, 0, sigs, keys, [0, 1]);
    AcceptsIff(w, 0, hash, 2, keys, sigs);
  }

  lemma FinishedAccepted(w: Signing, hash: Bytes -> int, ps: seq<Policy>, c: Collected, signers: set<Key>, i: nat,
                         s: Bytes)
    requires Sound(w) && AllLegal(ps) && Holds(w, Scripts(ps), c, signers) && i < |ps| && Finished(ps[i], c[i], s)
    ensures Accepts(w, i, hash, s, hash(Script(ps[i].m, ps[i].keys))) <==> |ps[i].keys| <= 2
  {
    hide Accepts, Script, InputScript, Ordered, Matches, Holds;
    var m, keys := ps[i].m, ps[i].keys;
    HoldsLength(w, Scripts(ps), c, signers);
    var all: seq<Signature> := Ordered(keys, c[i]);
    InputSpends(w, ps, c, signers, i);
    HoldsAt(w, Scripts(ps), c, signers, i);
    forall j | 0 <= j < m ensures 1 <= |all[j]| <= 75 {
      OrderedShort(w, Scripts(ps), signers, i, keys, j);
    }
    ScriptLength(m, keys);
    AcceptsIff(w, i, hash, m, keys, all[..m]);
  }

  lemma HoldsAt(w: Signing, scripts: seq<Bytes>, c: Collected, signers: set<Key>, i: nat)
    requires Holds(w, scripts, c, signers) && i < |scripts|
    ensures c[i] == Of(w, scripts, signers, i)
  {
  }

  /**
   From the plan to the node: finishing succeeds exactly if every input has enough
   signers, in whatever order they signed and merged. Every finished script then holds
   the first of the signers' signatures in the order of the keys, and the node accepts
   exactly the inputs whose scripts have at most two keys.
  */
  method Spend(w: Signing, hash: Bytes -> int, ps: seq<Policy>, plan: Plan)
      returns (r: Option<seq<Bytes>>, accepted: seq<bool>)
    requires Sound(w) && AllLegal(ps)
    ensures r.Some? <==> forall i :: 0 <= i < |ps| ==> CountIn(ps[i].keys, Signers(plan)) >= ps[i].m
    ensures r.Some? ==>
              && |r.value| == |ps|
              && forall i :: 0 <= i < |ps| ==> Finished(ps[i], Of(w, Scripts(ps), Signers(plan), i), r.value[i])
    ensures r.Some? ==>
              && |accepted| == |ps|
              && forall i :: 0 <= i < |ps| ==>
                   && (accepted[i] <==> Accepts(w, i, hash, r.value[i], hash(Script(ps[i].m, ps[i].keys))))
                   && (accepted[i] <==> |ps[i].keys| <= 2)
  {
    hide Ordered, Of, Holds, Script, CountIn, Accepts, Finished, TooFew, InScript, Threshold;
    accepted := [];
    var p := Carry(w, Scripts(ps), plan);
    HoldsLength(w, Scripts(ps), p.signatures, Signers(plan));
    forall i | 0 <= i < |ps| ensures |Ordered(ps[i].keys, p.signatures[i])| == CountIn(ps[i].keys, Signers(plan)) {
      InputSpends(w, ps, p.signatures, Signers(plan), i);
    }
    r := Finalize(p);
    forall i | 0 <= i < |ps|
      ensures TooFew(p.scripts[i], p.signatures[i]) <==> CountIn(ps[i].keys, Signers(plan)) < ps[i].m
      ensures r.Some? ==> Finished(ps[i], p.signatures[i], r.value[i])
      ensures p.signatures[i] == Of(w, Scripts(ps), Signers(plan), i)
    {
      assert p.scripts[i] == Script(ps[i].m, ps[i].keys);
      PolicyScript(ps[i], p.signatures[i]);
      HoldsAt(w, Scripts(ps), p.signatures, Signers(plan), i);
    }
    ghost var c := p.signatures;
    if r.Some? {
      forall i | 0 <= i < |ps| ensures |Ordered(ps[i].keys, c[i])| >= ps[i].m
          { FinishedEnough(ps[i], c[i], r.value[i]); }
      for i := 0 to |ps|
        invariant |accepted| == i
        invariant forall j :: 0 <= j < i ==>
                    && (accepted[j] <==> Accepts(w, j, hash, r.value[j], hash(Script(ps[j].m, ps[j].keys))))
                    && (accepted[j] <==> |ps[j].keys| <= 2)
      {
        var ok := VerifyInput(w, i, hash, r.value[i], hash(Script(ps[i].m, ps[i].keys)));
        FinishedAccepted(w, hash, ps, c, Signers(plan), i, r.value[i]);
        accepted := accepted + [ok];
      }
    }
  }

  lemma FinishedEnough(p: Policy, c: map<Key, Signature>, s: Bytes)
    requires Finished(p, c, s)
    ensures p.m <= |Ordered(p.keys, c)|
  {
  }
}

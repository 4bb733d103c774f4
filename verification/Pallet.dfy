/** The storage and calls of the pallet (`lib.rs`): registered finalizers, submitted
    signatures and thresholds, per chain. */
module Pallet {
  import opened Words

  type AccountId = nat
  type Signature = seq<byte>

  datatype Origin = Signed(who: AccountId) | Unsigned

  datatype Call =
    | RegisterFinalizer(origin: Origin, chain: u64, finalizer: AccountId)
    | RemoveFinalizer(origin: Origin, chain: u64, finalizer: AccountId)
    | SubmitSignature(origin: Origin, chain: u64, block: u64, signature: Signature)
    | SetThreshold(origin: Origin, chain: u64, threshold: u32)

  datatype Storage = Storage(
    finalizers: map<u64, seq<AccountId>>,
    signatures: map<(u64, u64), seq<(AccountId, Signature)>>,
    thresholds: map<u64, u32>)
  {
    function Finalizers(chain: u64): seq<AccountId> {
      if chain in finalizers then finalizers[chain] else []
    }

    function Signatures(chain: u64, block: u64): seq<(AccountId, Signature)> {
      if (chain, block) in signatures then signatures[(chain, block)] else []
    }

    /** `FinalizerThreshold::get(chain).unwrap_or_default()`. */
    function Threshold(chain: u64): u32 {
      if chain in thresholds then thresholds[chain] else 0
    }
  }

  const EMPTY: Storage := Storage(map[], map[], map[])

  function Position(s: seq<AccountId>, a: AccountId): (i: nat)
    requires a in s
    ensures i < |s| && s[i] == a && a !in s[..i]
  {
    if s[0] == a then 0 else 1 + Position(s[1..], a)
  }

  /** Whether a call is accepted. Only `submit_signature` looks at its origin: the other
      calls compute `ensure_signed(origin)` and drop the result. */
  predicate Accepts(s: Storage, c: Call) {
    match c
    case RegisterFinalizer(_, _, _) => true
    case RemoveFinalizer(_, chain, a) => a in s.Finalizers(chain)
    case SubmitSignature(origin, chain, _, _) => origin.Signed? && origin.who in s.Finalizers(chain)
    case SetThreshold(_, _, _) => true
  }

  /** The storage after a call; a rejected call writes nothing. */
  function Apply(s: Storage, c: Call): Storage {
    if !Accepts(s, c) then s
    else
      match c
      case RegisterFinalizer(_, chain, a) => s.(finalizers := s.finalizers[chain := s.Finalizers(chain) + [a]])
      case RemoveFinalizer(_, chain, a) =>
        var list := s.Finalizers(chain);
        var i := Position(list, a);
        s.(finalizers := s.finalizers[chain := list[..i] + list[i + 1..]])
      case SubmitSignature(origin, chain, block, sig) =>
        s.(signatures := s.signatures[(chain, block) := s.Signatures(chain, block) + [(origin.who, sig)]])
      case SetThreshold(_, chain, t) => s.(thresholds := s.thresholds[chain := t])
  }

  function Run(s: Storage, calls: seq<Call>): Storage {
    if calls == [] then s else Apply(Run(s, calls[..|calls| - 1]), calls[|calls| - 1])
  }

  /** The pallet's calls as they mutate storage. */
  class PalletState {
    var finalizers: map<u64, seq<AccountId>>
    var signatures: map<(u64, u64), seq<(AccountId, Signature)>>
    var thresholds: map<u64, u32>

    ghost function State(): Storage
      reads this
    {
      Storage(finalizers, signatures, thresholds)
    }

    constructor ()
      ensures State() == EMPTY
    {
      finalizers, signatures, thresholds := map[], map[], map[];
    }

    method Register(origin: Origin, chain: u64, a: AccountId)
      modifies this
      ensures State() == Apply(old(State()), RegisterFinalizer(origin, chain, a))
    {
      var current := if chain in finalizers then finalizers[chain] else [];
      finalizers := finalizers[chain := current + [a]];
    }

    method Remove(origin: Origin, chain: u64, a: AccountId) returns (ok: bool)
      modifies this
      ensures ok == Accepts(old(State()), RemoveFinalizer(origin, chain, a))
      ensures State() == Apply(old(State()), RemoveFinalizer(origin, chain, a))
    {
      var current := if chain in finalizers then finalizers[chain] else [];
      var i := 0;
      while i < |current| && current[i] != a
        invariant i <= |current| && a !in current[..i]
      {
        i := i + 1;
      }
      if i == |current| {
        return false;
      }
      assert current[i] in current;
      FirstPosition(current, a, i);
      finalizers := finalizers[chain := current[..i] + current[i + 1..]];
      return true;
    }

    method Submit(origin: Origin, chain: u64, block: u64, sig: Signature) returns (ok: bool)
      modifies this
      ensures ok == Accepts(old(State()), SubmitSignature(origin, chain, block, sig))
      ensures State() == Apply(old(State()), SubmitSignature(origin, chain, block, sig))
    {
      if origin.Unsigned? || chain !in finalizers || origin.who !in finalizers[chain] {
        return false;
      }
      var current := if (chain, block) in signatures then signatures[(chain, block)] else [];
      signatures := signatures[(chain, block) := current + [(origin.who, sig)]];
      return true;
    }

    method SetFinalizerThreshold(origin: Origin, chain: u64, t: u32)
      modifies this
      ensures State() == Apply(old(State()), SetThreshold(origin, chain, t))
    {
      thresholds := thresholds[chain := t];
    }
  }

  lemma {:induction false} FirstPosition(s: seq<AccountId>, a: AccountId, i: nat)
    requires i < |s| && s[i] == a && a !in s[..i]
    ensures a in s && Position(s, a) == i
  {
    if i == 0 {
    } else {
      assert s[0] in s[..i];
      assert s[1..][..i - 1] == s[..i][1..];
      FirstPosition(s[1..], a, i - 1);
    }
  }

  // ---------- registry ----------

  /** The registrations of `a` on `chain` after a call, of `n` before it: a registration adds
      one, a removal takes one if there is one. */
  function StandingAfter(n: nat, c: Call, chain: u64, a: AccountId): nat {
    match c
    case RegisterFinalizer(_, on, b) => if on == chain && b == a then n + 1 else n
    case RemoveFinalizer(_, on, b) => if on == chain && b == a && n > 0 then n - 1 else n
    case _ => n
  }

  /** How many times `a` is registered on `chain` after some calls, told from the calls alone. */
  function Standing(calls: seq<Call>, chain: u64, a: AccountId): nat {
    if calls == [] then 0
    else StandingAfter(Standing(calls[..|calls| - 1], chain, a), calls[|calls| - 1], chain, a)
  }

  function Count(s: seq<AccountId>, a: AccountId): nat {
    multiset(s)[a]
  }

  lemma CountOneMore(s: seq<AccountId>, b: AccountId, a: AccountId)
    ensures Count(s + [b], a) == Count(s, a) + if b == a then 1 else 0
  {
  }

  lemma CountOneLess(s: seq<AccountId>, i: nat, a: AccountId)
    requires i < |s|
    ensures Count(s[..i] + s[i + 1..], a) == Count(s, a) - if s[i] == a then 1 else 0
  {
    assert s == s[..i] + [s[i]] + s[i + 1..];
  }

  lemma CountsMembers(s: seq<AccountId>, a: AccountId)
    ensures a in s <==> Count(s, a) > 0
  {
    assert a in s <==> a in multiset(s);
  }

  lemma ApplyCounts(s: Storage, c: Call, chain: u64, a: AccountId)
    ensures Count(Apply(s, c).Finalizers(chain), a) == StandingAfter(Count(s.Finalizers(chain), a), c, chain, a)
  {
    hide Count;
    var list := s.Finalizers(chain);
    CountsMembers(list, a);
    if c.RegisterFinalizer? {
      CountOneMore(list, c.finalizer, a);
    } else if c.RemoveFinalizer? && c.finalizer in list {
      CountOneLess(list, Position(list, c.finalizer), a);
    }
  }

  /** After any calls, an account is registered on a chain as many times as the calls say. */
  lemma {:induction false} RegistryCounts(calls: seq<Call>, chain: u64, a: AccountId)
    ensures Count(Run(EMPTY, calls).Finalizers(chain), a) == Standing(calls, chain, a)
  {
    hide Apply, Count, StandingAfter;
    if calls == [] {
      NothingCounted(a);
    } else {
      var before := calls[..|calls| - 1];
      RegistryCounts(before, chain, a);
      ApplyCounts(Run(EMPTY, before), calls[|calls| - 1], chain, a);
    }
  }

  lemma NothingCounted(a: AccountId)
    ensures Count([], a) == 0
  {
  }

  /** The list without the first occurrence of an account. */
  function Without(s: seq<AccountId>, a: AccountId): seq<AccountId> {
    if s == [] then [] else if s[0] == a then s[1..] else [s[0]] + Without(s[1..], a)
  }

  /** The registered accounts of a chain in order of registration, told from the calls alone. */
  function Registry(calls: seq<Call>, chain: u64): seq<AccountId> {
    if calls == [] then []
    else
      var before, c := Registry(calls[..|calls| - 1], chain), calls[|calls| - 1];
      if c.RegisterFinalizer? && c.chain == chain then before + [c.finalizer]
      else if c.RemoveFinalizer? && c.chain == chain then Without(before, c.finalizer)
      else before
  }

  lemma {:induction false} WithoutFirst(s: seq<AccountId>, a: AccountId)
    ensures Without(s, a) == if a in s then s[..Position(s, a)] + s[Position(s, a) + 1..] else s
  {
    if s == [] {
    } else {
      var rest := s[1..];
      assert s == [s[0]] + rest;
      if s[0] != a {
        WithoutFirst(rest, a);
        if a in s {
          var i := Position(rest, a);
          assert s[..i + 1] == [s[0]] + rest[..i] && s[i + 2..] == rest[i + 1..];
        }
      }
    }
  }

  lemma {:induction false} RegistryTold(calls: seq<Call>, chain: u64)
    ensures Run(EMPTY, calls).Finalizers(chain) == Registry(calls, chain)
  {
    hide Position;
    if calls == [] {
    } else {
      var before, c := calls[..|calls| - 1], calls[|calls| - 1];
      RegistryTold(before, chain);
      if c.RemoveFinalizer? {
        WithoutFirst(Run(EMPTY, before).Finalizers(chain), c.finalizer);
      }
    }
  }

  /** A registration and a threshold are always in order, a removal when the calls leave a
      registration to remove, and a submission when it is signed by an account with a
      registration left. */
  predicate Entitled(calls: seq<Call>, c: Call) {
    match c
    case RegisterFinalizer(_, _, _) => true
    case RemoveFinalizer(_, chain, a) => Standing(calls, chain, a) > 0
    case SubmitSignature(origin, chain, _, _) => origin.Signed? && Standing(calls, chain, origin.who) > 0
    case SetThreshold(_, _, _) => true
  }

  /** Acceptance in terms of the calls made before. */
  lemma AcceptedIff(calls: seq<Call>, c: Call)
    ensures Accepts(Run(EMPTY, calls), c) <==> Entitled(calls, c)
  {
    hide Run, Count, Standing;
    match c
    case RemoveFinalizer(_, chain, a) =>
      RegistryCounts(calls, chain, a);
      CountsMembers(Run(EMPTY, calls).Finalizers(chain), a);
    case SubmitSignature(origin, chain, _, _) =>
      if origin.Signed? {
        RegistryCounts(calls, chain, origin.who);
        CountsMembers(Run(EMPTY, calls).Finalizers(chain), origin.who);
      }
    case _ =>
  }

  // ---------- signatures ----------

  /** The accepted submissions for a block, in order. */
  function Submissions(s: Storage, calls: seq<Call>, chain: u64, block: u64): seq<(AccountId, Signature)> {
    if calls == [] then []
    else
      var before, c := calls[..|calls| - 1], calls[|calls| - 1];
      Submissions(s, before, chain, block) +
      if c.SubmitSignature? && c.chain == chain && c.block == block && Accepts(Run(s, before), c)
      then [(c.origin.who, c.signature)] else []
  }

  /** The stored list grows by exactly the accepted submissions: it is append-only. */
  lemma {:induction false} SignaturesAppendOnly(s: Storage, calls: seq<Call>, chain: u64, block: u64)
    ensures Run(s, calls).Signatures(chain, block)
         == s.Signatures(chain, block) + Submissions(s, calls, chain, block)
  {
    if calls == [] {
    } else {
      SignaturesAppendOnly(s, calls[..|calls| - 1], chain, block);
    }
  }

  /** The submissions for a block by accounts registered at that moment, told from the calls
      alone. */
  function Submitted(calls: seq<Call>, chain: u64, block: u64): seq<(AccountId, Signature)> {
    if calls == [] then []
    else
      var before, c := calls[..|calls| - 1], calls[|calls| - 1];
      Submitted(before, chain, block) +
      if c.SubmitSignature? && c.chain == chain && c.block == block &&
         c.origin.Signed? && Standing(before, chain, c.origin.who) > 0
      then [(c.origin.who, c.signature)] else []
  }

  /** From the empty storage, the stored list is what the calls say. */
  lemma {:induction false} SignaturesTold(calls: seq<Call>, chain: u64, block: u64)
    ensures Run(EMPTY, calls).Signatures(chain, block) == Submitted(calls, chain, block)
    ensures Submissions(EMPTY, calls, chain, block) == Submitted(calls, chain, block)
  {
    if calls == [] {
    } else {
      var before, c := calls[..|calls| - 1], calls[|calls| - 1];
      SignaturesTold(before, chain, block);
      AcceptedIff(before, c);
    }
  }

  /** A stored signature was submitted by an account that was then registered on the chain. */
  ghost predicate SubmittedAt(calls: seq<Call>, j: nat, chain: u64, block: u64, entry: (AccountId, Signature)) {
    && j < |calls| && calls[j] == SubmitSignature(Signed(entry.0), chain, block, entry.1)
    && Standing(calls[..j], chain, entry.0) > 0
  }

  lemma {:induction false} SignersWereRegistered(calls: seq<Call>, chain: u64, block: u64, i: nat)
    requires i < |Run(EMPTY, calls).Signatures(chain, block)|
    ensures exists j: nat :: SubmittedAt(calls, j, chain, block, Run(EMPTY, calls).Signatures(chain, block)[i])
  {
    if calls == [] {
    } else {
      var n := |calls| - 1;
      var before, c := calls[..n], calls[n];
      var entry := Run(EMPTY, calls).Signatures(chain, block)[i];
      if i < |Run(EMPTY, before).Signatures(chain, block)| {
        SignersWereRegistered(before, chain, block, i);
        var j: nat :| SubmittedAt(before, j, chain, block, entry);
        assert before[..j] == calls[..j];
        assert SubmittedAt(calls, j, chain, block, entry);
      } else {
        AcceptedIff(before, c);
        assert SubmittedAt(calls, n, chain, block, entry);
      }
    }
  }

  // ---------- the finalize gate ----------

  /** `finalize` posts on chain when more signatures than the threshold are stored. */
  predicate GateOpen(s: Storage, chain: u64, block: u64) {
    (chain, block) in s.signatures && |s.signatures[(chain, block)]| > s.Threshold(chain)
  }

  function Concat(sigs: seq<(AccountId, Signature)>): seq<byte> {
    if sigs == [] then [] else sigs[0].1 + Concat(sigs[1..])
  }

  /** The signature that `post_finalize_transaction` sends: 64 bytes of all signatures joined,
      then 28 and zeros. Fewer than 64 bytes is a panic. */
  datatype Multisig = Compressed(bytes: seq<byte>) | TooShort

  function Compress(sigs: seq<(AccountId, Signature)>): Multisig {
    var combined := Concat(sigs);
    if |combined| < 64 then TooShort else Compressed(combined[..64] + [28] + Zeros(31))
  }

  method CompressLoop(sigs: seq<(AccountId, Signature)>) returns (m: Multisig)
    ensures m == Compress(sigs)
  {
    var combined: seq<byte> := [];
    for i := 0 to |sigs|
      invariant combined + Concat(sigs[i..]) == Concat(sigs)
    {
      assert sigs[i..][1..] == sigs[i + 1..];
      combined := combined + sigs[i].1;
    }
    if |combined| < 64 {
      return TooShort;
    }
    return Compressed(combined[..64] + [28] + Zeros(31));
  }

  lemma {:induction false} ConcatAppend(a: seq<(AccountId, Signature)>, b: seq<(AccountId, Signature)>)
    ensures Concat(a + b) == Concat(a) + Concat(b)
  {
    if a == [] {
      assert a + b == b;
    } else {
      ConcatAppend(a[1..], b);
      assert (a + b)[0] == a[0] && (a + b)[1..] == a[1..] + b;
      assert a[0].1 + (Concat(a[1..]) + Concat(b)) == (a[0].1 + Concat(a[1..])) + Concat(b);
    }
  }

  predicate KeepsThreshold(calls: seq<Call>, chain: u64) {
    forall c :: c in calls ==> !(c.SetThreshold? && c.chain == chain)
  }

  lemma {:induction false} ThresholdKept(s: Storage, calls: seq<Call>, chain: u64)
    requires KeepsThreshold(calls, chain)
    ensures Run(s, calls).Threshold(chain) == s.Threshold(chain)
  {
    if calls == [] {
    } else {
      ThresholdKept(s, calls[..|calls| - 1], chain);
    }
  }

  lemma {:induction false} PresenceKept(s: Storage, calls: seq<Call>, chain: u64, block: u64)
    requires (chain, block) in s.signatures
    ensures (chain, block) in Run(s, calls).signatures
  {
    if calls == [] {
    } else {
      PresenceKept(s, calls[..|calls| - 1], chain, block);
    }
  }

  /** The last threshold set for a chain, zero when none was. */
  function LastThreshold(calls: seq<Call>, chain: u64): u32 {
    if calls == [] then 0
    else
      var c := calls[|calls| - 1];
      if c.SetThreshold? && c.chain == chain then c.threshold else LastThreshold(calls[..|calls| - 1], chain)
  }

  lemma {:induction false} ThresholdIsLast(calls: seq<Call>, chain: u64)
    ensures Run(EMPTY, calls).Threshold(chain) == LastThreshold(calls, chain)
  {
    if calls == [] {
    } else {
      ThresholdIsLast(calls[..|calls| - 1], chain);
    }
  }

  lemma {:induction false} StoredNonEmpty(calls: seq<Call>, chain: u64, block: u64)
    ensures (chain, block) in Run(EMPTY, calls).signatures ==> Run(EMPTY, calls).Signatures(chain, block) != []
  {
    if calls == [] {
    } else {
      StoredNonEmpty(calls[..|calls| - 1], chain, block);
    }
  }

  /** The gate in terms of the calls made: a block can be finalized exactly when its
      submissions by registered accounts outnumber the threshold last set for the chain. */
  lemma GateCounts(calls: seq<Call>, chain: u64, block: u64)
    ensures GateOpen(Run(EMPTY, calls), chain, block) <==>
            |Submitted(calls, chain, block)| >= LastThreshold(calls, chain) + 1
  {
    hide Run;
    ThresholdIsLast(calls, chain);
    StoredNonEmpty(calls, chain, block);
    SignaturesTold(calls, chain, block);
  }

  /** Once the gate is open it stays open through every run of calls that leaves the
      threshold alone, and the multisig posted, once it exists, never changes. */
  lemma GateStaysOpen(s: Storage, calls: seq<Call>, chain: u64, block: u64)
    requires GateOpen(s, chain, block) && KeepsThreshold(calls, chain)
    ensures GateOpen(Run(s, calls), chain, block)
    ensures Compress(s.Signatures(chain, block)).Compressed? ==>
              Compress(Run(s, calls).Signatures(chain, block)) == Compress(s.Signatures(chain, block))
  {
    ThresholdKept(s, calls, chain);
    PresenceKept(s, calls, chain, block);
    SignaturesAppendOnly(s, calls, chain, block);
    ConcatAppend(s.Signatures(chain, block), Submissions(s, calls, chain, block));
    var a, b := Concat(s.Signatures(chain, block)), Concat(Submissions(s, calls, chain, block));
    assert |a| >= 64 ==> (a + b)[..64] == a[..64];
  }

  /** When the first signature has the 96-byte shape that the client generates, the multisig
      posted is that signature. */
  lemma FirstSignatureIsPosted(sigs: seq<(AccountId, Signature)>)
    requires sigs != [] && |sigs[0].1| == 96 && sigs[0].1[64..] == [28] + Zeros(31)
    ensures Compress(sigs) == Compressed(sigs[0].1)
  {
    var first := sigs[0].1;
    assert Concat(sigs)[..64] == first[..64] && first == first[..64] + first[64..];
  }
}

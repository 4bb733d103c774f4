/** The decisions of the portal client (`quantum_portal_client.rs`): whether to mine, whether
    to finalize, and whether a mined block equals its source. Contract reads and sends are
    parameters, each of which may fail or panic. */
module Client {
  import opened Words
  import opened Wrappers
  import opened MineMessage
  import Pallet

  /** A step that returns, returns an error, or panics. */
  datatype Flow<+T> = Ok(value: T) | Err | Panic {
    predicate IsFailure() {
      !Ok?
    }

    function PropagateFailure<U>(): Flow<U>
      requires IsFailure()
    {
      if Err? then Err else Panic
    }

    function Extract(): T
      requires !IsFailure()
    {
      value
    }
  }

  // ---------- block comparison ----------

  /** `compare_and_verify_mined_block`. */
  predicate SameBlock(source: seq<QpTransaction>, mined: seq<QpTransaction>) {
    |source| == |mined| && forall t :: t in source ==> t in mined
  }

  method SameBlockLoop(source: seq<QpTransaction>, mined: seq<QpTransaction>) returns (same: bool)
    ensures same == SameBlock(source, mined)
  {
    if |source| != |mined| {
      return false;
    }
    for i := 0 to |source|
      invariant forall j :: 0 <= j < i ==> source[j] in mined
    {
      if source[i] !in mined {
        return false;
      }
    }
    return true;
  }

  predicate Distinct<T(==)>(s: seq<T>) {
    forall i, j :: 0 <= i < j < |s| ==> s[i] != s[j]
  }

  ghost predicate Permutation<T>(s: seq<T>, t: seq<T>) {
    multiset(s) == multiset(t)
  }

  lemma PermutationSize<T>(s: seq<T>, t: seq<T>)
    requires Permutation(s, t)
    ensures |s| == |t|
  {
    assert |multiset(s)| == |s| && |multiset(t)| == |t|;
  }

  /** Pigeonhole: distinct elements found in a list of the same length fill it. */
  lemma {:induction false} DistinctFill<T>(s: seq<T>, t: seq<T>)
    requires Distinct(s) && |s| == |t| && forall x :: x in s ==> x in t
    ensures Permutation(s, t)
  {
    if s == [] {
    } else {
      assert s[0] in t;
      var i :| 0 <= i < |t| && t[i] == s[0];
      var rest := t[..i] + t[i + 1..];
      assert t == t[..i] + [t[i]] + t[i + 1..];
      assert s == [s[0]] + s[1..];
      forall x | x in s[1..]
        ensures x in rest
      {
        assert x != s[0] && x in t;
      }
      DistinctFill(s[1..], rest);
      assert multiset(t) == multiset(rest) + multiset{t[i]};
    }
  }

  lemma PermutationIsSame(source: seq<QpTransaction>, mined: seq<QpTransaction>)
    requires Permutation(source, mined)
    ensures SameBlock(source, mined)
  {
    PermutationSize(source, mined);
    forall t | t in source
      ensures t in mined
    {
      assert t in multiset(source);
    }
  }

  /** A list in which one of two equal transactions was replaced still compares as the same. */
  lemma DuplicateHidesChange(source: seq<QpTransaction>, i: nat, j: nat)
    requires i < j < |source| && source[i] == source[j]
    ensures exists mined :: SameBlock(source, mined) && !Permutation(source, mined)
  {
    var t := source[j];
    var other := t.(timestamp := if t.timestamp == 0 then 1 else 0);
    var mined := source[j := other];
    forall x | x in source
      ensures x in mined
    {
      var k :| 0 <= k < |source| && source[k] == x;
      assert mined[if k == j then i else k] == x;
    }
    assert multiset(mined) == multiset(source) - multiset{t} + multiset{other};
    assert t in multiset(source) && other != t;
    assert multiset(mined)[t] == multiset(source)[t] - 1;
    assert SameBlock(source, mined) && !Permutation(source, mined);
  }

  /** The comparison accepts exactly the permutations of a source block if and only if the
      block's transactions are pairwise distinct. */
  lemma ComparisonExact(source: seq<QpTransaction>)
    ensures (forall mined :: SameBlock(source, mined) <==> Permutation(source, mined)) <==> Distinct(source)
  {
    if Distinct(source) {
      forall mined
        ensures SameBlock(source, mined) <==> Permutation(source, mined)
      {
        if SameBlock(source, mined) {
          DistinctFill(source, mined);
        }
        if Permutation(source, mined) {
          PermutationIsSame(source, mined);
        }
      }
    } else {
      var i, j :| 0 <= i < j < |source| && source[i] == source[j];
      DuplicateHidesChange(source, i, j);
    }
  }

  // ---------- mine ----------

  /** The contract reads of `mine` and the outcome of sending. */
  datatype MineView = MineView(
    ready: Flow<bool>,                                    // remote: isLocalBlockReady
    lastLocal: Flow<u64>,                                 // remote: getLastLocalBlock, its nonce
    lastMined: Flow<u64>,                                 // local: lastRemoteMinedBlock, its nonce
    hasHash: u64 -> Flow<bool>,                           // local: minedBlockByNonce, hash not zero
    localBlock: u64 -> Flow<(u64, seq<QpTransaction>)>,   // remote: localBlockByNonce
    assignedMiner: Flow<()>,                              // local: getMinerForBlock, not used
    send: Flow<Word>)                                     // signing and sending

  datatype MineCall = MineCall(nonce: u64, txs: seq<QpTransaction>, id: Word)

  function SaturatingNext(n: u64): u64 {
    if n + 1 < TWO_64 then n + 1 else n
  }

  /** `mine`. */
  function Mine(v: MineView): Flow<Option<MineCall>> {
    var ready :- v.ready;
    if !ready then Ok(None)
    else
      var lastLocal :- v.lastLocal;
      var lastMined :- v.lastMined;
      if lastMined >= lastLocal then Ok(None)
      else
        var alreadyMined :- v.hasHash(lastLocal);
        if alreadyMined then Err
        else
          var (nonce, txs) :- v.localBlock(SaturatingNext(lastMined));
          var _ :- v.assignedMiner;
          var id :- v.send;
          Ok(Some(MineCall(nonce, txs, id)))
  }

  /** A mine transaction is sent for the block after the last mined one, which exists, and
      carries that block as the source returns it. The saturating addition never saturates. */
  lemma MineSendsNext(v: MineView)
    requires Mine(v).Ok? && Mine(v).value.Some?
    ensures v.lastMined.Ok? && v.lastLocal.Ok?
    ensures v.lastMined.value + 1 <= v.lastLocal.value
    ensures v.localBlock(v.lastMined.value + 1) == Ok((Mine(v).value.value.nonce, Mine(v).value.value.txs))
  {
    assert SaturatingNext(v.lastMined.value) == v.lastMined.value + 1;
    var block := v.localBlock(v.lastMined.value + 1).value;
    assert block == (block.0, block.1);
  }

  /** A mine transaction is sent exactly when the source is ready, the target is behind it, no
      block is mined under the source's last nonce, and every call succeeds. */
  lemma MineSendsIff(v: MineView, call: MineCall)
    ensures Mine(v) == Ok(Some(call)) <==>
            && v.ready == Ok(true) && v.lastLocal.Ok? && v.lastMined.Ok?
            && v.lastMined.value < v.lastLocal.value && v.hasHash(v.lastLocal.value) == Ok(false)
            && v.localBlock(v.lastMined.value + 1).Ok?
            && v.localBlock(v.lastMined.value + 1).value.0 == call.nonce
            && v.localBlock(v.lastMined.value + 1).value.1 == call.txs
            && v.assignedMiner.Ok? && v.send == Ok(call.id)
  {
  }

  /** Nothing is to be mined exactly when the source is not ready or the target is level. */
  lemma MineIdleIff(v: MineView)
    ensures Mine(v) == Ok(None) <==>
            || v.ready == Ok(false)
            || (v.ready == Ok(true) && v.lastLocal.Ok? && v.lastMined.Ok? && v.lastLocal.value <= v.lastMined.value)
  {
  }

  // ---------- finalize ----------

  /** The contract reads of `finalize`, all of them on the local contract, and the outcomes of
      posting and of signing. */
  datatype FinalizeView = FinalizeView(
    lastMined: Flow<u64>,
    lastFinalized: Flow<u64>,
    minedTxs: u64 -> Flow<seq<QpTransaction>>,   // minedBlockByNonce
    localTxs: u64 -> Flow<seq<QpTransaction>>,   // localBlockByNonce
    reread: Flow<()>,                            // minedBlockByNonce, read again before posting
    post: Flow<()>,
    sign: Flow<()>)

  datatype FinalizeCall =
    | Post(nonce: u64, invalid: bool, multisig: seq<byte>)
    | SubmitSignature(nonce: u64)

  /** `finalize` of the blocks of `chain`. */
  function Finalize(v: FinalizeView, s: Pallet.Storage, chain: u64): Flow<Option<FinalizeCall>> {
    var lastMined :- v.lastMined;
    var lastFinalized :- v.lastFinalized;
    if lastMined <= lastFinalized then Ok(None)
    else
      var mined :- v.minedTxs(lastMined);
      var source :- v.localTxs(lastMined);
      if Pallet.GateOpen(s, chain, lastMined) then
        var _ :- v.reread;
        match Pallet.Compress(s.Signatures(chain, lastMined))
        case TooShort => Panic
        case Compressed(multisig) =>
          var _ :- v.post;
          Ok(Some(Post(lastMined, !SameBlock(source, mined), multisig)))
      else
        var _ :- v.sign;
        Ok(Some(SubmitSignature(lastMined)))
  }

  /** Both blocks of the last mined nonce could be read, and it is not finalized. */
  predicate Finalizes(v: FinalizeView, n: u64) {
    && v.lastMined == Ok(n) && v.lastFinalized.Ok? && v.lastFinalized.value < n
    && v.minedTxs(n).Ok? && v.localTxs(n).Ok?
  }

  /** A signature is submitted exactly for the last mined nonce, not finalized, while its gate
      is closed. */
  lemma SignsIff(v: FinalizeView, s: Pallet.Storage, chain: u64, n: u64)
    ensures Finalize(v, s, chain) == Ok(Some(SubmitSignature(n))) <==>
            Finalizes(v, n) && !Pallet.GateOpen(s, chain, n) && v.sign.Ok?
  {
  }

  /** A finalization is posted exactly for the last mined nonce, not finalized, while its gate
      is open; it is invalid when the two blocks do not compare. */
  lemma PostsIff(v: FinalizeView, s: Pallet.Storage, chain: u64, n: u64, invalid: bool, multisig: seq<byte>)
    ensures Finalize(v, s, chain) == Ok(Some(Post(n, invalid, multisig))) <==>
            && Finalizes(v, n) && Pallet.GateOpen(s, chain, n) && v.reread.Ok? && v.post.Ok?
            && Pallet.Compress(s.Signatures(chain, n)) == Pallet.Compressed(multisig)
            && (invalid <==> !SameBlock(v.localTxs(n).value, v.minedTxs(n).value))
  {
  }

  /** Nothing is to be finalized exactly when the last mined nonce is finalized. */
  lemma FinalizeIdleIff(v: FinalizeView, s: Pallet.Storage, chain: u64)
    ensures Finalize(v, s, chain) == Ok(None) <==>
            v.lastMined.Ok? && v.lastFinalized.Ok? && v.lastMined.value <= v.lastFinalized.value
  {
  }

  /** After the gate of the last mined block has opened, every later run of `finalize` over
      that block that sends something posts, with the same multisig, as long as the threshold
      stays. */
  lemma FinalizeKeepsPosting(v: FinalizeView, s: Pallet.Storage, calls: seq<Pallet.Call>, chain: u64)
    requires v.lastMined.Ok? && Pallet.GateOpen(s, chain, v.lastMined.value)
    requires Pallet.Compress(s.Signatures(chain, v.lastMined.value)).Compressed?
    requires Pallet.KeepsThreshold(calls, chain)
    ensures var r := Finalize(v, Pallet.Run(s, calls), chain);
            && r == Finalize(v, s, chain)
            && (r.Ok? && r.value.Some? ==>
                  && r.value.value.Post?
                  && r.value.value.multisig == Pallet.Compress(s.Signatures(chain, v.lastMined.value)).bytes)
  {
    Pallet.GateStaysOpen(s, calls, chain, v.lastMined.value);
  }
}

/** When the relay acts and when it stays idle, over every run: from what was mined, finalized
    and called before. */
module RelayDecisions {
  import opened Words
  import opened Wrappers
  import opened MineMessage
  import opened Client
  import opened Service
  import opened ServiceRuns
  import opened Relay
  import opened RelayProgress
  import Pallet

  /** The pallet calls of a run, in order. */
  function PalletCalls(steps: seq<Step>): seq<Pallet.Call> {
    if steps == [] then []
    else
      var n := |steps| - 1;
      PalletCalls(steps[..n]) + if steps[n].PalletCall? then [steps[n].call] else []
  }

  /** The pallet is what its calls made of it; nothing else in a run touches it. */
  lemma {:induction false} PalletTold(steps: seq<Step>)
    ensures Run(steps).pallet == Pallet.Run(Pallet.EMPTY, PalletCalls(steps))
  {
    hide DoWork, DoLand, Pallet.Apply;
    if steps == [] {
    } else {
      var n := |steps| - 1;
      PalletTold(steps[..n]);
      var before := PalletCalls(steps[..n]);
      PalletKept(Run(steps[..n]), steps[n]);
      assert before + [] == before;
      if steps[n].PalletCall? {
        assert (before + [steps[n].call])[..|before|] == before;
      }
    }
  }

  lemma PalletKept(w: World, s: Step)
    ensures !s.PalletCall? ==> Next(w, s).pallet == w.pallet
  {
    hide TryOf, NewFlight, Retire;
  }

  /** The submissions for the last mined nonce outnumber the threshold, told from the calls. */
  predicate Enough(steps: seq<Step>, chain: u64, n: u64) {
    var calls := PalletCalls(steps);
    |Pallet.Submitted(calls, chain, n)| > Pallet.LastThreshold(calls, chain)
  }

  lemma EnoughOpens(steps: seq<Step>, chain: u64, n: u64)
    ensures Pallet.GateOpen(Run(steps).pallet, chain, n) <==> Enough(steps, chain, n)
  {
    hide Pallet.GateOpen, Run, PalletCalls, Pallet.Submitted, Pallet.LastThreshold;
    PalletTold(steps);
    Pallet.GateCounts(PalletCalls(steps), chain, n);
  }

  /** The reads of `finalize` succeed. */
  predicate FinalizeReads(s: Step) {
    && s.Work? && s.io.lastMined.Ok? && s.io.lastFinalized.Ok? && s.io.minedBlock.Ok? && s.io.localBlock.Ok?
  }

  function MinedTxs(w: World, p: Pair, n: u64): Block {
    if MinedAt(w.Mined(p), n).Some? then MinedAt(w.Mined(p), n).value else []
  }

  /** After any run, a finalizer's attempt signs nonce `n` exactly when `n` is the last mined
      nonce and not finalized, and the submissions made for it do not outnumber the threshold
      last set. */
  lemma SignsWhileTooFew(steps: seq<Step>, s: Step, n: u64)
    requires s.Work?
    ensures var w, p := Run(steps), s.pair;
            FinalizeIn(w, s) == Ok(Some(FinalizeCall.SubmitSignature(n))) <==>
            && FinalizeReads(s) && s.io.sign.Ok?
            && n == w.LastMined(p) && w.LastFinalized(p) < n && !Enough(steps, p.0, n)
  {
    hide Run, Enough, Finalize, MinedAt, Pallet.GateOpen;
    var w := Run(steps);
    EnoughOpens(steps, s.pair.0, n);
    SignsIff(FinalizeViewOf(w, s.io, s.pair), w.pallet, s.pair.0, n);
  }

  /** And it posts a finalization of nonce `n` exactly when they do, with the multisig of those
      submissions, as invalid when the target's own block of that nonce for the source does not
      compare with the mined one. */
  lemma PostsOnceEnough(steps: seq<Step>, s: Step, n: u64, invalid: bool, multisig: seq<byte>)
    requires s.Work?
    ensures var w, p := Run(steps), s.pair;
            FinalizeIn(w, s) == Ok(Some(FinalizeCall.Post(n, invalid, multisig))) <==>
            && FinalizeReads(s) && s.io.reread.Ok? && s.io.post.Ok?
            && n == w.LastMined(p) && w.LastFinalized(p) < n && Enough(steps, p.0, n)
            && Pallet.Compress(Pallet.Submitted(PalletCalls(steps), p.0, n)) == Pallet.Compressed(multisig)
            && (invalid <==> !SameBlock(w.BlockAt((p.1, p.0), n), MinedTxs(w, p, n)))
  {
    hide Run, Enough, Finalize, MinedAt, Pallet.GateOpen, Pallet.Compress, SameBlock, PalletCalls;
    var w := Run(steps);
    EnoughOpens(steps, s.pair.0, n);
    PalletTold(steps);
    Pallet.SignaturesTold(PalletCalls(steps), s.pair.0, n);
    PostsIff(FinalizeViewOf(w, s.io, s.pair), w.pallet, s.pair.0, n, invalid, multisig);
  }

  // ---------- idle attempts ----------

  /** An attempt leaves nothing behind: no record, no transaction sent. */
  ghost predicate Idle(w: World, s: Step)
    requires s.Work?
  {
    var v := TryOf(w, s).From(w.store);
    v.recorded.None? && DoWork(w, s).flights == Retire(w.flights, v.released)
  }

  lemma NothingReturned(w: World, s: Step)
    requires s.Work? && OwnSlots(w.store)
    requires s.role == Miner ==> !(MineIn(w, s).Ok? && MineIn(w, s).value.Some?)
    requires s.role == Finalizer ==> !(FinalizeIn(w, s).Ok? && FinalizeIn(w, s).value.Some?)
    ensures Idle(w, s)
  {
    hide MineIn, FinalizeIn, ReceiptIn, OwnSlots;
    var t := TryOf(w, s);
    if t.From(w.store).recorded.Some? {
      RecordedAsSent(t, w.store);
      assert false;
    }
  }

  /** A finalizer does nothing on a pair whose last mined block is finalized. */
  lemma FinalizerIdle(w: World, s: Step)
    requires s.Work? && s.role == Finalizer && OwnSlots(w.store) && w.LastMined(s.pair) <= w.LastFinalized(s.pair)
    ensures Idle(w, s)
  {
    hide Idle, OwnSlots, MineIn;
    NothingReturned(w, s);
  }

  /** A miner does nothing while the source is not ready, or the target is level with it. */
  lemma MinerIdle(w: World, s: Step)
    requires s.Work? && s.role == Miner && OwnSlots(w.store)
    requires s.io.ready != Ok(true) || |w.Blocks(s.pair)| <= w.LastMined(s.pair)
    ensures Idle(w, s)
  {
    hide Idle, OwnSlots, FinalizeIn;
    NothingReturned(w, s);
  }

  /** A worker without a role does nothing. */
  lemma NoRoleIdle(w: World, s: Step)
    requires s.Work? && s.role == NoRole && OwnSlots(w.store)
    ensures Idle(w, s)
  {
    hide Idle, OwnSlots, FinalizeIn, MineIn;
    NothingReturned(w, s);
  }

  /** Over worlds in order: with every other call succeeding, a miner sends exactly when the
      source is ready and has a block the target has not. */
  lemma MinerSendsIff(w: World, s: Step)
    requires s.Work? && PairOk(w, s.pair) && s.io.ready.Ok? && Healthy(s.(io := s.io.(ready := Ok(true))), s.pair)
    ensures (MineIn(w, s).Ok? && MineIn(w, s).value.Some?) <==>
            s.io.ready == Ok(true) && |w.Mined(s.pair)| < |w.Blocks(s.pair)|
  {
    LastMinedIsCount(w, s.pair);
    if w.LastMined(s.pair) < |w.Blocks(s.pair)| {
      NeverAlreadyMined(w, s.pair);
    }
  }
}

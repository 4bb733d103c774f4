/** What single rounds of the relay achieve, and runs that show where it falls short. */
module RelayProgress {
  import opened Words
  import opened Wrappers
  import opened MineMessage
  import opened Client
  import opened Service
  import opened ServiceRuns
  import opened Relay
  import Pallet

  // ---------- an attempt that gets through ----------

  /** The local chain's slot is empty, or what is in it is no longer pending. */
  ghost predicate FreeSlot(t: Try, store: Store) {
    Slot(store, t.local).None? || IsPending(t.env, Slot(store, t.local).value) == Ok(false)
  }

  /** Nothing keeps an attempt from doing its role's work. */
  ghost predicate Unhindered(t: Try, store: Store) {
    && OwnSlots(store) && !Locked(store) && FreeSlot(t, store) && !Configured(t.env.clients, LOCK_CHAIN)
    && Configured(t.env.clients, t.local) && Configured(t.env.clients, t.remote)
  }

  function ClockOf(clients: seq<ChainClient>, chain: u64): u64 {
    if FindClient(clients, chain).Ok? then FindClient(clients, chain).value.now else 0
  }

  lemma RecordsWork(t: Try, store: Store, tx: PendingTransaction)
    requires Unhindered(t, store)
    requires Service.Work(t.env, t.remote, t.local, ClockOf(t.env.clients, t.local), t.role) == Ok(Some(tx))
    ensures var v := t.From(store);
            && v.recorded == Some(tx) && v.released == Slot(store, t.local)
            && Slot(v.store, t.local) == Some(tx) && !Locked(v.store)
  {
    AttemptSlotwise(t, store);
    hide Slot, Put, Clear, FindClient, Configured, IsPending, Service.Work, OwnSlots;
    FindClientFinds(t.env.clients, t.local);
    FindClientFinds(t.env.clients, t.remote);
    assert t.local != LOCK_CHAIN;
    SlotFrame(store, LOCK_CHAIN, LOCK, t.local);
  }

  // ---------- mining ----------

  lemma {:induction false} MinedAtFinds(ms: seq<MinedBlock>, blocks: seq<Block>, n: u64)
    requires Faithful(blocks, ms)
    ensures MinedAt(ms, n) == if 1 <= n <= |ms| then Some(blocks[n - 1]) else None
  {
    if ms == [] {
    } else {
      MinedAtFinds(ms[..|ms| - 1], blocks, n);
    }
  }

  /** While the ledgers are in order the check for an already mined block never stops a miner. */
  lemma NeverAlreadyMined(w: World, p: Pair)
    requires PairOk(w, p) && w.LastMined(p) < |w.Blocks(p)|
    ensures MinedAt(w.Mined(p), |w.Blocks(p)|).None?
  {
    LastMinedIsCount(w, p);
    MinedAtFinds(w.Mined(p), w.Blocks(p), |w.Blocks(p)|);
  }

  /** A miner's attempt on a pair in which no call fails. */
  ghost predicate Healthy(s: Step, p: Pair) {
    && s.Work? && s.pair == p && s.role == Miner
    && s.io.receipt.Ok? && s.io.ready == Ok(true) && s.io.lastLocal.Ok? && s.io.lastMined.Ok? && s.io.minedBlock.Ok?
    && s.io.localBlock.Ok? && s.io.assignedMiner.Ok? && s.io.send.Ok?
  }

  lemma MinesNext(w: World, s: Step)
    requires s.Work? && PairOk(w, s.pair) && Healthy(s, s.pair) && w.LastMined(s.pair) < |w.Blocks(s.pair)|
    ensures var n := |w.Mined(s.pair)| + 1;
            n <= |w.Blocks(s.pair)| && MineIn(w, s) == Ok(Some(MineCall(n, w.Blocks(s.pair)[n - 1], s.io.send.value)))
  {
    LastMinedIsCount(w, s.pair);
    NeverAlreadyMined(w, s.pair);
  }

  /** The record of a miner's attempt. */
  function MineRecord(s: Step): PendingTransaction
    requires s.Work? && s.io.send.Ok?
  {
    MineTransaction(s.pair.1, s.pair.0, ClockOf(s.clients, s.pair.1), s.io.send.value)
  }

  /** An unhindered miner sends exactly the next block, records it, and nothing else changes. */
  lemma MineSends(w: World, s: Step)
    requires s.Work? && Healthy(s, s.pair) && PairOk(w, s.pair) && w.LastMined(s.pair) < |w.Blocks(s.pair)|
    requires Unhindered(TryOf(w, s), w.store)
    ensures var p, n, w' := s.pair, |w.Mined(s.pair)| + 1, DoWork(w, s);
            && n <= |w.Blocks(p)|
            && w' == w.(store := w'.store, flights := w'.flights)
            && w'.flights == Retire(w.flights, Slot(w.store, p.1)) +
                             [Flight(p.1, MineRecord(s), MineOrder(p.0, n, w.Blocks(p)[n - 1]), true)]
            && Slot(w'.store, p.1) == Some(MineRecord(s)) && !Locked(w'.store)
  {
    hide Attempt, Slot, Locked, PairOk, MineIn, FinalizeIn, ReceiptIn;
    MinesNext(w, s);
    RecordsWork(TryOf(w, s), w.store, MineRecord(s));
  }

  /** One round of a relay: an attempt, and what it sent lands. */
  function Round(w: World, s: Step): World {
    Next(Next(w, s), Land(|w.flights|))
  }

  lemma LandLast(w: World, fs: seq<Flight>, f: Flight)
    requires w.flights == fs + [f]
    ensures var p, w' := f.Pair(), DoLand(w, |fs|);
            w' == match f.order
                  case MineOrder(_, nonce, txs) =>
                    w.(flights := fs, mined := w.mined[p := w.Mined(p) + [MinedBlock(nonce, txs)]])
                  case FinalizeOrder(_, nonce, invalid) =>
                    w.(flights := fs, finalized := w.finalized[p := w.Finalized(p) + [FinalizedBlock(nonce, invalid)]])
  {
    assert w.flights[..|fs|] + w.flights[|fs| + 1..] == fs;
  }

  /** Progress: an unhindered round with a source block not mined yet mines exactly the next
      block and changes nothing else on any ledger. */
  lemma MineDelivers(w: World, s: Step)
    requires s.Work? && Healthy(s, s.pair) && PairOk(w, s.pair) && w.LastMined(s.pair) < |w.Blocks(s.pair)|
    requires Unhindered(TryOf(w, s), w.store)
    ensures var p, n, w' := s.pair, |w.Mined(s.pair)| + 1, Round(w, s);
            && n <= |w.Blocks(p)|
            && w' == w.(store := w'.store, flights := Retire(w.flights, Slot(w.store, p.1)),
                        mined := w.mined[p := w.Mined(p) + [MinedBlock(n, w.Blocks(p)[n - 1])]])
            && Slot(w'.store, p.1) == Some(MineRecord(s)) && !Locked(w'.store)
  {
    hide DoWork, DoLand, Slot, Locked, PairOk, Unhindered, TryOf;
    MineSends(w, s);
    var p, n := s.pair, |w.Mined(s.pair)| + 1;
    LandLast(DoWork(w, s), Retire(w.flights, Slot(w.store, p.1)),
             Flight(p.1, MineRecord(s), MineOrder(p.0, n, w.Blocks(p)[n - 1]), true));
  }

  function Rounds(w: World, rounds: seq<Step>): World
    decreases |rounds|
  {
    if rounds == [] then w else Rounds(Round(w, rounds[0]), rounds[1..])
  }

  /** Failure-free rounds on a pair, each of which sees the transaction of the one before it
      confirmed. */
  ghost predicate FailureFree(rounds: seq<Step>, p: Pair) {
    && (forall s :: s in rounds ==>
          && Healthy(s, p) && !Configured(s.clients, LOCK_CHAIN)
          && Configured(s.clients, p.0) && Configured(s.clients, p.1))
    && (forall i :: 0 < i < |rounds| ==>
          SeesConfirmed(rounds[i], rounds[i - 1]))
  }

  ghost predicate SeesConfirmed(s: Step, earlier: Step) {
    && s.Work? && earlier.Work? && earlier.io.send.Ok?
    && earlier.io.send.value in s.receipts && s.receipts[earlier.io.send.value] == Confirmed
  }

  lemma MineRoundSound(w: World, s: Step)
    requires Sound(w) && s.Work? && Healthy(s, s.pair) && w.LastMined(s.pair) < |w.Blocks(s.pair)|
    requires Unhindered(TryOf(w, s), w.store)
    ensures Sound(Round(w, s))
  {
    hide OwnSlots, PairOk, Known, Slot, Locked, TryOf, Unhindered, DoLand;
    assert PairOk(w, s.pair);
    UnhinderedIsPlain(w, s);
    WorkKeepsSound(w, s);
    MineSends(w, s);
    LastMinedIsCount(w, s.pair);
    LandKeepsSound(DoWork(w, s), |w.flights|);
  }

  lemma UnhinderedIsPlain(w: World, s: Step)
    requires s.Work? && Unhindered(TryOf(w, s), w.store)
    ensures !Configured(s.clients, LOCK_CHAIN)
  {
  }

  lemma ConfirmedFrees(w: World, s: Step, tx: PendingTransaction)
    requires s.Work? && OwnSlots(w.store) && !Locked(w.store) && Slot(w.store, s.pair.1) == Some(tx)
    requires s.io.receipt.Ok? && !tx.NoTransaction? && tx.id in s.receipts && s.receipts[tx.id] == Confirmed
    requires !Configured(s.clients, LOCK_CHAIN) && Configured(s.clients, s.pair.0) && Configured(s.clients, s.pair.1)
    ensures Unhindered(TryOf(w, s), w.store)
  {
    hide OwnSlots, Slot, Configured, FindClient, MineIn, FinalizeIn;
    assert ReceiptIn(w, s) == Ok(Confirmed);
    SlotOwned(w.store, s.pair.1);
    FindClientFinds(s.clients, s.pair.1);
  }

  /** Catching up: as many failure-free rounds as the source is ahead, or fewer, mine one block
      each, in order; that many bring the target level with the source. */
  lemma {:induction false} CatchUp(w: World, rounds: seq<Step>, p: Pair)
    requires Sound(w) && FailureFree(rounds, p) && |w.Mined(p)| + |rounds| <= |w.Blocks(p)|
    requires rounds != [] ==> rounds[0].Work? && Unhindered(TryOf(w, rounds[0]), w.store)
    ensures var w' := Rounds(w, rounds);
            && w'.Blocks(p) == w.Blocks(p) && |w'.Mined(p)| == |w.Mined(p)| + |rounds|
            && Faithful(w'.Blocks(p), w'.Mined(p))
    decreases |rounds|
  {
    hide OwnSlots, Known, Slot, Locked, TryOf, Unhindered, Round, Configured;
    assert PairOk(w, p);
    if rounds == [] {
    } else {
      var s, w1 := rounds[0], Round(w, rounds[0]);
      assert Healthy(s, p);
      LastMinedIsCount(w, p);
      MineDelivers(w, s);
      MineRoundSound(w, s);
      if |rounds| > 1 {
        assert Healthy(rounds[1], p) && rounds[1] in rounds;
        SoundOwns(w1);
        ConfirmedFrees(w1, rounds[1], MineRecord(s));
      }
      assert FailureFree(rounds[1..], p) by {
        TailFailureFree(rounds, p);
      }
      CatchUp(w1, rounds[1..], p);
    }
  }

  lemma SoundOwns(w: World)
    requires Sound(w)
    ensures OwnSlots(w.store)
  {
  }

  lemma TailFailureFree(rounds: seq<Step>, p: Pair)
    requires rounds != [] && FailureFree(rounds, p)
    ensures FailureFree(rounds[1..], p)
  {
    hide Healthy, Configured, SeesConfirmed;
    var tail := rounds[1..];
    forall i | 0 < i < |tail|
      ensures SeesConfirmed(tail[i], tail[i - 1])
    {
      assert tail[i] == rounds[i + 1] && tail[i - 1] == rounds[i];
    }
  }

  // ---------- finalizing ----------

  /** A finalizer's attempt on a pair in which no call fails. */
  ghost predicate HealthyFinalizer(s: Step) {
    && s.Work? && s.role == Finalizer && s.io.receipt.Ok? && s.io.lastMined.Ok? && s.io.lastFinalized.Ok?
    && s.io.minedBlock.Ok? && s.io.localBlock.Ok? && s.io.reread.Ok? && s.io.post.Ok?
  }

  /** The last mined block is not finalized and its signatures suffice for posting. */
  ghost predicate Finalizable(w: World, p: Pair) {
    && w.LastFinalized(p) < w.LastMined(p)
    && Pallet.GateOpen(w.pallet, p.0, w.LastMined(p))
    && Pallet.Compress(w.pallet.Signatures(p.0, w.LastMined(p))).Compressed?
  }

  /** The flag sent for a block: it is compared with the block of the same nonce that the
      target made for the source. */
  function Flagged(w: World, p: Pair, n: u64): bool {
    !SameBlock(w.BlockAt((p.1, p.0), n), w.BlockAt(p, n))
  }

  /** The faithfully mined block of nonce `n` is posted as invalid if and only if it does not
      compare with the block of that nonce that the target made for the source: the block it
      was mined from is not looked at. */
  lemma FinalizedInvalidIff(w: World, s: Step)
    requires s.Work? && PairOk(w, s.pair)
    requires FinalizeIn(w, s).Ok? && FinalizeIn(w, s).value.Some? && FinalizeIn(w, s).value.value.Post?
    ensures var p, call := s.pair, FinalizeIn(w, s).value.value;
            && call.nonce == w.LastMined(p) && 1 <= call.nonce <= |w.Blocks(p)|
            && w.Mined(p)[call.nonce - 1].txs == w.Blocks(p)[call.nonce - 1]
            && (call.invalid <==> !SameBlock(w.BlockAt((p.1, p.0), call.nonce), w.Blocks(p)[call.nonce - 1]))
  {
    var p := s.pair;
    LastMinedIsCount(w, p);
    MinedAtFinds(w.Mined(p), w.Blocks(p), w.LastMined(p));
  }

  lemma PostsLast(w: World, s: Step)
    requires HealthyFinalizer(s) && PairOk(w, s.pair) && Finalizable(w, s.pair)
    ensures FinalizeIn(w, s).Ok? && FinalizeIn(w, s).value.Some? && FinalizeIn(w, s).value.value.Post?
  {
  }

  /** The record of a finalizer's attempt: the id is zero whatever was sent. */
  function FinalizeRecord(s: Step): PendingTransaction
    requires s.Work?
  {
    FinalizeTransaction(s.pair.1, ClockOf(s.clients, s.pair.1), Zeros(32))
  }

  lemma FinalizeSends(w: World, s: Step)
    requires HealthyFinalizer(s) && PairOk(w, s.pair) && Finalizable(w, s.pair)
    requires Unhindered(TryOf(w, s), w.store)
    ensures var p, n, w' := s.pair, w.LastMined(s.pair), DoWork(w, s);
            && w' == w.(store := w'.store, flights := w'.flights)
            && w'.flights == Retire(w.flights, Slot(w.store, p.1)) +
                             [Flight(p.1, FinalizeRecord(s), FinalizeOrder(p.0, n, Flagged(w, p, n)), true)]
            && Slot(w'.store, p.1) == Some(FinalizeRecord(s)) && !Locked(w'.store)
  {
    hide Attempt, Slot, Locked, PairOk, MineIn, FinalizeIn, ReceiptIn;
    PostsLast(w, s);
    FinalizedInvalidIff(w, s);
    RecordsWork(TryOf(w, s), w.store, FinalizeRecord(s));
  }

  /** The finalizing counterpart: an unhindered round on a finalizable pair finalizes exactly
      the last mined block. */
  lemma FinalizeDelivers(w: World, s: Step)
    requires HealthyFinalizer(s) && PairOk(w, s.pair) && Finalizable(w, s.pair)
    requires Unhindered(TryOf(w, s), w.store)
    ensures var p, n, w' := s.pair, w.LastMined(s.pair), Round(w, s);
            w' == w.(store := w'.store, flights := w'.flights,
                     finalized := w.finalized[p := w.Finalized(p) + [FinalizedBlock(n, Flagged(w, p, n))]])
  {
    hide DoWork, DoLand, Slot, PairOk, Unhindered, TryOf, Finalizable, Flagged;
    FinalizeSends(w, s);
    var p, n := s.pair, w.LastMined(s.pair);
    var fs := Retire(w.flights, Slot(w.store, p.1));
    LandLast(DoWork(w, s), fs, Flight(p.1, FinalizeRecord(s), FinalizeOrder(p.0, n, Flagged(w, p, n)), true));
  }

  // ---------- runs ----------

  lemma RunNext(steps: seq<Step>, s: Step)
    ensures Run(steps + [s]) == Next(Run(steps), s)
  {
    assert (steps + [s])[..|steps|] == steps;
  }

  const ONE_TO_TWO: Pair := (1, 2)

  /** Clients of chains 1 and 2 made at one time. */
  function ClientsAt(now: u64): seq<ChainClient> {
    [ChainClient(1, now), ChainClient(2, now)]
  }

  lemma ClientsFound(now: u64)
    ensures var cs := ClientsAt(now);
            Configured(cs, 1) && Configured(cs, 2) && !Configured(cs, LOCK_CHAIN) && ClockOf(cs, 2) == now
  {
    var cs := ClientsAt(now);
    assert cs[0] in cs && cs[1] in cs;
    assert cs[1..] == [ChainClient(2, now)];
    assert FindClient(cs, 2) == FindClient(cs[1..], 2) == Ok(ChainClient(2, now));
  }

  /** Every call succeeds, and sending returns `id`. */
  function Smooth(id: Word): Io {
    Io(Ok(()), Ok(true), Ok(()), Ok(()), Ok(()), Ok(()), Ok(()), Ok(()), Ok(id), Ok(()), Ok(()), Ok(()))
  }

  function MinerAt(now: u64, id: Word): Step {
    Step.Work(ClientsAt(now), map[], Smooth(id), ONE_TO_TWO, Miner)
  }

  /** A run that makes one block on chain 1 for chain 2, of one transaction, and registers and
      submits one signature for it. */
  function Prepared(tx: QpTransaction, sig: Pallet.Signature): seq<Step> {
    [NewBlock(ONE_TO_TWO, [tx]),
     PalletCall(Pallet.RegisterFinalizer(Pallet.Signed(7), 1, 7)),
     PalletCall(Pallet.SubmitSignature(Pallet.Signed(7), 1, 1, sig))]
  }

  lemma PreparedWorld(tx: QpTransaction, sig: Pallet.Signature)
    ensures Run([NewBlock(ONE_TO_TWO, [tx])]) == GENESIS.(blocks := map[ONE_TO_TWO := [[tx]]])
    ensures Run(Prepared(tx, sig)) == GENESIS.(
              blocks := map[ONE_TO_TWO := [[tx]]],
              pallet := Pallet.Storage(map[1 := [7]], map[(1, 1) := [(7, sig)]], map[]))
  {
    var a := NewBlock(ONE_TO_TWO, [tx]);
    var b := PalletCall(Pallet.RegisterFinalizer(Pallet.Signed(7), 1, 7));
    var c := PalletCall(Pallet.SubmitSignature(Pallet.Signed(7), 1, 1, sig));
    assert [a] == [] + [a] && [a, b] == [a] + [b] && [a, b, c] == [a, b] + [c];
    RunNext([], a);
    assert GENESIS.Blocks(ONE_TO_TWO) + [[tx]] == [[tx]] && GENESIS.blocks[ONE_TO_TWO := [[tx]]] == map[ONE_TO_TWO := [[tx]]];
    RunNext([a], b);
    var s1 := Pallet.Apply(Pallet.EMPTY, b.call);
    assert [] + [7] == [7] && s1.finalizers == map[1 := [7]];
    RunNext([a, b], c);
    assert [] + [(7, sig)] == [(7, sig)] && Pallet.Apply(s1, c.call).signatures == map[(1, 1) := [(7, sig)]];
  }

  lemma BlockWorldSound(w: World, tx: QpTransaction)
    requires w == GENESIS.(blocks := map[ONE_TO_TWO := [[tx]]], pallet := w.pallet)
    ensures Sound(w) && w.Blocks(ONE_TO_TWO) == [[tx]] && w.LastMined(ONE_TO_TWO) == 0 && w.Mined(ONE_TO_TWO) == []
  {
  }

  lemma FirstMinerUnhindered(w: World, s: Step)
    requires s.Work? && s.pair == ONE_TO_TWO && w.store == map[] && s.clients == ClientsAt(0)
    ensures Unhindered(TryOf(w, s), w.store)
  {
    hide MineIn, FinalizeIn, Configured;
    ClientsFound(0);
  }

  function FinalizerAfter(id: Word): Step {
    Step.Work(ClientsAt(0), map[id := Confirmed], Smooth(id), ONE_TO_TWO, Finalizer)
  }

  /** The block is mined and its transaction lands; a finalizer that sees it confirmed is
      unhindered. */
  lemma MinedOnce(a: seq<Step>, tx: QpTransaction, id: Word)
    requires Run(a) == GENESIS.(blocks := map[ONE_TO_TWO := [[tx]]], pallet := Run(a).pallet)
    ensures var w := Run(a + [MinerAt(0, id)] + [Land(0)]);
            && w == Run(a).(store := w.store, mined := map[ONE_TO_TWO := [MinedBlock(1, [tx])]])
            && PairOk(w, ONE_TO_TWO) && Unhindered(TryOf(w, FinalizerAfter(id)), w.store)
  {
    hide Round, Unhindered, Sound, TryOf, Run, Locked, Slot, PairOk;
    var w, mine := Run(a), MinerAt(0, id);
    BlockWorldSound(w, tx);
    FirstMinerUnhindered(w, mine);
    SoundPair(w, ONE_TO_TWO);
    MineDelivers(w, mine);
    RunRound(a, mine, 0);
    var w1 := Round(w, mine);
    assert w.Mined(ONE_TO_TWO) + [MinedBlock(1, [tx])] == [MinedBlock(1, [tx])];
    assert w1.mined == map[ONE_TO_TWO := [MinedBlock(1, [tx])]];
    MineRoundSound(w, mine);
    SoundPair(w1, ONE_TO_TWO);
    ClientsFound(0);
    ConfirmedFrees(w1, FinalizerAfter(id), MineRecord(mine));
  }

  /** A run in which a block is mined exactly as the source made it, and yet finalized as
      invalid: the target has made no block for the source. */
  function InvalidRun(tx: QpTransaction, sig: Pallet.Signature, id: Word): seq<Step> {
    Prepared(tx, sig) + [MinerAt(0, id)] + [Land(0)] + [FinalizerAfter(id)] + [Land(0)]
  }

  lemma FaithfulBlockFinalizedInvalid(tx: QpTransaction, sig: Pallet.Signature, id: Word)
    requires |sig| >= 64
    ensures var w := Run(InvalidRun(tx, sig, id));
            && w.Blocks(ONE_TO_TWO) == [[tx]] && w.Mined(ONE_TO_TWO) == [MinedBlock(1, [tx])]
            && w.Finalized(ONE_TO_TWO) == [FinalizedBlock(1, true)]
  {
    hide Round, Unhindered, TryOf, Run, PairOk;
    var a := Prepared(tx, sig);
    PreparedWorld(tx, sig);
    MinedOnce(a, tx, id);
    var b := a + [MinerAt(0, id)] + [Land(0)];
    var w := Run(b);
    SignedOnce(w, sig);
    FinalizeDelivers(w, FinalizerAfter(id));
    RunRound(b, FinalizerAfter(id), 0);
    assert w.BlockAt((2, 1), 1) == [] && w.BlockAt(ONE_TO_TWO, 1) == [tx];
  }

  lemma RunRound(steps: seq<Step>, s: Step, n: nat)
    requires n == |Run(steps).flights|
    ensures Run(steps + [s] + [Land(n)]) == Round(Run(steps), s)
  {
    hide Next;
    RunNext(steps, s);
    RunNext(steps + [s], Land(n));
  }

  lemma SoundPair(w: World, p: Pair)
    requires Sound(w)
    ensures PairOk(w, p) && OwnSlots(w.store)
  {
  }

  lemma SignedOnce(w: World, sig: Pallet.Signature)
    requires w.pallet == Pallet.Storage(map[1 := [7]], map[(1, 1) := [(7, sig)]], map[]) && |sig| >= 64
    requires w.Mined(ONE_TO_TWO) != [] && w.LastMined(ONE_TO_TWO) == 1 && w.Finalized(ONE_TO_TWO) == []
    ensures Finalizable(w, ONE_TO_TWO)
  {
    var sigs := [(7, sig)];
    assert sigs[1..] == [] && Pallet.Concat(sigs) == sig + Pallet.Concat(sigs[1..]) == sig;
  }

  /** A run in which a transaction lands after its record timed out: the same block is sent
      again, both transactions land, and nonce 1 is mined twice. */
  function LateRun(tx: QpTransaction, id: Word, id': Word): seq<Step> {
    [NewBlock(ONE_TO_TWO, [tx])] + [MinerAt(0, id)] + [MinerAt(TIMEOUT + 1, id')] + [Land(0)] + [Land(0)]
  }

  lemma LateLandingRepeats(tx: QpTransaction, id: Word, id': Word)
    ensures var w := Run(LateRun(tx, id, id'));
            w.Mined(ONE_TO_TWO) == [MinedBlock(1, [tx]), MinedBlock(1, [tx])] && !InOrder(w)
  {
    hide Unhindered, Sound, TryOf, Run, Locked, Slot, DoWork, PairOk;
    var a, first, second := [NewBlock(ONE_TO_TWO, [tx])], MinerAt(0, id), MinerAt(TIMEOUT + 1, id');
    PreparedWorld(tx, []);
    var w := Run(a);
    BlockWorldSound(w, tx);
    FirstMinerUnhindered(w, first);
    SoundPair(w, ONE_TO_TWO);
    MineSends(w, first);
    ClientsFound(0);
    ClientsFound(TIMEOUT + 1);
    RunNext(a, first);
    var w1 := DoWork(w, first);
    WorkKeepsSound(w, first);
    SoundPair(w1, ONE_TO_TWO);
    TimedOutFrees(w1, second, MineRecord(first));
    MineSends(w1, second);
    RunNext(a + [first], second);
    var w2 := DoWork(w1, second);
    var late, again := w2.flights[0].order, w2.flights[1].order;
    assert late == again == MineOrder(1, 1, [tx]);
    RunNext(a + [first] + [second], Land(0));
    RunNext(a + [first] + [second] + [Land(0)], Land(0));
    var w4 := Run(LateRun(tx, id, id'));
    assert w4.Mined(ONE_TO_TWO) == [MinedBlock(1, [tx]), MinedBlock(1, [tx])];
    RepeatedNonce(w4);
  }

  lemma TimedOutFrees(w: World, s: Step, tx: PendingTransaction)
    requires s.Work? && s.pair == ONE_TO_TWO && OwnSlots(w.store) && !Locked(w.store) && Slot(w.store, 2) == Some(tx)
    requires s.clients == ClientsAt(TIMEOUT + 1) && s.receipts == map[] && s.io.receipt.Ok?
    requires tx.MineTransaction? && tx.chain == 2 && tx.timestamp == 0
    ensures Unhindered(TryOf(w, s), w.store)
  {
    hide OwnSlots, Slot, Configured, FindClient, MineIn, FinalizeIn;
    ClientsFound(TIMEOUT + 1);
    FindClientFinds(s.clients, 2);
    assert ReceiptIn(w, s) == Ok(NotFound);
    VerdictNotFound(TryOf(w, s).env, tx);
  }

  lemma RepeatedNonce(w: World)
    requires |w.Mined(ONE_TO_TWO)| == 2 && w.Mined(ONE_TO_TWO)[1].nonce == 1
    ensures !InOrder(w)
  {
    assert !PairOk(w, ONE_TO_TWO);
  }

  // ---------- finalizations are recorded under the zero id ----------

  lemma {:induction false} RunOwnsStore(steps: seq<Step>)
    requires forall s :: s in steps ==> Plain(s)
    ensures OwnSlots(Run(steps).store)
  {
    hide OwnSlots, Attempt, TryOf, Configured, Sent;
    if steps == [] {
      EmptyOwns();
    } else {
      var n := |steps| - 1;
      RunOwnsStore(steps[..n]);
      assert Plain(steps[n]);
      if steps[n].Work? {
        TryOfFrame(Run(steps[..n]), steps[n]);
        AttemptSlotwise(TryOf(Run(steps[..n]), steps[n]), Run(steps[..n]).store);
      }
    }
  }

  lemma EmptyOwns()
    ensures OwnSlots(map[])
  {
  }

  lemma TryOfFrame(w: World, s: Step)
    requires s.Work?
    ensures var t := TryOf(w, s);
            && t.local == s.pair.1 && t.remote == s.pair.0 && t.role == s.role
            && t.env.clients == s.clients && t.env.receipt == ReceiptIn(w, s)
            && (t.env.finalized.Ok? && t.env.finalized.value.Some? ==> t.env.finalized.value.value == Zeros(32))
  {
    hide MineIn, FinalizeIn, ReceiptIn;
  }

  ghost predicate ZeroId(slot: Option<PendingTransaction>) {
    slot.Some? && slot.value.FinalizeTransaction? ==> slot.value.id == Zeros(32)
  }

  lemma WorkKeepsZeroId(w: World, s: Step, k: u64)
    requires s.Work? && Plain(s) && OwnSlots(w.store) && ZeroId(Slot(w.store, k))
    ensures ZeroId(Slot(TryOf(w, s).From(w.store).store, k))
  {
    hide OwnSlots, Attempt, TryOf, Configured, Slot, IsPending;
    var t := TryOf(w, s);
    var after := t.From(w.store).store;
    TryOfFrame(w, s);
    AttemptSlotwise(t, w.store);
    if t.From(w.store).recorded.Some? {
      RecordedAsSent(t, w.store);
    }
    if k == LOCK_CHAIN && Slot(after, k).Some? {
      SlotOwned(after, k);
    }
  }

  /** In every store of every run, a finalize entry has the zero id, so its receipt is asked for
      under that id and not under the id of what was posted. */
  lemma {:induction false} FinalizeIdsAreZero(steps: seq<Step>, k: u64)
    requires forall s :: s in steps ==> Plain(s)
    ensures var slot := Slot(Run(steps).store, k);
            slot.Some? && slot.value.FinalizeTransaction? ==> slot.value.id == Zeros(32)
  {
    hide OwnSlots, Attempt, TryOf, Plain, Sent, Slot;
    if steps == [] {
      SlotOfEmpty(k);
    } else {
      var n := |steps| - 1;
      var w, s := Run(steps[..n]), steps[n];
      FinalizeIdsAreZero(steps[..n], k);
      RunOwnsStore(steps[..n]);
      if s.Work? {
        WorkKeepsZeroId(w, s, k);
      }
    }
  }

  lemma SlotOfEmpty(k: u64)
    ensures Slot(map[], k) == None
  {
  }

  /** A step that has no receipt for the zero id, and whose clock for chain `k` is at most
      `limit`. */
  ghost predicate ZeroUnknown(s: Step, k: u64, limit: nat) {
    s.Work? ==> Zeros(32) !in s.receipts && (FindClient(s.clients, k).Ok? ==> FindClient(s.clients, k).value.now <= limit)
  }

  /** While the zero id has no receipt, a finalize entry holds its local chain's slot through
      every continuation of every run until the clock has passed its timestamp by more than the
      timeout, whether its transaction has landed or not. */
  lemma {:induction false} FinalizeHoldsSlot(steps: seq<Step>, more: seq<Step>, tx: PendingTransaction)
    requires forall s :: s in steps + more ==> Plain(s)
    requires tx.FinalizeTransaction? && tx.chain != LOCK_CHAIN && tx.timestamp + TIMEOUT < TWO_64
    requires Slot(Run(steps).store, tx.chain) == Some(tx)
    requires forall s :: s in more ==> ZeroUnknown(s, tx.chain, tx.timestamp + TIMEOUT)
    ensures Slot(Run(steps + more).store, tx.chain) == Some(tx)
    decreases |more|
  {
    hide OwnSlots, Attempt, TryOf, Configured, Sent, Slot, Run, FindClient;
    if more == [] {
      assert steps + more == steps;
    } else {
      var n := |more| - 1;
      var init, s := more[..n], more[n];
      assert steps + more == (steps + init) + [s] && s in more;
      forall x | x in init
        ensures ZeroUnknown(x, tx.chain, tx.timestamp + TIMEOUT)
      {
        assert x in more;
      }
      FinalizeHoldsSlot(steps, init, tx);
      RunNext(steps + init, s);
      RunOwnsStore(steps + init);
      FinalizeIdsAreZero(steps + init, tx.chain);
      assert Plain(s);
      HoldsOne(Run(steps + init), s, tx);
    }
  }

  lemma HoldsOne(w: World, s: Step, tx: PendingTransaction)
    requires OwnSlots(w.store) && Plain(s) && tx.FinalizeTransaction? && tx.chain != LOCK_CHAIN && tx.id == Zeros(32)
    requires tx.timestamp + TIMEOUT < TWO_64 && Slot(w.store, tx.chain) == Some(tx)
    requires ZeroUnknown(s, tx.chain, tx.timestamp + TIMEOUT)
    ensures Slot(Next(w, s).store, tx.chain) == Some(tx)
  {
    hide OwnSlots, Attempt, TryOf, Configured, Sent, Slot, FindClient;
    if s.Work? {
      TryOfFrame(w, s);
      SurvivesOne(TryOf(w, s), w.store, tx);
    }
  }

  /** And then it is released: with the lock open and the receipt query answering, an attempt on
      the chain frees the slot exactly when the clock has passed. */
  lemma FinalizeReleasedIff(w: World, s: Step, tx: PendingTransaction)
    requires tx.FinalizeTransaction? && tx.chain != LOCK_CHAIN && tx.id == Zeros(32)
    requires s.Work? && !Locked(w.store) && s.pair.1 == tx.chain && s.io.receipt.Ok? && Zeros(32) !in s.receipts
    requires tx.timestamp + TIMEOUT < TWO_64 && Slot(w.store, tx.chain) == Some(tx)
    requires FindClient(s.clients, tx.chain).Ok?
    ensures TryOf(w, s).From(w.store).released == Some(tx) <==>
            FindClient(s.clients, tx.chain).value.now > tx.timestamp + TIMEOUT
  {
    hide Attempt, Slot, FindClient, Locked, TryOf;
    TryOfFrame(w, s);
    ReleasedAfterTimeout(TryOf(w, s), w.store, tx);
  }

  /** Even an attempt that only submits a signature, and sends nothing to the target chain,
      takes the slot with such an entry. */
  lemma SignatureTakesSlot(w: World, s: Step, nonce: u64)
    requires s.Work? && s.role == Finalizer && FinalizeIn(w, s) == Ok(Some(FinalizeCall.SubmitSignature(nonce)))
    requires Unhindered(TryOf(w, s), w.store)
    ensures Slot(DoWork(w, s).store, s.pair.1) == Some(FinalizeRecord(s)) && FinalizeRecord(s).id == Zeros(32)
    ensures DoWork(w, s).flights == Retire(w.flights, Slot(w.store, s.pair.1))
  {
    hide Attempt, Slot, Locked, MineIn, FinalizeIn, ReceiptIn;
    RecordsWork(TryOf(w, s), w.store, FinalizeRecord(s));
    var fs := Retire(w.flights, Slot(w.store, s.pair.1));
    assert fs + [] == fs;
  }

  /** A run in which the finalizer only submits a signature. */
  function SignatureRun(tx: QpTransaction, id: Word): seq<Step> {
    [NewBlock(ONE_TO_TWO, [tx])] + [MinerAt(0, id)] + [Land(0)] + [FinalizerAfter(id)]
  }

  /** After it nothing is in flight, and yet the slot of chain 2 stays taken through every
      continuation until the clock has passed the timeout. */
  lemma SignatureHoldsSlot(tx: QpTransaction, id: Word, more: seq<Step>)
    requires forall s :: s in more ==> Plain(s) && ZeroUnknown(s, 2, TIMEOUT)
    ensures var steps := SignatureRun(tx, id);
            Run(steps).flights == [] && Slot(Run(steps + more).store, 2) == Some(FinalizeTransaction(2, 0, Zeros(32)))
  {
    hide Unhindered, TryOf, Run, PairOk, ZeroUnknown, Configured, FindClient, Slot, DoWork;
    var a, fin := [NewBlock(ONE_TO_TWO, [tx])], FinalizerAfter(id);
    PreparedWorld(tx, []);
    MinedOnce(a, tx, id);
    var b := a + [MinerAt(0, id)] + [Land(0)];
    SignsFirst(Run(b), fin);
    SignatureTakesSlot(Run(b), fin, 1);
    RunNext(b, fin);
    ClientsFound(0);
    FinalizeHoldsSlot(SignatureRun(tx, id), more, FinalizeRecord(fin));
  }

  lemma SignsFirst(w: World, s: Step)
    requires HealthyFinalizer(s) && s.pair == ONE_TO_TWO && s.io.sign.Ok? && w.pallet == Pallet.EMPTY
    requires PairOk(w, ONE_TO_TWO) && w.LastMined(ONE_TO_TWO) == 1 && w.Finalized(ONE_TO_TWO) == []
    ensures FinalizeIn(w, s) == Ok(Some(FinalizeCall.SubmitSignature(1)))
  {
    LastMinedIsCount(w, ONE_TO_TWO);
    MinedAtFinds(w.Mined(ONE_TO_TWO), w.Blocks(ONE_TO_TWO), 1);
  }
}

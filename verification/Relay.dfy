/** Whole runs of the relay: the service's store, the pallet, the source and target contracts
    it reads, and every transaction it has sent that has not landed. Any number of
    transactions may be in flight, and any of them may land at any time, once; the target
    contracts check nothing. The relayer is the only one that mines and finalizes. */
module Relay {
  import opened Words
  import opened Wrappers
  import opened MineMessage
  import opened Client
  import opened Service
  import opened ServiceRuns
  import Pallet

  type Block = seq<QpTransaction>
  type BlockList = s: seq<Block> | |s| < TWO_64

  datatype MinedBlock = MinedBlock(nonce: u64, txs: Block)
  datatype FinalizedBlock = FinalizedBlock(nonce: u64, invalid: bool)

  /** What a transaction sent to a target contract asks for. */
  datatype Order =
    | MineOrder(remote: u64, nonce: u64, txs: Block)
    | FinalizeOrder(remote: u64, nonce: u64, invalid: bool)

  type Pair = (u64, u64)

  /** A transaction sent and not landed yet, with the record made for it. It is live until its
      record is released. */
  datatype Flight = Flight(local: u64, record: PendingTransaction, order: Order, live: bool) {
    function Pair(): Pair {
      (order.remote, local)
    }
  }

  datatype World = World(
    store: Store,
    pallet: Pallet.Storage,
    blocks: map<Pair, BlockList>,               // (from, to): blocks made on `from`, by nonce from 1
    mined: map<Pair, seq<MinedBlock>>,          // (from, to): what landed on `to`, in order
    finalized: map<Pair, seq<FinalizedBlock>>,
    flights: seq<Flight>)
  {
    function Blocks(p: Pair): BlockList {
      if p in blocks then blocks[p] else []
    }

    function Mined(p: Pair): seq<MinedBlock> {
      if p in mined then mined[p] else []
    }

    function Finalized(p: Pair): seq<FinalizedBlock> {
      if p in finalized then finalized[p] else []
    }

    /** `lastRemoteMinedBlock`, its nonce. */
    function LastMined(p: Pair): u64 {
      if Mined(p) == [] then 0 else Mined(p)[|Mined(p)| - 1].nonce
    }

    /** `getLastFinalizedBlock`, its nonce. */
    function LastFinalized(p: Pair): u64 {
      if Finalized(p) == [] then 0 else Finalized(p)[|Finalized(p)| - 1].nonce
    }

    /** `localBlockByNonce`: a block that does not exist reads as empty. */
    function BlockAt(p: Pair, n: u64): Block {
      if 1 <= n <= |Blocks(p)| then Blocks(p)[n - 1] else []
    }
  }

  /** `minedBlockByNonce`: the last block mined under a nonce. */
  function MinedAt(ms: seq<MinedBlock>, n: u64): Option<Block> {
    if ms == [] then None
    else if ms[|ms| - 1].nonce == n then Some(ms[|ms| - 1].txs)
    else MinedAt(ms[..|ms| - 1], n)
  }

  const GENESIS: World := World(map[], Pallet.EMPTY, map[], map[], map[], [])

  // ---------- steps ----------

  /** How each read and send of an attempt goes. */
  datatype Io = Io(
    receipt: Flow<()>, ready: Flow<bool>, lastLocal: Flow<()>, lastMined: Flow<()>, lastFinalized: Flow<()>,
    minedBlock: Flow<()>, localBlock: Flow<()>, assignedMiner: Flow<()>, send: Flow<Word>,
    reread: Flow<()>, post: Flow<()>, sign: Flow<()>)

  function Read<T>(io: Flow<()>, v: T): Flow<T> {
    if io.Ok? then Ok(v) else io.PropagateFailure()
  }

  function MineViewOf(w: World, io: Io, p: Pair): MineView {
    MineView(
      io.ready, Read(io.lastLocal, |w.Blocks(p)|), Read(io.lastMined, w.LastMined(p)),
      (n: u64) => Read(io.minedBlock, MinedAt(w.Mined(p), n).Some?),
      (n: u64) => Read(io.localBlock, (n, w.BlockAt(p, n))),
      io.assignedMiner, io.send)
  }

  /** The finalizer compares with the block that the local contract made for the remote chain:
      `local_block_by_nonce` is called on the local client. */
  function FinalizeViewOf(w: World, io: Io, p: Pair): FinalizeView {
    FinalizeView(
      Read(io.lastMined, w.LastMined(p)), Read(io.lastFinalized, w.LastFinalized(p)),
      (n: u64) => Read(io.minedBlock, if MinedAt(w.Mined(p), n).Some? then MinedAt(w.Mined(p), n).value else []),
      (n: u64) => Read(io.localBlock, w.BlockAt((p.1, p.0), n)),
      io.reread, io.post, io.sign)
  }

  /** An attempt of the worker, with the receipts the local chain would give; a transaction
      landing; a new source block; a call of the pallet. */
  datatype Step =
    | Work(clients: seq<ChainClient>, receipts: map<Word, Status>, io: Io, pair: Pair, role: Role)
    | Land(index: nat)
    | NewBlock(pair: Pair, txs: Block)
    | PalletCall(call: Pallet.Call)

  /** The receipt of the transaction recorded in the local chain's slot, asked for by its id. */
  function ReceiptIn(w: World, s: Step): Flow<Status>
    requires s.Work?
  {
    match Slot(w.store, s.pair.1)
    case Some(tx) =>
      Read(s.io.receipt, if !tx.NoTransaction? && tx.id in s.receipts then s.receipts[tx.id] else NotFound)
    case None => Read(s.io.receipt, NotFound)
  }

  function MineIn(w: World, s: Step): Flow<Option<MineCall>>
    requires s.Work?
  {
    Mine(MineViewOf(w, s.io, s.pair))
  }

  function FinalizeIn(w: World, s: Step): Flow<Option<FinalizeCall>>
    requires s.Work?
  {
    Finalize(FinalizeViewOf(w, s.io, s.pair), w.pallet, s.pair.0)
  }

  /** The call of `process_pair_with_lock` in a step. A mine transaction is recorded under the
      id that sending returned, a finalization always under the zero id. */
  function TryOf(w: World, s: Step): Try
    requires s.Work?
  {
    var mined := match MineIn(w, s)
                 case Ok(Some(call)) => Ok(Some(call.id))
                 case Ok(None) => Ok(None)
                 case Err => Err
                 case Panic => Panic;
    var finalized := match FinalizeIn(w, s)
                     case Ok(Some(_)) => Ok(Some(Zeros(32)))
                     case Ok(None) => Ok(None)
                     case Err => Err
                     case Panic => Panic;
    Try(Env(s.clients, ReceiptIn(w, s), mined, finalized), s.pair.0, s.pair.1, s.role)
  }

  /** What was sent, when an attempt recorded something. Submitting a signature sends nothing
      to the target chain. */
  function Sent(w: World, s: Step): Option<Order>
    requires s.Work?
  {
    if s.role == Miner then
      match MineIn(w, s)
      case Ok(Some(call)) => Some(MineOrder(s.pair.0, call.nonce, call.txs))
      case _ => None
    else
      match FinalizeIn(w, s)
      case Ok(Some(Post(nonce, invalid, _))) => Some(FinalizeOrder(s.pair.0, nonce, invalid))
      case _ => None
  }

  /** A flight whose record was just released is no longer live. */
  function Retired(f: Flight, released: Option<PendingTransaction>): Flight {
    if released == Some(f.record) then f.(live := false) else f
  }

  function Retire(fs: seq<Flight>, released: Option<PendingTransaction>): (r: seq<Flight>)
    ensures |r| == |fs| && forall i :: 0 <= i < |fs| ==> r[i] == Retired(fs[i], released)
  {
    seq(|fs|, i requires 0 <= i < |fs| => Retired(fs[i], released))
  }

  function NewFlight(w: World, s: Step, v: Visit): seq<Flight>
    requires s.Work?
  {
    if v.recorded.Some? && Sent(w, s).Some? then [Flight(s.pair.1, v.recorded.value, Sent(w, s).value, true)] else []
  }

  function DoWork(w: World, s: Step): World
    requires s.Work?
  {
    var v := TryOf(w, s).From(w.store);
    w.(store := v.store, flights := Retire(w.flights, v.released) + NewFlight(w, s, v))
  }

  function DoLand(w: World, i: nat): World {
    if i >= |w.flights| then w
    else
      var p, rest := w.flights[i].Pair(), w.flights[..i] + w.flights[i + 1..];
      match w.flights[i].order
      case MineOrder(_, nonce, txs) =>
        w.(flights := rest, mined := w.mined[p := w.Mined(p) + [MinedBlock(nonce, txs)]])
      case FinalizeOrder(_, nonce, invalid) =>
        w.(flights := rest, finalized := w.finalized[p := w.Finalized(p) + [FinalizedBlock(nonce, invalid)]])
  }

  function Next(w: World, s: Step): World {
    match s
    case Work(_, _, _, _, _) => DoWork(w, s)
    case Land(i) => DoLand(w, i)
    case NewBlock(p, txs) =>
      if |w.Blocks(p)| + 1 < TWO_64 then w.(blocks := w.blocks[p := w.Blocks(p) + [txs]]) else w
    case PalletCall(call) => w.(pallet := Pallet.Apply(w.pallet, call))
  }

  function Run(steps: seq<Step>): World {
    if steps == [] then GENESIS else Next(Run(steps[..|steps| - 1]), steps[|steps| - 1])
  }

  // ---------- order ----------

  /** What landed on the target is the beginning of what the source made, block by block. */
  ghost predicate Faithful(blocks: seq<Block>, mined: seq<MinedBlock>) {
    && |mined| <= |blocks|
    && forall i :: 0 <= i < |mined| ==> mined[i].nonce == i + 1 && mined[i].txs == blocks[i]
  }

  /** Finalized nonces strictly increase and are of mined blocks. */
  ghost predicate Increasing(finalized: seq<FinalizedBlock>, mined: nat) {
    && (forall i, j :: 0 <= i < j < |finalized| ==> finalized[i].nonce < finalized[j].nonce)
    && (forall i :: 0 <= i < |finalized| ==> 1 <= finalized[i].nonce <= mined)
  }

  ghost predicate PairOk(w: World, p: Pair) {
    Faithful(w.Blocks(p), w.Mined(p)) && Increasing(w.Finalized(p), |w.Mined(p)|)
  }

  ghost predicate InOrder(w: World) {
    forall p: Pair :: PairOk(w, p)
  }

  /** A flight is of a block that exists: to mine, at most one past the last mined one; to
      finalize, a mined one. */
  ghost predicate Known(w: World, f: Flight) {
    var p := f.Pair();
    match f.order
    case MineOrder(_, nonce, txs) =>
      1 <= nonce <= |w.Mined(p)| + 1 && nonce <= |w.Blocks(p)| && txs == w.Blocks(p)[nonce - 1]
    case FinalizeOrder(_, nonce, _) => 1 <= nonce <= |w.Mined(p)|
  }

  /** The nonce of a flight is the next one to mine, or is past the last finalized one. A
      target contract could check this when the flight lands. */
  predicate Fresh(w: World, f: Flight) {
    match f.order
    case MineOrder(_, nonce, _) => nonce == w.LastMined(f.Pair()) + 1
    case FinalizeOrder(_, nonce, _) => nonce > w.LastFinalized(f.Pair())
  }

  /** The ledgers are in order and all flights are of known blocks. */
  ghost predicate Sound(w: World) {
    OwnSlots(w.store) && InOrder(w) && forall i :: 0 <= i < |w.flights| ==> Known(w, w.flights[i])
  }

  lemma LastMinedIsCount(w: World, p: Pair)
    requires PairOk(w, p)
    ensures w.LastMined(p) == |w.Mined(p)|
  {
  }

  /** Two worlds agree on what landed for a pair, and the source may only have gone on. */
  ghost predicate Later(w: World, w': World, p: Pair) {
    w'.Mined(p) == w.Mined(p) && w'.Finalized(p) == w.Finalized(p) && w.Blocks(p) <= w'.Blocks(p)
  }

  lemma LaterPair(w: World, w': World, p: Pair)
    requires PairOk(w, p) && Later(w, w', p)
    ensures PairOk(w', p)
  {
  }

  lemma LaterFlight(w: World, w': World, f: Flight)
    requires Later(w, w', f.Pair())
    ensures Known(w, f) ==> Known(w', f)
    ensures Fresh(w', f) == Fresh(w, f)
  {
  }

  /** A step that lands nothing keeps a world sound. */
  lemma LaterSound(w: World, w': World)
    requires Sound(w) && OwnSlots(w'.store) && forall p: Pair :: Later(w, w', p)
    requires forall i :: 0 <= i < |w'.flights| ==> Known(w, w'.flights[i])
    ensures Sound(w')
  {
    hide OwnSlots, PairOk, Known, Later;
    forall p: Pair
      ensures PairOk(w', p)
    {
      LaterPair(w, w', p);
    }
    forall i | 0 <= i < |w'.flights|
      ensures Known(w', w'.flights[i])
    {
      LaterFlight(w, w', w'.flights[i]);
    }
  }

  // ---------- landing ----------

  lemma LandElsewhere(w: World, i: nat, p: Pair)
    requires i < |w.flights| ==> p != w.flights[i].Pair()
    ensures Later(w, DoLand(w, i), p)
  {
  }

  /** Landing a fresh flight keeps its pair in order. */
  lemma LandFresh(w: World, i: nat)
    requires i < |w.flights| && PairOk(w, w.flights[i].Pair()) && Known(w, w.flights[i]) && Fresh(w, w.flights[i])
    ensures PairOk(DoLand(w, i), w.flights[i].Pair())
  {
    hide Faithful, Increasing;
    var f := w.flights[i];
    var p := f.Pair();
    LastMinedIsCount(w, p);
    match f.order
    case MineOrder(_, nonce, txs) =>
      FaithfulNext(w.Blocks(p), w.Mined(p), MinedBlock(nonce, txs));
      IncreasingMore(w.Finalized(p), |w.Mined(p)|);
    case FinalizeOrder(_, nonce, invalid) =>
      IncreasingNext(w.Finalized(p), |w.Mined(p)|, FinalizedBlock(nonce, invalid));
  }

  lemma FaithfulNext(blocks: seq<Block>, mined: seq<MinedBlock>, b: MinedBlock)
    requires Faithful(blocks, mined) && b.nonce == |mined| + 1 <= |blocks| && b.txs == blocks[b.nonce - 1]
    ensures Faithful(blocks, mined + [b])
  {
  }

  lemma IncreasingMore(finalized: seq<FinalizedBlock>, mined: nat)
    requires Increasing(finalized, mined)
    ensures Increasing(finalized, mined + 1)
  {
  }

  lemma IncreasingNext(finalized: seq<FinalizedBlock>, mined: nat, b: FinalizedBlock)
    requires Increasing(finalized, mined) && 1 <= b.nonce <= mined
    requires finalized != [] ==> finalized[|finalized| - 1].nonce < b.nonce
    ensures Increasing(finalized + [b], mined)
  {
  }

  lemma KnownAfterLanding(w: World, i: nat, f: Flight)
    requires Known(w, f)
    ensures Known(DoLand(w, i), f)
  {
  }

  lemma LandKeepsSound(w: World, i: nat)
    requires Sound(w) && (i < |w.flights| ==> Fresh(w, w.flights[i]))
    ensures Sound(DoLand(w, i))
  {
    hide OwnSlots, PairOk, Known, Fresh, Later;
    var w' := DoLand(w, i);
    if i < |w.flights| {
      forall p: Pair
        ensures PairOk(w', p)
      {
        if p == w.flights[i].Pair() {
          LandFresh(w, i);
        } else {
          LandElsewhere(w, i, p);
          LaterPair(w, w', p);
        }
      }
      forall j | 0 <= j < |w'.flights|
        ensures Known(w', w'.flights[j])
      {
        assert w'.flights[j] == w.flights[if j < i then j else j + 1];
        KnownAfterLanding(w, i, w'.flights[j]);
      }
    }
  }

  /** A ledger that shows a nonce out of place. No later step mends it. */
  ghost predicate Broken(w: World, p: Pair) {
    || (exists i :: 0 <= i < |w.Mined(p)| && w.Mined(p)[i].nonce != i + 1)
    || (exists i, j :: 0 <= i < j < |w.Finalized(p)| && w.Finalized(p)[i].nonce >= w.Finalized(p)[j].nonce)
  }

  lemma BrokenStays(w: World, w': World, p: Pair)
    requires Broken(w, p) && w.Mined(p) <= w'.Mined(p) && w.Finalized(p) <= w'.Finalized(p)
    ensures Broken(w', p)
  {
    if i :| 0 <= i < |w.Mined(p)| && w.Mined(p)[i].nonce != i + 1 {
      assert w'.Mined(p)[i].nonce != i + 1;
    } else {
      var i, j :| 0 <= i < j < |w.Finalized(p)| && w.Finalized(p)[i].nonce >= w.Finalized(p)[j].nonce;
      assert w'.Finalized(p)[i].nonce >= w'.Finalized(p)[j].nonce;
    }
  }

  lemma LandStaleBreaks(w: World, i: nat)
    requires i < |w.flights| && PairOk(w, w.flights[i].Pair()) && Known(w, w.flights[i]) && !Fresh(w, w.flights[i])
    ensures Broken(DoLand(w, i), w.flights[i].Pair())
  {
    var f, w' := w.flights[i], DoLand(w, i);
    var p := f.Pair();
    LastMinedIsCount(w, p);
    match f.order
    case MineOrder(_, nonce, _) => assert w'.Mined(p)[|w.Mined(p)|].nonce == nonce;
    case FinalizeOrder(_, nonce, _) =>
      var n := |w.Finalized(p)|;
      assert n > 0 && w'.Finalized(p)[n - 1].nonce >= w'.Finalized(p)[n].nonce;
  }

  // ---------- the other steps ----------

  /** What is sent is the next block to mine or a mined block not finalized yet. */
  lemma SentOk(w: World, s: Step, record: PendingTransaction)
    requires InOrder(w) && s.Work? && Sent(w, s).Some?
    ensures var f := Flight(s.pair.1, record, Sent(w, s).value, true); Known(w, f) && Fresh(w, f)
  {
    assert PairOk(w, s.pair);
    LastMinedIsCount(w, s.pair);
    if s.role == Miner {
      MineSendsNext(MineViewOf(w, s.io, s.pair));
    }
  }

  lemma RetiredKnown(w: World, f: Flight, released: Option<PendingTransaction>)
    requires Known(w, f)
    ensures Known(w, Retired(f, released))
  {
  }

  lemma WorkKeepsSound(w: World, s: Step)
    requires Sound(w) && s.Work? && !Configured(s.clients, LOCK_CHAIN)
    ensures Sound(DoWork(w, s))
  {
    hide Attempt, OwnSlots, Slot, Sent, PairOk, Known;
    var t, w' := TryOf(w, s), DoWork(w, s);
    AttemptSlotwise(t, w.store);
    var v := t.From(w.store);
    forall i | 0 <= i < |w'.flights|
      ensures Known(w, w'.flights[i])
    {
      if i < |w.flights| {
        RetiredKnown(w, w.flights[i], v.released);
      } else {
        SentOk(w, s, v.recorded.value);
      }
    }
    LaterSound(w, w');
  }

  lemma NewBlockKeepsSound(w: World, q: Pair, txs: Block)
    requires Sound(w)
    ensures Sound(Next(w, NewBlock(q, txs)))
  {
    hide OwnSlots, PairOk, Known;
    LaterSound(w, Next(w, NewBlock(q, txs)));
  }

  lemma PalletCallKeepsSound(w: World, call: Pallet.Call)
    requires Sound(w)
    ensures Sound(Next(w, PalletCall(call)))
  {
    hide OwnSlots, PairOk, Known, Pallet.Apply;
    LaterSound(w, Next(w, PalletCall(call)));
  }

  /** No step is configured with the lock's chain. */
  ghost predicate Plain(s: Step) {
    s.Work? ==> !Configured(s.clients, LOCK_CHAIN)
  }

  /** If the step is a landing, what lands is fresh. */
  predicate LandsFresh(w: World, s: Step) {
    s.Land? && s.index < |w.flights| ==> Fresh(w, w.flights[s.index])
  }

  lemma NextKeepsSound(w: World, s: Step)
    requires Sound(w) && Plain(s) && LandsFresh(w, s)
    ensures Sound(Next(w, s))
  {
    hide Sound, DoWork, DoLand, Fresh;
    match s
    case Work(_, _, _, _, _) => WorkKeepsSound(w, s);
    case Land(i) => LandKeepsSound(w, i);
    case NewBlock(p, txs) => NewBlockKeepsSound(w, p, txs);
    case PalletCall(call) => PalletCallKeepsSound(w, call);
  }

  lemma NextGrows(w: World, s: Step, p: Pair)
    ensures w.Blocks(p) <= Next(w, s).Blocks(p)
    ensures w.Mined(p) <= Next(w, s).Mined(p)
    ensures w.Finalized(p) <= Next(w, s).Finalized(p)
  {
    hide Attempt, Sent, TryOf;
  }

  /** Nothing that landed is ever taken back or changed. */
  lemma {:induction false} LedgersGrow(steps: seq<Step>, i: nat, p: Pair)
    requires i <= |steps|
    ensures Run(steps[..i]).Blocks(p) <= Run(steps).Blocks(p)
    ensures Run(steps[..i]).Mined(p) <= Run(steps).Mined(p)
    ensures Run(steps[..i]).Finalized(p) <= Run(steps).Finalized(p)
    decreases |steps|
  {
    hide Next;
    if i == |steps| {
      assert steps[..i] == steps;
    } else {
      var n := |steps| - 1;
      assert steps[..n][..i] == steps[..i];
      LedgersGrow(steps[..n], i, p);
      NextGrows(Run(steps[..n]), steps[n], p);
    }
  }

  // ---------- exactly when runs are in order ----------

  /** Every landing of a run was of a flight that was fresh when it landed. */
  ghost predicate AllFresh(steps: seq<Step>) {
    steps == [] ||
    var n := |steps| - 1;
    AllFresh(steps[..n]) && LandsFresh(Run(steps[..n]), steps[n])
  }

  lemma {:induction false} FreshOrBroken(steps: seq<Step>)
    requires forall s :: s in steps ==> Plain(s)
    ensures AllFresh(steps) ==> Sound(Run(steps))
    ensures !AllFresh(steps) ==> exists p: Pair :: Broken(Run(steps), p)
  {
    hide Sound, Next, LandsFresh, Broken;
    if steps == [] {
      GenesisSound();
    } else {
      var n := |steps| - 1;
      var w, s := Run(steps[..n]), steps[n];
      FreshOrBroken(steps[..n]);
      if AllFresh(steps[..n]) {
        if LandsFresh(w, s) {
          NextKeepsSound(w, s);
        } else {
          var p := StaleStepBreaks(w, s);
          assert Broken(Run(steps), p);
        }
      } else {
        var p: Pair :| Broken(w, p);
        NextGrows(w, s, p);
        BrokenStays(w, Next(w, s), p);
        assert Broken(Run(steps), p);
      }
    }
  }

  lemma GenesisSound()
    ensures Sound(GENESIS)
  {
  }

  lemma StaleStepBreaks(w: World, s: Step) returns (p: Pair)
    requires Sound(w) && !LandsFresh(w, s)
    ensures Broken(Next(w, s), p)
  {
    hide OwnSlots, PairOk, Known, Fresh, Broken, DoLand;
    p := w.flights[s.index].Pair();
    assert PairOk(w, p);
    LandStaleBreaks(w, s.index);
  }

  lemma BrokenIsNotInOrder(w: World, p: Pair)
    requires Broken(w, p)
    ensures !PairOk(w, p)
  {
  }

  /** For every run, however transactions land: all ledgers are in order if and only if every
      landing was of a flight still fresh. */
  lemma InOrderIff(steps: seq<Step>)
    requires forall s :: s in steps ==> Plain(s)
    ensures InOrder(Run(steps)) <==> AllFresh(steps)
  {
    hide Run, AllFresh, PairOk, Broken, OwnSlots, Known;
    FreshOrBroken(steps);
    if !AllFresh(steps) {
      var p: Pair :| Broken(Run(steps), p);
      BrokenIsNotInOrder(Run(steps), p);
    }
  }

  // ---------- the discipline of the slots ----------

  /** Every live flight has its record in its chain's slot and is fresh, and no chain has two:
      an empty slot means nothing live. */
  ghost predicate Disciplined(w: World) {
    && (forall i :: 0 <= i < |w.flights| && w.flights[i].live ==> Held(w, w.flights[i]))
    && (forall i, j :: 0 <= i < j < |w.flights| && w.flights[i].live && w.flights[j].live ==>
          w.flights[i].local != w.flights[j].local)
  }

  ghost predicate Held(w: World, f: Flight) {
    Slot(w.store, f.local) == Some(f.record) && Fresh(w, f)
  }

  /** A flight still live after an attempt keeps its slot, and its chain gets no new record. */
  lemma StillHeld(w: World, s: Step, f: Flight)
    requires OwnSlots(w.store) && s.Work? && !Configured(s.clients, LOCK_CHAIN) && f.live && Held(w, f)
    ensures var v := TryOf(w, s).From(w.store);
            Retired(f, v.released).live ==>
              && Slot(v.store, f.local) == Some(f.record)
              && (v.recorded.Some? ==> f.local != s.pair.1)
  {
    hide Attempt, OwnSlots, Slot, Fresh;
    AttemptSlotwise(TryOf(w, s), w.store);
  }

  lemma WorkKeepsDisciplined(w: World, s: Step)
    requires Sound(w) && Disciplined(w) && s.Work? && !Configured(s.clients, LOCK_CHAIN)
    ensures Disciplined(DoWork(w, s))
  {
    hide Attempt, OwnSlots, Slot, Sent, PairOk, Known, Fresh, TryOf;
    var w', v := DoWork(w, s), TryOf(w, s).From(w.store);
    var n := |w.flights|;
    forall i | 0 <= i < |w'.flights| && w'.flights[i].live
      ensures Held(w', w'.flights[i]) && (i < n && n < |w'.flights| ==> w'.flights[i].local != w'.flights[n].local)
    {
      if i < n {
        StillHeld(w, s, w.flights[i]);
        LaterFlight(w, w', w.flights[i]);
      } else {
        NewHeld(w, s);
      }
    }
  }

  lemma NewHeld(w: World, s: Step)
    requires Sound(w) && s.Work? && !Configured(s.clients, LOCK_CHAIN)
    requires var v := TryOf(w, s).From(w.store); v.recorded.Some? && Sent(w, s).Some?
    ensures var v := TryOf(w, s).From(w.store);
            Held(DoWork(w, s), Flight(s.pair.1, v.recorded.value, Sent(w, s).value, true))
  {
    hide Attempt, OwnSlots, Slot, Sent, PairOk, Known, Fresh;
    var v := TryOf(w, s).From(w.store);
    AttemptSlotwise(TryOf(w, s), w.store);
    SentOk(w, s, v.recorded.value);
    LaterFlight(w, DoWork(w, s), Flight(s.pair.1, v.recorded.value, Sent(w, s).value, true));
  }

  lemma LandKeepsDisciplined(w: World, i: nat)
    requires Disciplined(w) && (i < |w.flights| ==> w.flights[i].live)
    ensures Disciplined(DoLand(w, i))
  {
    hide Slot, Fresh, Later;
    var w' := DoLand(w, i);
    if i < |w.flights| {
      forall j | 0 <= j < |w'.flights| && w'.flights[j].live
        ensures Held(w', w'.flights[j])
      {
        var k := if j < i then j else j + 1;
        assert w'.flights[j] == w.flights[k] && w.flights[k].local != w.flights[i].local;
        LandElsewhere(w, i, w.flights[k].Pair());
        LaterFlight(w, w', w.flights[k]);
      }
    }
  }

  lemma LaterDisciplined(w: World, w': World)
    requires Disciplined(w) && w'.store == w.store && w'.flights == w.flights && forall p: Pair :: Later(w, w', p)
    ensures Disciplined(w')
  {
    hide Slot, Fresh, Later;
    forall i | 0 <= i < |w.flights| && w.flights[i].live
      ensures Held(w', w.flights[i])
    {
      LaterFlight(w, w', w.flights[i]);
    }
  }

  /** If the step is a landing, what lands is live: its record has not been released. */
  predicate Timely(w: World, s: Step) {
    s.Land? && s.index < |w.flights| ==> w.flights[s.index].live
  }

  ghost predicate AllTimely(steps: seq<Step>) {
    steps == [] ||
    var n := |steps| - 1;
    AllTimely(steps[..n]) && Timely(Run(steps[..n]), steps[n])
  }

  lemma NextKeepsDisciplined(w: World, s: Step)
    requires Sound(w) && Disciplined(w) && Plain(s) && Timely(w, s)
    ensures Disciplined(Next(w, s)) && LandsFresh(w, s)
  {
    hide Sound, DoWork, DoLand, Fresh, Slot, Pallet.Apply;
    match s
    case Work(_, _, _, _, _) => WorkKeepsDisciplined(w, s);
    case Land(i) => LandKeepsDisciplined(w, i);
    case NewBlock(p, txs) => LaterDisciplined(w, Next(w, s));
    case PalletCall(call) => LaterDisciplined(w, Next(w, s));
  }

  /** While transactions land only before their record is released, one slot per chain keeps
      every world of a run sound and disciplined, and every landing fresh. */
  lemma {:induction false} RunKeepsInv(steps: seq<Step>)
    requires AllTimely(steps) && forall s :: s in steps ==> Plain(s)
    ensures Sound(Run(steps)) && Disciplined(Run(steps)) && AllFresh(steps)
  {
    hide Sound, Disciplined, Next, Timely, LandsFresh;
    if steps == [] {
      GenesisSound();
      GenesisDisciplined();
    } else {
      var n := |steps| - 1;
      RunKeepsInv(steps[..n]);
      NextKeepsDisciplined(Run(steps[..n]), steps[n]);
      NextKeepsSound(Run(steps[..n]), steps[n]);
    }
  }

  lemma GenesisDisciplined()
    ensures Disciplined(GENESIS)
  {
  }

  /** In-order relay. After every run in which transactions land only before their record is
      released, for every pair of chains, the blocks that landed on the target are the first
      blocks of the source, in order, without gap, repeat or change; the finalized nonces
      strictly increase and never pass the last mined nonce. */
  lemma {:induction false} RelayInOrder(steps: seq<Step>, p: Pair)
    requires AllTimely(steps) && forall s :: s in steps ==> Plain(s)
    ensures Faithful(Run(steps).Blocks(p), Run(steps).Mined(p))
    ensures Increasing(Run(steps).Finalized(p), Run(steps).LastMined(p))
  {
    hide Run, OwnSlots, Known;
    RunKeepsInv(steps);
    assert PairOk(Run(steps), p);
    LastMinedIsCount(Run(steps), p);
  }
}

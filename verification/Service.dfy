/** The offchain service (`quantum_portal_service.rs`): one persistent slot per local chain
    for its transaction in flight, and a lock in the slot of chain 9999. Writes to offchain
    storage are immediate, so those made before a panic stay. */
module Service {
  import opened Words
  import opened Wrappers
  import Hex
  import opened Client

  datatype PendingTransaction =
    | MineTransaction(chain: u64, remote: u64, timestamp: u64, id: Word)
    | FinalizeTransaction(chain: u64, timestamp: u64, id: Word)
    | NoTransaction

  datatype Status = NotFound | Pending | Confirmed | Failed

  datatype Role = NoRole | Miner | Finalizer

  type Store = map<seq<byte>, PendingTransaction>

  const TIMEOUT: nat := 3600 * 1000
  const LOCK_CHAIN: u64 := 9999
  const LOCK: PendingTransaction := FinalizeTransaction(LOCK_CHAIN, 0, Zeros(32))

  /** "quantum-portal::tx::" */
  const KEY_PREFIX: seq<byte> :=
    [0x71, 0x75, 0x61, 0x6e, 0x74, 0x75, 0x6d, 0x2d, 0x70, 0x6f, 0x72, 0x74, 0x61, 0x6c, 0x3a, 0x3a, 0x74, 0x78, 0x3a, 0x3a]

  /** `storage_key`. */
  function StorageKey(chain: u64): seq<byte> {
    KEY_PREFIX + Hex.BytesToHex(BigEndian(chain, 8))
  }

  /** Different chains have different keys. */
  lemma StorageKeyInjective(a: u64, b: u64)
    ensures StorageKey(a) == StorageKey(b) <==> a == b
  {
    if StorageKey(a) == StorageKey(b) {
      assert StorageKey(a)[|KEY_PREFIX|..] == Hex.BytesToHex(BigEndian(a, 8));
      assert StorageKey(b)[|KEY_PREFIX|..] == Hex.BytesToHex(BigEndian(b, 8));
      Hex.HexInjective(BigEndian(a, 8), BigEndian(b, 8));
      Pow256Values();
      BigEndianRoundTrip(a, 8);
      BigEndianRoundTrip(b, 8);
    }
  }

  function Slot(store: Store, chain: u64): Option<PendingTransaction> {
    if StorageKey(chain) in store then Some(store[StorageKey(chain)]) else None
  }

  function Put(store: Store, chain: u64, tx: PendingTransaction): Store {
    store[StorageKey(chain) := tx]
  }

  function Clear(store: Store, chain: u64): Store {
    store - {StorageKey(chain)}
  }

  lemma SlotFrame(store: Store, chain: u64, tx: PendingTransaction, other: u64)
    ensures Slot(Put(store, chain, tx), other) == if other == chain then Some(tx) else Slot(store, other)
    ensures Slot(Clear(store, chain), other) == if other == chain then None else Slot(store, other)
  {
    StorageKeyInjective(chain, other);
  }

  predicate Locked(store: Store) {
    Slot(store, LOCK_CHAIN).Some?
  }

  // ---------- one attempt ----------

  datatype ChainClient = ChainClient(chainId: u64, now: u64)

  /** What an attempt finds outside: the configured clients with the time each was made, the
      receipt of the transaction asked about, and what `mine` and `finalize` return. */
  datatype Env = Env(
    clients: seq<ChainClient>,
    receipt: Flow<Status>,
    mined: Flow<Option<Word>>,
    finalized: Flow<Option<Word>>)

  /** `find_client_idx`: a chain that is not configured is a panic. */
  function FindClient(clients: seq<ChainClient>, chain: u64): Flow<ChainClient> {
    if clients == [] then Panic
    else if clients[0].chainId == chain then Ok(clients[0])
    else FindClient(clients[1..], chain)
  }

  predicate Configured(clients: seq<ChainClient>, chain: u64) {
    exists c :: c in clients && c.chainId == chain
  }

  lemma {:induction false} FindClientFinds(clients: seq<ChainClient>, chain: u64)
    ensures FindClient(clients, chain).Ok? <==> Configured(clients, chain)
    ensures FindClient(clients, chain).Ok? ==> FindClient(clients, chain).value.chainId == chain
  {
    if clients == [] {
    } else {
      FindClientFinds(clients[1..], chain);
      assert forall c :: c in clients <==> c == clients[0] || c in clients[1..];
    }
  }

  /** Of several clients of a chain the first is taken. */
  lemma {:induction false} FindsFirst(clients: seq<ChainClient>, chain: u64, i: nat)
    requires i < |clients| && clients[i].chainId == chain && forall j :: 0 <= j < i ==> clients[j].chainId != chain
    ensures FindClient(clients, chain) == Ok(clients[i])
  {
    if i == 0 {
    } else {
      FindsFirst(clients[1..], chain, i - 1);
    }
  }

  /** The timeout test; the sum is a `u64` and wraps. */
  predicate Expired(timestamp: u64, now: u64) {
    (timestamp + TIMEOUT) % TWO_64 < now
  }

  /** `is_tx_pending`: what it returns. It removes the transaction when it returns false. */
  function IsPending(env: Env, tx: PendingTransaction): Flow<bool> {
    if tx.NoTransaction? then Panic
    else
      var client :- FindClient(env.clients, tx.chain);
      var status :- env.receipt;
      match status
      case Confirmed | Failed => Ok(false)
      case Pending => Ok(true)
      case NotFound => Ok(!Expired(tx.timestamp, client.now))
  }

  /** The effect of an attempt: the store, how it ended, and what it released and recorded. */
  datatype Visit = Visit(
    store: Store,
    flow: Flow<()>,
    released: Option<PendingTransaction>,
    recorded: Option<PendingTransaction>)

  /** `pending_transactions`: a transaction no longer pending is removed from its own slot. An
      error of the receipt query is unwrapped, so it panics. */
  function Release(env: Env, store: Store, chain: u64): Visit {
    match Slot(store, chain)
    case None => Visit(store, Ok(()), None, None)
    case Some(tx) =>
      match IsPending(env, tx)
      case Ok(true) => Visit(store, Ok(()), None, None)
      case Ok(false) => Visit(Clear(store, tx.chain), Ok(()), Some(tx), None)
      case _ => Visit(store, Panic, None, None)
  }

  /** What the role of the worker has to record. */
  function Work(env: Env, remote: u64, local: u64, now: u64, role: Role): Flow<Option<PendingTransaction>> {
    match role
    case NoRole => Ok(None)
    case Miner =>
      var id :- env.mined;
      Ok(if id.Some? then Some(MineTransaction(local, remote, now, id.value)) else None)
    case Finalizer =>
      var id :- env.finalized;
      Ok(if id.Some? then Some(FinalizeTransaction(local, now, id.value)) else None)
  }

  /** `process_pair`. */
  function ProcessPair(env: Env, store: Store, remote: u64, local: u64, role: Role): Visit {
    var v := Release(env, store, local);
    if v.flow.Panic? || (Slot(store, local).Some? && v.released.None?) then v
    else
      match (FindClient(env.clients, local), FindClient(env.clients, remote))
      case (Ok(client), Ok(_)) =>
        (match Work(env, remote, local, client.now, role)
         case Ok(work) =>
           var saved := if work.Some? then Put(v.store, local, work.value) else v.store;
           Visit(Clear(saved, LOCK_CHAIN), Ok(()), v.released, work)
         case Err => v.(flow := Err)
         case Panic => v.(flow := Panic))
      case _ => v.(flow := Panic)
  }

  /** `process_pair_with_lock`. */
  function Attempt(env: Env, store: Store, remote: u64, local: u64, role: Role): Visit {
    if Locked(store) then Visit(store, Ok(()), None, None)
    else
      var v := ProcessPair(env, Put(store, LOCK_CHAIN, LOCK), remote, local, role);
      if v.flow.Panic? then v else v.(store := Clear(v.store, LOCK_CHAIN))
  }

  // ---------- the service as it runs ----------

  class QuantumPortalService {
    var store: Store

    constructor (initial: Store)
      ensures store == initial
    {
      store := initial;
    }

    method LockIsOpen() returns (open: bool)
      ensures open == !Locked(store)
    {
      var tx := StoredPendingTransactions(LOCK_CHAIN);
      return tx == [];
    }

    method TakeLock()
      modifies this
      ensures store == Put(old(store), LOCK_CHAIN, LOCK)
    {
      SaveTx(LOCK);
    }

    method RemoveLock()
      modifies this
      ensures store == Clear(old(store), LOCK_CHAIN)
    {
      RemoveTransaction(LOCK);
    }

    method StoredPendingTransactions(chain: u64) returns (txs: seq<PendingTransaction>)
      ensures txs == if Slot(store, chain).Some? then [Slot(store, chain).value] else []
    {
      var key := StorageKey(chain);
      if key in store {
        return [store[key]];
      }
      return [];
    }

    method SaveTx(tx: PendingTransaction)
      requires !tx.NoTransaction?
      modifies this
      ensures store == Put(old(store), tx.chain, tx)
    {
      store := store[StorageKey(tx.chain) := tx];
    }

    method RemoveTransaction(tx: PendingTransaction)
      requires !tx.NoTransaction?
      modifies this
      ensures store == Clear(old(store), tx.chain)
    {
      store := store - {StorageKey(tx.chain)};
    }

    method IsTxPending(env: Env, tx: PendingTransaction) returns (r: Flow<bool>)
      modifies this
      ensures r == IsPending(env, tx)
      ensures store == if r == Ok(false) then Clear(old(store), tx.chain) else old(store)
    {
      if tx.NoTransaction? {
        return Panic;
      }
      var client := FindClient(env.clients, tx.chain);
      if client.IsFailure() {
        return client.PropagateFailure();
      }
      if env.receipt.IsFailure() {
        return env.receipt.PropagateFailure();
      }
      match env.receipt.value
      case Confirmed =>
        RemoveTransaction(tx);
        return Ok(false);
      case Failed =>
        RemoveTransaction(tx);
        return Ok(false);
      case Pending =>
        return Ok(true);
      case NotFound =>
        if (tx.timestamp + TIMEOUT) % TWO_64 < client.value.now {
          RemoveTransaction(tx);
          return Ok(false);
        }
        return Ok(true);
    }

    /** The transactions still pending, after removing the others. */
    method PendingTransactions(env: Env, chain: u64) returns (r: Flow<seq<PendingTransaction>>)
      modifies this
      ensures var v := Release(env, old(store), chain);
              && store == v.store
              && (r.IsFailure() <==> v.flow.Panic?)
              && (r.IsFailure() ==> r.Panic?)
              && (r.Ok? ==> (r.value != [] <==> Slot(old(store), chain).Some? && v.released.None?))
    {
      var stored := StoredPendingTransactions(chain);
      if stored == [] {
        return Ok([]);
      }
      var pending := IsTxPending(env, stored[0]);
      if pending.IsFailure() {
        return Panic;
      }
      return Ok(if pending.value then stored else []);
    }

    method ProcessPairNow(env: Env, remote: u64, local: u64, role: Role) returns (flow: Flow<()>)
      modifies this
      ensures var v := ProcessPair(env, old(store), remote, local, role); store == v.store && flow == v.flow
    {
      var live := PendingTransactions(env, local);
      if live.IsFailure() {
        return Panic;
      }
      if live.value != [] {
        return Ok(());
      }
      var localClient := FindClient(env.clients, local);
      var remoteClient := FindClient(env.clients, remote);
      if localClient.IsFailure() || remoteClient.IsFailure() {
        return Panic;
      }
      var now := localClient.value.now;
      if role == Miner {
        if env.mined.IsFailure() {
          return env.mined.PropagateFailure();
        }
        if env.mined.value.Some? {
          SaveTx(MineTransaction(local, remote, now, env.mined.value.value));
        }
      }
      if role == Finalizer {
        if env.finalized.IsFailure() {
          return env.finalized.PropagateFailure();
        }
        if env.finalized.value.Some? {
          SaveTx(FinalizeTransaction(local, now, env.finalized.value.value));
        }
      }
      RemoveLock();
      return Ok(());
    }

    method ProcessPairWithLock(env: Env, remote: u64, local: u64, role: Role) returns (flow: Flow<()>)
      modifies this
      ensures var v := Attempt(env, old(store), remote, local, role); store == v.store && flow == v.flow
    {
      var open := LockIsOpen();
      if !open {
        return Ok(());
      }
      TakeLock();
      flow := ProcessPairNow(env, remote, local, role);
      if flow.Panic? {
        return Panic;
      }
      RemoveLock();
    }

    /** The pair loop of `test_qp`: errors are logged and the loop goes on; a panic ends it. */
    method ProcessPairs(todo: seq<Try>) returns (done: nat)
      modifies this
      ensures done <= |todo| && store == RunTries(old(store), todo[..done])
      ensures forall i :: 0 <= i < done - 1 ==> !FlowAt(old(store), todo, i).Panic?
      ensures done < |todo| ==> done > 0 && FlowAt(old(store), todo, done - 1).Panic?
    {
      hide Attempt, RunTries;
      done := 0;
      assert todo[..0] == [];
      RunNothing(store);
      while done < |todo|
        invariant done <= |todo| && store == RunTries(old(store), todo[..done])
        invariant forall i :: 0 <= i < done ==> !FlowAt(old(store), todo, i).Panic?
      {
        var t := todo[done];
        RunOneMore(old(store), todo, done);
        var flow := ProcessPairWithLock(t.env, t.remote, t.local, t.role);
        done := done + 1;
        if flow.Panic? {
          return;
        }
      }
    }
  }

  // ---------- runs ----------

  /** One call of `process_pair_with_lock` and what it meets. */
  datatype Try = Try(env: Env, remote: u64, local: u64, role: Role) {
    function From(store: Store): Visit {
      Attempt(env, store, remote, local, role)
    }
  }

  function RunTries(store: Store, tries: seq<Try>): Store {
    if tries == [] then store else tries[|tries| - 1].From(RunTries(store, tries[..|tries| - 1])).store
  }

  /** How the `i`-th attempt of a run ended. */
  function FlowAt(store: Store, tries: seq<Try>, i: nat): Flow<()>
    requires i < |tries|
  {
    tries[i].From(RunTries(store, tries[..i])).flow
  }

  lemma RunNothing(store: Store)
    ensures RunTries(store, []) == store
  {
  }

  lemma RunOneMore(store: Store, tries: seq<Try>, i: nat)
    requires i < |tries|
    ensures RunTries(store, tries[..i + 1]) == tries[i].From(RunTries(store, tries[..i])).store
  {
    assert tries[..i + 1][..i] == tries[..i];
  }
}

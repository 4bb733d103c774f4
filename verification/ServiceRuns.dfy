/** What holds of the service's store after every attempt and over every run. Chain 9999 is
    taken not to be configured: its slot is the lock. */
module ServiceRuns {
  import opened Words
  import opened Wrappers
  import opened Client
  import opened Service

  // ---------- slots ----------

  /** A store whose entries lie under the keys of their own chains, with nothing but the
      marker under the lock's key. */
  ghost predicate OwnSlots(store: Store) {
    forall k :: k in store ==>
      && !store[k].NoTransaction? && k == StorageKey(store[k].chain)
      && (store[k].chain == LOCK_CHAIN ==> store[k] == LOCK)
  }

  /** What ownership says about one slot. */
  lemma SlotOwned(store: Store, chain: u64)
    requires OwnSlots(store) && Slot(store, chain).Some?
    ensures var tx := Slot(store, chain).value;
            !tx.NoTransaction? && tx.chain == chain && (chain == LOCK_CHAIN ==> tx == LOCK)
  {
    StorageKeyInjective(chain, store[StorageKey(chain)].chain);
  }

  lemma ClearSlots(store: Store, chain: u64)
    requires OwnSlots(store)
    ensures OwnSlots(Clear(store, chain))
    ensures forall c: u64 :: Slot(Clear(store, chain), c) == if c == chain then None else Slot(store, c)
  {
    forall c: u64
      ensures Slot(Clear(store, chain), c) == if c == chain then None else Slot(store, c)
    {
      SlotFrame(store, chain, LOCK, c);
    }
  }

  lemma PutSlots(store: Store, tx: PendingTransaction)
    requires OwnSlots(store) && !tx.NoTransaction? && (tx.chain == LOCK_CHAIN ==> tx == LOCK)
    ensures OwnSlots(Put(store, tx.chain, tx))
    ensures forall c: u64 :: Slot(Put(store, tx.chain, tx), c) == if c == tx.chain then Some(tx) else Slot(store, c)
  {
    forall c: u64
      ensures Slot(Put(store, tx.chain, tx), c) == if c == tx.chain then Some(tx) else Slot(store, c)
    {
      SlotFrame(store, tx.chain, tx, c);
    }
  }

  /** `before` and `after` hold the same in every slot but that of `chain` and the lock's. */
  ghost predicate SameElsewhere(before: Store, after: Store, chain: u64) {
    forall c: u64 :: c != chain && c != LOCK_CHAIN ==> Slot(after, c) == Slot(before, c)
  }

  /** An attempt seen slot by slot: it releases only what the receipt or the clock allows, and
      records only into an empty slot of its local chain. */
  ghost predicate Slotwise(t: Try, before: Store, v: Visit) {
    && OwnSlots(v.store)
    && SameElsewhere(before, v.store, t.local)
    && (t.local != LOCK_CHAIN ==>
          Slot(v.store, t.local) ==
          if v.recorded.Some? then v.recorded else if v.released.Some? then None else Slot(before, t.local))
    && (v.released.Some? ==>
          && t.local != LOCK_CHAIN && v.released == Slot(before, t.local)
          && IsPending(t.env, v.released.value) == Ok(false))
    && (v.recorded.Some? ==>
          && t.local != LOCK_CHAIN && !v.recorded.value.NoTransaction? && v.recorded.value.chain == t.local
          && (Slot(before, t.local).None? || v.released.Some?))
  }

  lemma ReleaseSlotwise(t: Try, store: Store)
    requires OwnSlots(store) && !Configured(t.env.clients, LOCK_CHAIN)
    ensures var v := Release(t.env, store, t.local);
            && Slotwise(t, store, v) && v.recorded.None?
            && Slot(v.store, LOCK_CHAIN) == Slot(store, LOCK_CHAIN)
            && (t.local == LOCK_CHAIN && Locked(store) ==> v.flow.Panic?)
  {
    hide OwnSlots, Slot;
    FindClientFinds(t.env.clients, LOCK_CHAIN);
    if Slot(store, t.local).Some? {
      SlotOwned(store, t.local);
      ClearSlots(store, t.local);
    }
  }

  /** `process_pair`, called with the marker stored: a panic leaves the marker there, and it is
      still there when the slot has been looked at and the work begins. */
  lemma ProcessPairSlotwise(t: Try, store: Store)
    requires OwnSlots(store) && Locked(store) && !Configured(t.env.clients, LOCK_CHAIN)
    ensures var v := ProcessPair(t.env, store, t.remote, t.local, t.role);
            && Slotwise(t, store, v)
            && (v.flow.Panic? ==> Locked(v.store))
            && Locked(Release(t.env, store, t.local).store)
  {
    hide OwnSlots, Slot, Put, Clear, Release, FindClient;
    ReleaseSlotwise(t, store);
    var v := Release(t.env, store, t.local);
    match (FindClient(t.env.clients, t.local), FindClient(t.env.clients, t.remote))
    case (Ok(client), Ok(_)) =>
      var work := Work(t.env, t.remote, t.local, client.now, t.role);
      if work.Ok? && t.local != LOCK_CHAIN {
        if work.value.Some? {
          PutSlots(v.store, work.value.value);
          ClearSlots(Put(v.store, t.local, work.value.value), LOCK_CHAIN);
        } else {
          ClearSlots(v.store, LOCK_CHAIN);
        }
      }
    case _ =>
  }

  /** Every attempt, from every store that owns its slots. The lock ends open exactly when the
      attempt began with it open and did not panic. */
  lemma AttemptSlotwise(t: Try, store: Store)
    requires OwnSlots(store) && !Configured(t.env.clients, LOCK_CHAIN)
    ensures Slotwise(t, store, t.From(store))
    ensures Locked(t.From(store).store) <==> Locked(store) || t.From(store).flow.Panic?
    ensures Locked(store) ==> t.From(store) == Visit(store, Ok(()), None, None)
  {
    hide OwnSlots, ProcessPair;
    if !Locked(store) {
      PutSlots(store, LOCK);
      var held := Put(store, LOCK_CHAIN, LOCK);
      ProcessPairSlotwise(t, held);
      var v := ProcessPair(t.env, held, t.remote, t.local, t.role);
      ClearSlots(v.store, LOCK_CHAIN);
    }
  }

  /** What is recorded is what the role sent, for this pair, stamped with the clock of the
      local chain's client; by that clock it has not expired. */
  lemma RecordedAsSent(t: Try, store: Store)
    requires t.From(store).recorded.Some?
    ensures var tx, client := t.From(store).recorded.value, FindClient(t.env.clients, t.local);
            && client.Ok? && !tx.NoTransaction? && tx.timestamp == client.value.now
            && (t.role == Miner ==> tx.MineTransaction? && tx.remote == t.remote && t.env.mined == Ok(Some(tx.id)))
            && (t.role == Finalizer ==> tx.FinalizeTransaction? && t.env.finalized == Ok(Some(tx.id)))
            && (t.role == Miner || t.role == Finalizer)
            && (tx.timestamp + TIMEOUT < TWO_64 ==> !Expired(tx.timestamp, client.value.now))
  {
    hide Slot, Put, Clear, IsPending, Locked;
  }

  // ---------- runs ----------

  /** No attempt of a run is configured with the lock's chain. */
  ghost predicate NoLockClient(tries: seq<Try>) {
    forall t :: t in tries ==> !Configured(t.env.clients, LOCK_CHAIN)
  }

  lemma {:induction false} RunOwnsSlots(store: Store, tries: seq<Try>)
    requires OwnSlots(store) && NoLockClient(tries)
    ensures OwnSlots(RunTries(store, tries))
  {
    if tries == [] {
    } else {
      var n := |tries| - 1;
      RunOwnsSlots(store, tries[..n]);
      AttemptSlotwise(tries[n], RunTries(store, tries[..n]));
    }
  }

  /** Slot ownership: in every store reached from the empty one, what lies in chain `k`'s slot
      is a mine or finalize entry of chain `k`, and the lock's slot holds only the marker. */
  lemma SlotOwnership(tries: seq<Try>, k: u64)
    requires NoLockClient(tries)
    ensures var slot := Slot(RunTries(map[], tries), k);
            slot.Some? ==> !slot.value.NoTransaction? && slot.value.chain == k && (k == LOCK_CHAIN ==> slot.value == LOCK)
  {
    hide RunTries;
    RunOwnsSlots(map[], tries);
    var store := RunTries(map[], tries);
    if Slot(store, k).Some? {
      SlotOwned(store, k);
    }
  }

  /** The inputs on which an attempt made with the lock open panics: the local chain is not
      configured; or its slot is taken and the receipt query fails; or there is work to do and
      the remote chain is not configured or the work of the role panics. */
  ghost predicate PanicInput(t: Try, store: Store) {
    || !Configured(t.env.clients, t.local)
    || (Slot(store, t.local).Some? && !t.env.receipt.Ok?)
    || (!StillWaiting(t, store) && (!Configured(t.env.clients, t.remote) || WorkPanics(t)))
  }

  /** The slot is taken and the receipt and the clock say to go on waiting. */
  ghost predicate StillWaiting(t: Try, store: Store) {
    match Slot(store, t.local)
    case None => false
    case Some(tx) =>
      || t.env.receipt == Ok(Pending)
      || (t.env.receipt == Ok(NotFound) && !tx.NoTransaction? && FindClient(t.env.clients, t.local).Ok? &&
          !Expired(tx.timestamp, FindClient(t.env.clients, t.local).value.now))
  }

  predicate WorkPanics(t: Try) {
    (t.role == Miner && t.env.mined.Panic?) || (t.role == Finalizer && t.env.finalized.Panic?)
  }

  /** An attempt made with the lock open panics exactly on those inputs. */
  lemma PanicsIff(t: Try, store: Store)
    requires OwnSlots(store) && !Locked(store) && !Configured(t.env.clients, LOCK_CHAIN)
    ensures t.From(store).flow.Panic? <==> PanicInput(t, store)
  {
    hide OwnSlots, Slot, Put, Clear, FindClient, Configured;
    FindClientFinds(t.env.clients, t.local);
    FindClientFinds(t.env.clients, t.remote);
    SlotFrame(store, LOCK_CHAIN, LOCK, t.local);
    if Slot(store, t.local).Some? {
      SlotOwned(store, t.local);
    }
  }

  /** What the work of the role returns, when there is something to record. */
  predicate WorkReturns(t: Try) {
    (t.role == Miner && t.env.mined.Ok? && t.env.mined.value.Some?) ||
    (t.role == Finalizer && t.env.finalized.Ok? && t.env.finalized.value.Some?)
  }

  predicate WorkErrs(t: Try) {
    (t.role == Miner && t.env.mined.Err?) || (t.role == Finalizer && t.env.finalized.Err?)
  }

  /** The rest of what an attempt made with the lock open does: it releases what is in the slot
      exactly when it need not wait for it, records exactly when the work was reached and
      returned something, and ends in an error exactly when the work was reached and erred. */
  lemma AttemptDecided(t: Try, store: Store)
    requires OwnSlots(store) && !Locked(store) && !Configured(t.env.clients, LOCK_CHAIN)
    ensures var v, panics := t.From(store), PanicInput(t, store);
            && (v.released == (if Slot(store, t.local).Some? && Configured(t.env.clients, t.local) && t.env.receipt.Ok? &&
                                  !StillWaiting(t, store)
                               then Slot(store, t.local) else None))
            && (v.recorded.Some? <==> !panics && !StillWaiting(t, store) && WorkReturns(t))
            && (v.flow.Err? <==> !panics && !StillWaiting(t, store) && WorkErrs(t))
  {
    hide OwnSlots, Slot, Put, Clear, FindClient, Configured, Locked;
    FindClientFinds(t.env.clients, t.local);
    FindClientFinds(t.env.clients, t.remote);
    SlotFrame(store, LOCK_CHAIN, LOCK, t.local);
    if Slot(store, t.local).Some? {
      SlotOwned(store, t.local);
    }
  }

  /** Some attempt of a run met the lock open and an input on which it panics. */
  ghost predicate MetPanicInput(store: Store, tries: seq<Try>) {
    exists i :: 0 <= i < |tries| && PanicInputAt(store, tries, i)
  }

  ghost predicate PanicInputAt(store: Store, tries: seq<Try>, i: nat)
    requires i < |tries|
  {
    var before := RunTries(store, tries[..i]);
    !Locked(before) && PanicInput(tries[i], before)
  }

  /** Over a whole run from an open lock, the lock ends closed if and only if some attempt
      met, with the lock open, an input on which it panics. */
  lemma {:induction false} LockedIffPanicked(store: Store, tries: seq<Try>)
    requires OwnSlots(store) && !Locked(store) && NoLockClient(tries)
    ensures Locked(RunTries(store, tries)) <==> MetPanicInput(store, tries)
  {
    hide Attempt, OwnSlots, Slotwise, Locked, PanicInputAt;
    if tries == [] {
      RunNothing(store);
    } else {
      var n := |tries| - 1;
      var before := RunTries(store, tries[..n]);
      LockedIffPanicked(store, tries[..n]);
      RunOwnsSlots(store, tries[..n]);
      AttemptSlotwise(tries[n], before);
      if !Locked(before) {
        PanicsIff(tries[n], before);
      }
      MetInPrefix(store, tries);
    }
  }

  lemma MetInPrefix(store: Store, tries: seq<Try>)
    requires tries != []
    ensures var n := |tries| - 1;
            var before := RunTries(store, tries[..n]);
            MetPanicInput(store, tries) <==>
            MetPanicInput(store, tries[..n]) || (!Locked(before) && PanicInput(tries[n], before))
  {
    hide Attempt, Locked, PanicInput;
    var n := |tries| - 1;
    assert forall i :: 0 <= i < n ==> tries[..n][..i] == tries[..i];
    assert forall i :: 0 <= i < n ==> PanicInputAt(store, tries[..n], i) == PanicInputAt(store, tries, i);
    assert PanicInputAt(store, tries, n) <==>
           !Locked(RunTries(store, tries[..n])) && PanicInput(tries[n], RunTries(store, tries[..n]));
  }

  /** The smallest case: chain 2 has a transaction in its slot and its receipt query fails once.
      The lock stays closed, and whatever is attempted later leaves the store as it is. */
  lemma FailedQueryFreezes(id: Word, later: seq<Try>)
    ensures var clients := [ChainClient(1, 0), ChainClient(2, 0)];
            var store := Put(map[], 2, MineTransaction(2, 1, 0, id));
            var failing := Try(Env(clients, Err, Ok(None), Ok(None)), 1, 2, Miner);
            && !Locked(store)
            && RunTries(store, [failing] + later) == Put(store, 9999, FinalizeTransaction(9999, 0, Zeros(32)))
            && Locked(Put(store, LOCK_CHAIN, LOCK))
  {
    hide StorageKey, Attempt;
    var tx := MineTransaction(2, 1, 0, id);
    var clients := [ChainClient(1, 0), ChainClient(2, 0)];
    var store := Put(map[], 2, tx);
    var failing := Try(Env(clients, Err, Ok(None), Ok(None)), 1, 2, Miner);
    SlotFrame(map[], 2, tx, LOCK_CHAIN);
    SlotFrame(store, LOCK_CHAIN, LOCK, LOCK_CHAIN);
    SlotFrame(store, LOCK_CHAIN, LOCK, 2);
    FailedQuery(failing, store, tx);
    var tries := [failing] + later;
    assert tries[..1] == [failing] && tries[..1][..0] == [];
    RunNothing(store);
    assert RunTries(store, tries[..1]) == failing.From(store).store;
    FrozenOnceLocked(store, tries, 1);
  }

  lemma FailedQuery(t: Try, store: Store, tx: PendingTransaction)
    requires !Locked(store) && Slot(Put(store, LOCK_CHAIN, LOCK), t.local) == Some(tx) && t.env.receipt == Err
    ensures t.From(store).store == Put(store, LOCK_CHAIN, LOCK)
  {
    hide Slot, Put, FindClient;
  }

  /** Once the lock is left closed, no later attempt changes the store. */
  lemma {:induction false} FrozenOnceLocked(store: Store, tries: seq<Try>, i: nat)
    requires i <= |tries| && Locked(RunTries(store, tries[..i]))
    ensures RunTries(store, tries) == RunTries(store, tries[..i])
    decreases |tries|
  {
    var n := |tries| - 1;
    if i <= n {
      assert tries[..n][..i] == tries[..i];
      FrozenOnceLocked(store, tries[..n], i);
    } else {
      assert tries[..i] == tries;
    }
  }

  // ---------- one transaction in flight ----------

  datatype Cause = ByReceipt(status: Status) | ByTimeout(now: u64)

  datatype Event = Recorded(tx: PendingTransaction) | Released(tx: PendingTransaction, cause: Cause)

  /** A cause for which a transaction may be released: seen confirmed or failed, or timed out. */
  predicate Justified(tx: PendingTransaction, cause: Cause) {
    match cause
    case ByReceipt(status) => status == Confirmed || status == Failed
    case ByTimeout(now) => !tx.NoTransaction? && Expired(tx.timestamp, now)
  }

  function CauseOf(env: Env, tx: PendingTransaction): (c: Cause)
    requires IsPending(env, tx) == Ok(false)
    ensures Justified(tx, c)
  {
    if env.receipt.value == NotFound then ByTimeout(FindClient(env.clients, tx.chain).value.now)
    else ByReceipt(env.receipt.value)
  }

  /** The events of one attempt, releasing before recording. */
  function Events(t: Try, v: Visit): seq<Event> {
    (if v.released.Some? && IsPending(t.env, v.released.value) == Ok(false)
     then [Released(v.released.value, CauseOf(t.env, v.released.value))] else []) +
    (if v.recorded.Some? then [Recorded(v.recorded.value)] else [])
  }

  function Log(store: Store, tries: seq<Try>): seq<Event> {
    if tries == [] then []
    else
      var n := |tries| - 1;
      Log(store, tries[..n]) + Events(tries[n], tries[n].From(RunTries(store, tries[..n])))
  }

  predicate Concerns(e: Event, chain: u64) {
    !e.tx.NoTransaction? && e.tx.chain == chain
  }

  /** The transaction of `chain` recorded and not released since. */
  function InFlight(log: seq<Event>, chain: u64): Option<PendingTransaction> {
    if log == [] then None
    else
      var n := |log| - 1;
      if !Concerns(log[n], chain) then InFlight(log[..n], chain)
      else if log[n].Recorded? then Some(log[n].tx)
      else None
  }

  /** Every record goes into a chain with nothing in flight, and every release is of what is
      in flight, for a justified cause. */
  predicate Orderly(log: seq<Event>) {
    log == [] ||
    var n := |log| - 1;
    var e := log[n];
    && Orderly(log[..n]) && !e.tx.NoTransaction?
    && (match e
        case Recorded(tx) => InFlight(log[..n], tx.chain).None?
        case Released(tx, cause) => InFlight(log[..n], tx.chain) == Some(tx) && Justified(tx, cause))
  }

  lemma OrderlyNext(log: seq<Event>, e: Event)
    requires Orderly(log) && !e.tx.NoTransaction?
    requires e.Recorded? ==> InFlight(log, e.tx.chain).None?
    requires e.Released? ==> InFlight(log, e.tx.chain) == Some(e.tx) && Justified(e.tx, e.cause)
    ensures Orderly(log + [e])
    ensures forall c: u64 :: InFlight(log + [e], c)
                          == if c != e.tx.chain then InFlight(log, c) else if e.Recorded? then Some(e.tx) else None
  {
    assert (log + [e])[..|log|] == log;
  }

  /** The store is what the log says: for every run from the empty store the log is orderly,
      and every chain's slot holds exactly its transaction in flight. */
  lemma {:induction false} LogTracksStore(tries: seq<Try>)
    requires NoLockClient(tries)
    ensures Orderly(Log(map[], tries))
    ensures forall c: u64 :: c != LOCK_CHAIN ==> Slot(RunTries(map[], tries), c) == InFlight(Log(map[], tries), c)
  {
    if tries == [] {
    } else {
      var n := |tries| - 1;
      LogTracksStore(tries[..n]);
      RunOwnsSlots(map[], tries[..n]);
      LogStep(tries[n], RunTries(map[], tries[..n]), Log(map[], tries[..n]));
    }
  }

  lemma LogStep(t: Try, store: Store, log: seq<Event>)
    requires OwnSlots(store) && !Configured(t.env.clients, LOCK_CHAIN) && Orderly(log)
    requires forall c: u64 :: c != LOCK_CHAIN ==> Slot(store, c) == InFlight(log, c)
    ensures var v := t.From(store);
            && Orderly(log + Events(t, v))
            && forall c: u64 :: c != LOCK_CHAIN ==> Slot(v.store, c) == InFlight(log + Events(t, v), c)
  {
    hide Orderly, InFlight, OwnSlots, Slot, IsPending;
    AttemptSlotwise(t, store);
    var v := t.From(store);
    hide Attempt;
    var mid := log;
    if v.released.Some? {
      SlotOwned(store, t.local);
      var e := Released(v.released.value, CauseOf(t.env, v.released.value));
      OrderlyNext(log, e);
      mid := log + [e];
    }
    if v.recorded.Some? {
      OrderlyNext(mid, Recorded(v.recorded.value));
      assert log + Events(t, v) == mid + [Recorded(v.recorded.value)];
    } else {
      assert log + Events(t, v) == mid;
    }
  }

  lemma {:induction false} ReleaseBetween(log: seq<Event>, i: nat, j: nat, chain: u64)
    requires Orderly(log) && i < j <= |log|
    requires log[i].Recorded? && Concerns(log[i], chain) && InFlight(log[..j], chain) != Some(log[i].tx)
    ensures exists r :: i < r < j && log[r].Released? && log[r].tx == log[i].tx && Justified(log[r].tx, log[r].cause)
  {
    assert log[..j][..j - 1] == log[..j - 1];
    OrderlyPrefix(log, j);
    if j - 1 > i && !(log[j - 1].Released? && log[j - 1].tx == log[i].tx) {
      ReleaseBetween(log, i, j - 1, chain);
    }
  }

  lemma {:induction false} OrderlyPrefix(log: seq<Event>, j: nat)
    requires Orderly(log) && j <= |log|
    ensures Orderly(log[..j])
  {
    if j < |log| {
      OrderlyPrefix(log[..|log| - 1], j);
      assert log[..|log| - 1][..j] == log[..j];
    } else {
      assert log[..j] == log;
    }
  }

  lemma RecordedTwice(log: seq<Event>, i: nat, j: nat)
    requires Orderly(log) && i < j < |log| && log[i].Recorded? && log[j].Recorded?
    requires !log[i].tx.NoTransaction? && Concerns(log[j], log[i].tx.chain)
    ensures exists r :: i < r < j && log[r].Released? && log[r].tx == log[i].tx && Justified(log[r].tx, log[r].cause)
  {
    OrderlyPrefix(log, j + 1);
    assert log[..j + 1][..j] == log[..j];
    ReleaseBetween(log, i, j, log[i].tx.chain);
  }

  /** At most one in flight: between two transactions recorded for the same local chain,
      whatever their pairs and roles, the first was released because it was seen confirmed or
      failed or because it timed out. */
  lemma OneInFlight(tries: seq<Try>, i: nat, j: nat)
    requires NoLockClient(tries) && i < j < |Log(map[], tries)|
    requires var log := Log(map[], tries);
             && log[i].Recorded? && log[j].Recorded?
             && !log[i].tx.NoTransaction? && Concerns(log[j], log[i].tx.chain)
    ensures var log := Log(map[], tries);
            exists r :: i < r < j && log[r].Released? && log[r].tx == log[i].tx && Justified(log[r].tx, log[r].cause)
  {
    hide Log, Slot, RunTries;
    LogTracksStore(tries);
    RecordedTwice(Log(map[], tries), i, j);
  }

  // ---------- timeouts ----------

  /** An hour in milliseconds. */
  const HOUR: nat := 60 * 60 * 1000

  /** The timeout test is that more than an hour has passed, for every clock value if and only if the
      sum fits `u64`. */
  lemma ExpiryExact(timestamp: u64)
    ensures (forall now: u64 :: Expired(timestamp, now) <==> timestamp + HOUR < now) <==> timestamp + HOUR < TWO_64
  {
    if timestamp + TIMEOUT >= TWO_64 {
      var last: u64 := TWO_64 - 1;
      assert Expired(timestamp, last) && !(timestamp + TIMEOUT < last);
    }
  }

  /** An attempt that does not see what is in chain `k`'s slot confirmed or failed: its receipt
      is not found, is pending, or cannot be had. */
  ghost predicate NeverFound(t: Try, k: u64) {
    t.local == k ==> t.env.receipt != Ok(Confirmed) && t.env.receipt != Ok(Failed)
  }

  /** The clock of `k`'s client in an attempt. */
  ghost predicate ClockAtMost(t: Try, k: u64, limit: nat) {
    FindClient(t.env.clients, k).Ok? ==> FindClient(t.env.clients, k).value.now <= limit
  }

  lemma SmallMod(x: nat)
    requires x < TWO_64
    ensures x % TWO_64 == x
  {
  }

  lemma VerdictNotFound(env: Env, tx: PendingTransaction)
    requires !tx.NoTransaction? && tx.timestamp + TIMEOUT < TWO_64
    requires env.receipt == Ok(NotFound) && FindClient(env.clients, tx.chain).Ok?
    ensures IsPending(env, tx) == Ok(FindClient(env.clients, tx.chain).value.now <= tx.timestamp + TIMEOUT)
  {
    SmallMod(tx.timestamp + TIMEOUT);
  }

  lemma SurvivesOne(t: Try, store: Store, tx: PendingTransaction)
    requires OwnSlots(store) && !Configured(t.env.clients, LOCK_CHAIN)
    requires !tx.NoTransaction? && tx.chain != LOCK_CHAIN && tx.timestamp + TIMEOUT < TWO_64
    requires Slot(store, tx.chain) == Some(tx)
    requires NeverFound(t, tx.chain) && ClockAtMost(t, tx.chain, tx.timestamp + TIMEOUT)
    ensures Slot(t.From(store).store, tx.chain) == Some(tx)
  {
    hide OwnSlots, Slot;
    AttemptSlotwise(t, store);
    hide Attempt;
    if t.local == tx.chain && FindClient(t.env.clients, tx.chain).Ok? && t.env.receipt == Ok(NotFound) {
      VerdictNotFound(t.env, tx);
    }
  }

  /** Not yet timed out: an entry never seen confirmed or failed survives every run of attempts,
      on any chains, whose clock has not passed its timestamp by more than the timeout. */
  lemma {:induction false} SurvivesUntilTimeout(store: Store, tries: seq<Try>, tx: PendingTransaction)
    requires OwnSlots(store) && NoLockClient(tries)
    requires !tx.NoTransaction? && tx.chain != LOCK_CHAIN && tx.timestamp + TIMEOUT < TWO_64
    requires Slot(store, tx.chain) == Some(tx)
    requires forall t :: t in tries ==> NeverFound(t, tx.chain) && ClockAtMost(t, tx.chain, tx.timestamp + TIMEOUT)
    ensures Slot(RunTries(store, tries), tx.chain) == Some(tx)
  {
    hide Attempt, OwnSlots, Slot, NeverFound, ClockAtMost, Configured;
    if tries != [] {
      var n := |tries| - 1;
      SurvivesUntilTimeout(store, tries[..n], tx);
      RunOwnsSlots(store, tries[..n]);
      SurvivesOne(tries[n], RunTries(store, tries[..n]), tx);
    } else {
      RunNothing(store);
    }
  }

  /** With the lock open, an attempt on a chain releases what lies in its slot exactly when it
      is no longer pending. */
  lemma ReleasedIff(t: Try, store: Store, tx: PendingTransaction)
    requires !Locked(store) && t.local != LOCK_CHAIN && Slot(store, t.local) == Some(tx)
    ensures t.From(store).released == Some(tx) <==> IsPending(t.env, tx) == Ok(false)
  {
    hide Slot, Put, Clear, IsPending, FindClient;
    SlotFrame(store, LOCK_CHAIN, LOCK, t.local);
  }

  /** Timed out: with the lock open, the next attempt on its chain releases an entry whose
      receipt is not found exactly when the clock has passed its timestamp by more than the
      timeout. */
  lemma ReleasedAfterTimeout(t: Try, store: Store, tx: PendingTransaction)
    requires !Locked(store) && !tx.NoTransaction? && tx.chain != LOCK_CHAIN && t.local == tx.chain
    requires Slot(store, tx.chain) == Some(tx) && tx.timestamp + TIMEOUT < TWO_64
    requires t.env.receipt == Ok(NotFound) && FindClient(t.env.clients, tx.chain).Ok?
    ensures t.From(store).released == Some(tx) <==>
            FindClient(t.env.clients, tx.chain).value.now > tx.timestamp + TIMEOUT
  {
    ReleasedIff(t, store, tx);
    VerdictNotFound(t.env, tx);
  }
}

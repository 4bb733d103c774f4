# Quantum portal: ABI codec, relay and ERC-20 precompile

A Dafny model of the three parts of ferrum-x-network that carry its logic, with what was proved about them.

1. **The Ethereum ABI codec** (`libraries/ethabi-nostd`), which follows the Contract ABI Specification of the
   Solidity documentation, section "Formal Specification of the Encoding". Tokens become a tree of mediates; heads,
   byte offsets and tails are laid out; the decoder follows the offsets back, guided by the kinds.
   Two definitions stand beside the code: `AbiSpecification`, the encoding as that section defines it, and
   `AbiReading`, what data says when its words are read as numbers. The encoder is proved to agree with the first
   exactly when its tuples balance, the decoder with the second always, and the second reads the first.
   Files: `Words`, `AbiTypes`, `AbiTypeCheck`, `AbiEncoder`, `AbiLayout`, `AbiDecoder`, `AbiSoundness`, `AbiPlacement`,
   `AbiSpecification`, `AbiReading`, `AbiInterop`, `AbiRoundTrip`, `AbiLimits`, and `MineMessage` for the message a
   miner signs.
2. **The quantum portal relay** (`pallets/quantum-portal`): the pallet's storage, the client's decisions, the service
   with its slots and lock, and whole runs of all of them together. Files: `Hex`, `Pallet`, `Client`, `Service`,
   `ServiceRuns`, `Relay`, `RelayProgress`, `RelayDecisions`.
3. **Allowances and permits** of the balances precompile (`precompiles/balances-erc20`; EIP-20 and EIP-2612, section
   "Specification" of each). Files: `Erc20`, `Erc20History`, `Erc20Ledger`, `Erc20Digest`.

`Wrappers` holds the option type they share. Loops and storage updates of the source are methods and classes, each
proved equal to a function; the theorems are about the functions. Integers are unbounded except where a width is
written out: `u32` lengths and offsets wrap, as they do in the release and production profiles.

## Where the code falls short of what it says

Each of these is the code as it is; the named members give a failing input and the exact condition.

- `head_len` of a static tuple counts components while `head` emits words. Offsets after such a tuple are wrong
  unless the miscounts add up to nothing: `MeetsSpecificationIff`, `ExactIffBalanced`, `MiscountedTuples`,
  `SingleComponent`, `TwoWordComponent`. The decoder is not affected: `ReadsSpecification`.
- `as_bool` takes every word from 2 to 255 as false, and the first twelve bytes of an address word are not looked at:
  `DecodeIff`.
- A zero-length fixed array of a dynamic kind is static to the encoder and dynamic to the decoder:
  `EmptyFixedArrays`, `EmptyFixedArray`.
- Where `usize` has 32 bits, a byte length within 31 of 2^32 wraps to no words and is read as no bytes:
  `NarrowLengths`.
- Offsets of dynamic fixed arrays and tuples are sliced unchecked: `InRangeIff`. Encoder output never reaches that:
  `RoundTrip`.
- The block comparison before finalizing is exact only for blocks of pairwise distinct transactions:
  `ComparisonExact`.
- `finalize` compares the mined block with a block that the *local* contract made for the remote chain, not with the
  block it was mined from: `FinalizedInvalidIff`, `FaithfulBlockFinalizedInvalid`.
- A panic while a pair is processed leaves the lock closed, and the store is frozen from then on. One failed receipt
  query is enough: `PanicsIff`, `LockedIffPanicked`, `FailedQueryFreezes`, `FrozenOnceLocked`.
- Finalizing returns the zero hash, so every finalize record waits for the receipt of a transaction that does not
  exist and holds its chain's slot until the timeout, even when only a signature was submitted:
  `FinalizeIdsAreZero`, `FinalizeHoldsSlot`, `FinalizeReleasedIff`, `SignatureTakesSlot`, `SignatureHoldsSlot`.
- A transaction that lands after its record timed out can repeat a nonce. The ledgers stay in order exactly when
  whatever lands is still fresh: `InOrderIff`, `LateLandingRepeats`.

## Assumptions

- No chain with id 9999 is configured; its slot is the lock.
- `usize` has 64 bits, so the decoder's lengths and positions do not wrap; `NarrowLengths` says where 32 bits differ.
- In `Relay`: the relayer is the only one to mine and finalize on the target contracts; a send that returns an error
  sent nothing; a transaction lands at most once, at any time; `localBlockByNonce(n)` returns block `n`. Target
  contracts are taken to check nothing. `RunKeepsInv` and `RelayInOrder` are about the runs in which transactions land
  before their record is released, which they state as `AllTimely`; `InOrderIff` is about all runs.
- Offchain storage writes are immediate and stay when the worker panics.
- In `Erc20`: addresses and accounts correspond one to one, as both runtimes map them.
- Hashing, signing and signature recovery are parameters. `PermitAsSigned`, `SignedPermitInRun` and
  `PermitNotReplayed` assume an ideal scheme, which they state as `Ideal`.
- The ledger is a parameter. `BalanceHistory` and `FundsConserved` are about ledgers whose transfers take the amount
  from the payer and give it to the payee, stated as `KeepsBalances`; `BookKeepsBalances` shows that plain balances
  which transfers may not overdraw are one.
- In `Erc20Digest`: the precompile library's argument encoding is the specified one.

## Model

| member | source | states |
|---|---|---|
| `Words.BigEndianRoundTrip` | libraries/ethabi-nostd/src/encoder.rs:164-165 | a number written as big-endian bytes reads back as itself |
| `Words.SumOfShiftsIsBigEndian` | libraries/ethabi-nostd/src/decoder.rs:31-34 | the decoder's sum of shifted bytes is the big-endian value of the four bytes |
| `AbiDecoder.AsU32OfPadU32` | libraries/ethabi-nostd/src/util.rs:33-37 | every `u32` padded to a word is read back by `as_u32` |
| `AbiTypes.ExactIffPassAndFull` | libraries/ethabi-nostd/src/token.rs:73-122 | a token is exactly of a kind iff it passes `type_check` and its byte strings and tuples have full size at every depth |
| `AbiTypeCheck.PassesIff` | libraries/ethabi-nostd/src/token.rs:73-122 | a token passes `type_check` iff it can be completed to an exactly typed one by appending bytes to byte strings and components to tuples |
| `AbiTypeCheck.PanicsIff` | libraries/ethabi-nostd/src/token.rs:113-119 | checking components panics iff they pass up to one that has no kind, or that panics itself |
| `AbiTypes.DynamicsAgree` | libraries/ethabi-nostd/src/token.rs:214-221 | without zero-length fixed arrays of dynamic kinds, token and kind agree on being dynamic at every depth |
| `AbiEncoder.PaddingKeepsBytes` | libraries/ethabi-nostd/src/encoder.rs:21-41 | dropping the padding gives the bytes back, for every length |
| `AbiEncoder.PadFixedBytesLoop` | libraries/ethabi-nostd/src/encoder.rs:21-41 | the loop with its special last word computes the padding function |
| `AbiEncoder.EncodeHeadTailLoop` | libraries/ethabi-nostd/src/encoder.rs:111-132 | the three folds with a running, wrapping offset compute heads with offsets followed by tails |
| `AbiLayout.LengthsExact` | libraries/ethabi-nostd/src/encoder.rs:54-79 | `head_len` and `tail_len` are 32 times the words emitted iff the static tuples inside miscount by nothing modulo 2^27 words |
| `AbiLayout.OffsetIsTailPosition` | libraries/ethabi-nostd/src/encoder.rs:81-132 | in every block below 2^32 bytes the tail of entry i stands at its position, and the offset in its head is that position iff the miscounts before it cancel |
| `AbiLayout.ExactIffBalanced` | libraries/ethabi-nostd/src/encoder.rs:54-132 | all offsets of an encoding, at every nesting depth, are exact iff the tuples' component counts balance |
| `AbiLayout.OneWordTuplesBalance` | libraries/ethabi-nostd/src/encoder.rs:57 | static tuples with one-word components at every depth always balance |
| `AbiDecoder.SliceDataLoop` | libraries/ethabi-nostd/src/util.rs:16-30 | the loop cuts data into its 32-byte words, or rejects other lengths |
| `AbiDecoder.TakeBytesLoop` | libraries/ethabi-nostd/src/decoder.rs:68-82 | the loop takes the bytes of consecutive words, or fails at the first missing word |
| `AbiDecoder.DecodeParamLoop` | libraries/ethabi-nostd/src/decoder.rs:84-227 | decoding with loops, early errors and panics equals the recursive decoder |
| `AbiDecoder.DecodeEachLoop` | libraries/ethabi-nostd/src/decoder.rs:208-214 | the shared loop over parameters, each starting where the previous head ended, equals the recursive list decoder |
| `AbiDecoder.DecodeLoop` | libraries/ethabi-nostd/src/decoder.rs:48-62 | `decode` with its empty-data rule equals the specified decoder |
| `AbiSoundness.DecodeParamSound` | libraries/ethabi-nostd/src/decoder.rs:84-227 | a decoded token is exactly of its kind; a static kind consumed its structural words, a dynamic one exactly one |
| `AbiSoundness.DecodeSound` | libraries/ethabi-nostd/src/decoder.rs:48-62 | for every input, tokens returned are exactly typed and pass `types_check` |
| `AbiSoundness.DecodeStable` | libraries/ethabi-nostd/src/decoder.rs:64-227 | a successful decoding is the same when any whole words follow, at any depth |
| `AbiSoundness.NarrowLengths` | libraries/ethabi-nostd/src/decoder.rs:68-82 | on data that 32 bits can address, `take_bytes` with 32-bit and with 64-bit lengths agree iff rounding the length up to words does not wrap; beyond, the narrow one returns no bytes where the wide one fails |
| `AbiSoundness.InRangeIff` | libraries/ethabi-nostd/src/decoder.rs:178-206 | a kind decodes without an out-of-range slice for all words iff it is not, and is not an array of, a dynamic fixed array or tuple |
| `AbiSoundness.DecodeInRange` | libraries/ethabi-nostd/src/decoder.rs:48-62 | kinds that need no unchecked slice never panic, whatever the data |
| `AbiPlacement.HeadSizeByKind` | libraries/ethabi-nostd/src/encoder.rs:81-90 | the encoder emits exactly as many head words as the decoder of the kind consumes |
| `AbiSpecification.StaticInBlock` | libraries/ethabi-nostd/src/encoder.rs:111-198 | in every block whatever, a static value stands behind the head words of those before it, encoded as specified |
| `AbiSpecification.LeafInBlock` | libraries/ethabi-nostd/src/encoder.rs:156-180 | in every block the head word of a number, address or truth value is that number, and of fixed bytes the bytes and zeros |
| `AbiSpecification.LeafAlone` | libraries/ethabi-nostd/src/encoder.rs:156-180 | a leaf alone is encoded as exactly that one word |
| `AbiSpecification.MeetsSpecificationIff` | libraries/ethabi-nostd/src/encoder.rs:54-198 | an encoding that fits `u32` is, byte for byte, the one the specification defines iff the static tuples balance |
| `AbiReading.AsU32Reads` | libraries/ethabi-nostd/src/decoder.rs:26-37 | `as_u32` accepts exactly the words below 2^32, as their number |
| `AbiReading.AsBoolReads` | libraries/ethabi-nostd/src/decoder.rs:39-45 | `as_bool` accepts exactly the words below 256, and only 1 is true |
| `AbiReading.DecodesIff` | libraries/ethabi-nostd/src/decoder.rs:84-227 | for all words, positions, kinds and values, the decoder returns a value iff the value stands there, read as numbers, offsets and lengths |
| `AbiReading.DecodeIff` | libraries/ethabi-nostd/src/decoder.rs:48-62 | for all data, kinds and values, `decode` returns the values iff the data is whole words in which they stand and is not empty or may be |
| `AbiReading.EmptyData` | libraries/ethabi-nostd/src/param.rs:50-56 | empty data is read iff every kind takes no bytes and none is dynamic |
| `AbiReading.InvalidNameIff` | libraries/ethabi-nostd/src/decoder.rs:48-53 | `decode` gives the name error iff the data is empty and some kind takes bytes |
| `AbiInterop.ReadsSpecification` | libraries/ethabi-nostd/src/decoder.rs:48-227 | every exactly typed list that fits `u32` is read back from its encoding as specified, whatever its tuples |
| `AbiRoundTrip.RoundTrip` | libraries/ethabi-nostd/src/encoder.rs:135-198 | exactly typed tokens within the limits decode back from their encoding, without panic, iff the encoding is not empty or the kinds allow empty; whatever comes back unchanged was exactly typed |
| `AbiRoundTrip.EncodeInjective` | libraries/ethabi-nostd/src/encoder.rs:135-139 | within the limits, equal bytes mean equal tokens |
| `AbiLimits.RoundTripByKind` | libraries/ethabi-nostd/src/decoder.rs:48-227 | kinds with one-word static tuple components and no empty dynamic array round trip every exactly typed list that fits `u32` |
| `AbiLimits.EmptyFixedArrays` | libraries/ethabi-nostd/src/param.rs:60-67 | values of any list of static parameters and zero-length fixed arrays of dynamic kinds round trip iff there is no such array among them and the encoding is not empty or may be |
| `AbiLimits.EmptyFixedArray` | libraries/ethabi-nostd/src/param.rs:60-67 | a zero-length fixed array alone round trips iff its element kind is static |
| `AbiLimits.MiscountedTuples` | libraries/ethabi-nostd/src/encoder.rs:54-63 | any list of static, `bytes` and `string` parameters round trips for all values iff it has no offsets or its tuples count as many components as words, modulo 2^27 |
| `AbiLimits.SingleComponent` | libraries/ethabi-nostd/src/encoder.rs:57 | a one-component static tuple before `bytes` round trips for all values iff the component is one word |
| `AbiLimits.TwoWordComponent` | libraries/ethabi-nostd/src/encoder.rs:57 | a tuple of one two-word array before `bytes` does not round trip |
| `MineMessage.MessageDeterminesBlock` | pallets/quantum-portal/src/quantum_portal_client.rs:709-713 | equal signed pre-images mean equal chain id, nonce and transactions, for any number of transactions and any method lengths below 2^32 bytes |
| `MineMessage.MessageStart` | pallets/quantum-portal/src/quantum_portal_client.rs:709-713 | the pre-image starts with the chain id and then the nonce, for blocks of any size |
| `MineMessage.MessageReads` | pallets/quantum-portal/src/quantum_portal_client.rs:615-630 | whoever decodes a pre-image below 2^32 bytes reads the chain id, the nonce and every field of every transaction at its position; it is the specified encoding of them |
| `MineMessage.TxTokenExact` | pallets/quantum-portal/src/quantum_portal_client.rs:615-630 | every transaction's token is exactly of the transaction tuple kind |
| `Hex.BytesToHexLoop` | pallets/quantum-portal/src/chain_utils.rs:128-135 | the pushing loop prints two lower-case digits per byte |
| `Hex.HexToBytesLoop` | pallets/quantum-portal/src/chain_utils.rs:137-148 | filling the output in place, stopping at the first bad digit, computes the digit-pair decoding |
| `Hex.HexRoundTrip` | pallets/quantum-portal/src/chain_utils.rs:128-182 | printing with a prefix and reading back is the identity; without the prefix exactly for non-empty bytes |
| `Hex.HexAccepted` | pallets/quantum-portal/src/chain_utils.rs:137-189 | which texts are accepted, and that printing what was read gives the lower-cased text without prefix |
| `Hex.PrefixOnce` | pallets/quantum-portal/src/chain_utils.rs:175-189 | adding the prefix gives a text with it that reads as before, and adding it again changes nothing |
| `Hex.HexIsNumber` | pallets/quantum-portal/src/chain_utils.rs:128-135 | the text is the number that the bytes are, most significant digit first |
| `Pallet.PalletState.Register` | pallets/quantum-portal/src/lib.rs:246-263 | storage after a registration, from any origin |
| `Pallet.PalletState.Remove` | pallets/quantum-portal/src/lib.rs:267-288 | removes the first occurrence, or rejects and writes nothing |
| `Pallet.PalletState.Submit` | pallets/quantum-portal/src/lib.rs:292-321 | appends the signature of a signed, registered caller, or rejects and writes nothing |
| `Pallet.PalletState.SetFinalizerThreshold` | pallets/quantum-portal/src/lib.rs:325-334 | storage after setting a threshold |
| `Pallet.RegistryCounts` | pallets/quantum-portal/src/lib.rs:246-288 | after any calls an account's multiplicity on a chain is what the calls alone say: one more for each registration, one less for each removal that finds one |
| `Pallet.RegistryTold` | pallets/quantum-portal/src/lib.rs:246-288 | after any calls the list of a chain is its registrations in order, each removal taking the first occurrence |
| `Pallet.AcceptedIff` | pallets/quantum-portal/src/lib.rs:246-334 | after any calls a removal is accepted iff registrations are left, a submission iff it is signed by an account with registrations left, the other calls always |
| `Pallet.SignaturesTold` | pallets/quantum-portal/src/lib.rs:292-321 | the signatures stored for a block are the submissions, in order, of accounts registered at that moment, told from the calls alone |
| `Pallet.SignaturesAppendOnly` | pallets/quantum-portal/src/lib.rs:306-320 | the stored list is the old list followed by exactly the accepted submissions, in order |
| `Pallet.SignersWereRegistered` | pallets/quantum-portal/src/lib.rs:298-303 | every stored signature was submitted, signed, by an account with a registration left at that moment |
| `Pallet.GateCounts` | pallets/quantum-portal/src/quantum_portal_client.rs:771-775 | a block can be posted iff the submissions of registered accounts for it exceed the threshold last set |
| `Pallet.GateStaysOpen` | pallets/quantum-portal/src/quantum_portal_client.rs:771-783 | an open gate stays open while the threshold stays, and the multisig never changes |
| `Pallet.CompressLoop` | pallets/quantum-portal/src/quantum_portal_client.rs:349-355 | joining all signatures and cutting 64 bytes, with the panic on fewer |
| `Pallet.FirstSignatureIsPosted` | pallets/quantum-portal/src/quantum_portal_client.rs:353-355 | a first signature of the generated 96-byte shape is posted as it is |
| `Client.SameBlockLoop` | pallets/quantum-portal/src/quantum_portal_client.rs:943-966 | the loop with early return computes the comparison |
| `Client.ComparisonExact` | pallets/quantum-portal/src/quantum_portal_client.rs:943-966 | the comparison accepts exactly the permutations of a source block iff its transactions are pairwise distinct |
| `Client.MineSendsNext` | pallets/quantum-portal/src/quantum_portal_client.rs:812-881 | what is mined is the existing source block after the last mined one, unchanged |
| `Client.MineSendsIff` | pallets/quantum-portal/src/quantum_portal_client.rs:812-881 | a mine transaction is sent, and with which block, iff the source is ready, the target is behind, no block is mined under the last local nonce and every call succeeds |
| `Client.MineIdleIff` | pallets/quantum-portal/src/quantum_portal_client.rs:818-830 | there is nothing to mine iff the source is not ready or the target is level |
| `Client.SignsIff` | pallets/quantum-portal/src/quantum_portal_client.rs:752-810 | a signature is submitted iff the last mined nonce is not finalized, its gate is closed and the reads succeed |
| `Client.PostsIff` | pallets/quantum-portal/src/quantum_portal_client.rs:752-810 | a finalization is posted, and with which flag and multisig, iff the last mined nonce is not finalized, its gate is open and the calls succeed |
| `Client.FinalizeIdleIff` | pallets/quantum-portal/src/quantum_portal_client.rs:806-808 | there is nothing to finalize iff the last mined nonce is finalized |
| `Client.FinalizeKeepsPosting` | pallets/quantum-portal/src/quantum_portal_client.rs:752-810 | once its gate is open, every later finalize of the block gives the same result over any pallet calls, and posts the same multisig |
| `Service.StorageKeyInjective` | pallets/quantum-portal/src/quantum_portal_service.rs:206-214 | different chains have different storage keys |
| `Service.FindsFirst` | pallets/quantum-portal/src/quantum_portal_service.rs:325-328 | of several clients of a chain the first is taken |
| `Service.QuantumPortalService.IsTxPending` | pallets/quantum-portal/src/quantum_portal_service.rs:261-323 | verdict and removal for every receipt status, error and panic |
| `Service.QuantumPortalService.PendingTransactions` | pallets/quantum-portal/src/quantum_portal_service.rs:225-233 | what stays pending and what is removed; a failed receipt query panics |
| `Service.QuantumPortalService.ProcessPairNow` | pallets/quantum-portal/src/quantum_portal_service.rs:143-204 | the store and the outcome of one pair, on every path |
| `Service.QuantumPortalService.ProcessPairWithLock` | pallets/quantum-portal/src/quantum_portal_service.rs:74-94 | the same with the lock taken and removed |
| `Service.QuantumPortalService.ProcessPairs` | pallets/quantum-portal/src/lib.rs:152-166 | the pair loop goes on after errors, stops only at a panic, and leaves the store of the attempts made |
| `ServiceRuns.AttemptSlotwise` | pallets/quantum-portal/src/quantum_portal_service.rs:74-94 | an attempt touches only its local chain's slot, releases only what is no longer pending, records only into an empty slot; the lock ends closed iff it was closed or the attempt panicked |
| `ServiceRuns.ProcessPairSlotwise` | pallets/quantum-portal/src/quantum_portal_service.rs:143-204 | the marker is stored while the work is done, and a panic leaves it |
| `ServiceRuns.RecordedAsSent` | pallets/quantum-portal/src/quantum_portal_service.rs:175-200 | a record carries what the role's work returned, the pair and the local clock, by which it is not expired |
| `ServiceRuns.SlotOwnership` | pallets/quantum-portal/src/quantum_portal_service.rs:206-259 | in every store reached from empty, chain k's slot holds only a mine or finalize entry of chain k, and the lock's slot only the marker |
| `ServiceRuns.PanicsIff` | pallets/quantum-portal/src/quantum_portal_service.rs:143-259 | with the lock open an attempt panics iff its local chain is not configured, or its slot is taken and the receipt query fails, or its slot is free or freed and the remote chain is not configured or the work panics |
| `ServiceRuns.AttemptDecided` | pallets/quantum-portal/src/quantum_portal_service.rs:143-204 | what an attempt with the lock open releases, and iff conditions on its inputs for recording something and for ending in an error |
| `ServiceRuns.LockedIffPanicked` | pallets/quantum-portal/src/quantum_portal_service.rs:49-94 | over any run from an open lock, the lock ends closed iff some attempt met such an input |
| `ServiceRuns.FailedQueryFreezes` | pallets/quantum-portal/src/quantum_portal_service.rs:225-233 | one failed receipt query closes the lock, and no later attempt changes the store |
| `ServiceRuns.FrozenOnceLocked` | pallets/quantum-portal/src/quantum_portal_service.rs:80-87 | a closed lock freezes the store for every later attempt |
| `ServiceRuns.LogTracksStore` | pallets/quantum-portal/src/quantum_portal_service.rs:156-200 | over any run, records and releases alternate per chain, every release is justified, and each slot is exactly the unreleased record |
| `ServiceRuns.OneInFlight` | pallets/quantum-portal/src/quantum_portal_service.rs:156-200 | between two records of a local chain the first was released as confirmed, failed or timed out |
| `ServiceRuns.ExpiryExact` | pallets/quantum-portal/src/quantum_portal_service.rs:309 | the timeout test is that more than an hour has passed, for every clock, iff timestamp plus an hour fits `u64` |
| `ServiceRuns.SurvivesUntilTimeout` | pallets/quantum-portal/src/quantum_portal_service.rs:308-320 | an entry never seen confirmed or failed survives every run whose clock has not passed its timeout |
| `ServiceRuns.ReleasedAfterTimeout` | pallets/quantum-portal/src/quantum_portal_service.rs:308-320 | with the lock open, the next attempt releases it iff the clock has |
| `Relay.SentOk` | pallets/quantum-portal/src/quantum_portal_client.rs:752-881 | while the ledgers are in order, whatever an attempt sends is the next source block unchanged, or a mined block not finalized |
| `Relay.InOrderIff` | pallets/quantum-portal/src/quantum_portal_client.rs:752-881 | for every run, with any number of transactions in flight landing at any time, all ledgers are in order iff each landing was of the next block to mine or of a nonce not finalized yet |
| `Relay.StillHeld` | pallets/quantum-portal/src/quantum_portal_service.rs:156-200 | while a transaction's record is not released it keeps the slot, and its chain records nothing else |
| `Relay.RunKeepsInv` | pallets/quantum-portal/src/quantum_portal_service.rs:143-204 | after every run in which transactions land before their record is released, each live transaction holds its chain's slot, there is at most one per chain, and every landing was fresh |
| `Relay.RelayInOrder` | pallets/quantum-portal/src/quantum_portal_client.rs:752-881 | after every such run, what landed on a target is a prefix of the source's blocks with consecutive nonces, and finalized nonces strictly increase within the mined ones |
| `Relay.LedgersGrow` | pallets/quantum-portal/src/quantum_portal_client.rs:752-881 | source blocks, mined and finalized ledgers only grow along every run |
| `RelayProgress.NeverAlreadyMined` | pallets/quantum-portal/src/quantum_portal_client.rs:832-836 | while the ledgers are in order the already-mined error does not occur |
| `RelayProgress.MineDelivers` | pallets/quantum-portal/src/quantum_portal_client.rs:812-881 | with nothing failing and the slot free or freed, one attempt and its landing mine exactly the next source block and change no other ledger |
| `RelayProgress.CatchUp` | pallets/quantum-portal/src/quantum_portal_client.rs:812-881 | k failure-free rounds mine the next k source blocks in order, so as many as the source is ahead bring the target level |
| `RelayProgress.FinalizeDelivers` | pallets/quantum-portal/src/quantum_portal_client.rs:752-810 | with the gate open and nothing failing, one attempt and its landing finalize exactly the last mined block |
| `RelayProgress.FinalizedInvalidIff` | pallets/quantum-portal/src/quantum_portal_client.rs:765-768 | a faithfully mined block is finalized as invalid iff it differs from the target's own block of that nonce for the source |
| `RelayProgress.FaithfulBlockFinalizedInvalid` | pallets/quantum-portal/src/quantum_portal_client.rs:765-768 | a run from the initial world that mines a block faithfully and finalizes it as invalid |
| `RelayProgress.LateLandingRepeats` | pallets/quantum-portal/src/quantum_portal_service.rs:308-320 | a run in which a transaction lands after its record timed out and the same nonce is mined twice |
| `RelayProgress.FinalizeIdsAreZero` | pallets/quantum-portal/src/quantum_portal_client.rs:403 | in every store of every run a finalize record has the zero id |
| `RelayProgress.FinalizeHoldsSlot` | pallets/quantum-portal/src/quantum_portal_service.rs:261-323 | while the zero id has no receipt, a finalize record holds its slot through every continuation of a run until the timeout has passed, landed or not |
| `RelayProgress.FinalizeReleasedIff` | pallets/quantum-portal/src/quantum_portal_service.rs:308-320 | an attempt on its chain then releases it iff the clock has passed the timeout |
| `RelayProgress.SignatureTakesSlot` | pallets/quantum-portal/src/quantum_portal_client.rs:306 | an attempt that only submits a signature sends nothing and still takes the slot with a zero id |
| `RelayProgress.SignatureHoldsSlot` | pallets/quantum-portal/src/quantum_portal_client.rs:779-801 | a run from the initial world after which nothing is in flight and, through every continuation until the timeout, the slot stays taken |
| `RelayDecisions.PalletTold` | pallets/quantum-portal/src/lib.rs:246-334 | in every run the pallet's storage is what its calls made of it |
| `RelayDecisions.SignsWhileTooFew` | pallets/quantum-portal/src/quantum_portal_client.rs:752-810 | after any run a finalizer signs nonce n iff it is the last mined one, not finalized, the submissions called for it do not exceed the threshold last set, and the reads succeed |
| `RelayDecisions.PostsOnceEnough` | pallets/quantum-portal/src/quantum_portal_client.rs:765-783 | after any run it posts nonce n iff they do, with the multisig of those submissions and the flag of the comparison |
| `RelayDecisions.FinalizerIdle` | pallets/quantum-portal/src/quantum_portal_client.rs:806-808 | a finalizer's attempt on a pair whose last mined block is finalized records and sends nothing |
| `RelayDecisions.MinerIdle` | pallets/quantum-portal/src/quantum_portal_client.rs:818-830 | a miner's attempt records and sends nothing while the source is not ready or the target is level |
| `RelayDecisions.NoRoleIdle` | pallets/quantum-portal/src/quantum_portal_service.rs:165-200 | a worker without a role records and sends nothing |
| `RelayDecisions.MinerSendsIff` | pallets/quantum-portal/src/quantum_portal_client.rs:812-881 | with ledgers in order and no other call failing, a miner sends iff the source is ready and has a block the target has not |
| `Erc20.Precompile.DoApprove` | precompiles/balances-erc20/src/lib.rs:240-273 | storage after an approval, saturating |
| `Erc20.Precompile.DoTransfer` | precompiles/balances-erc20/src/lib.rs:276-308 | outcome and storage of a transfer |
| `Erc20.Precompile.DoTransferFrom` | precompiles/balances-erc20/src/lib.rs:311-373 | outcome and storage, with the allowance restored when the balance transfer fails |
| `Erc20.Precompile.DoPermit` | precompiles/balances-erc20/src/eip2612.rs:95-156 | outcome and storage of a permit on every path |
| `Erc20History.RejectedChangesNothing` | precompiles/balances-erc20/src/lib.rs:240-373 | a call that is not accepted leaves balances, allowances and nonces as they were |
| `Erc20History.PermitDeadline` | precompiles/balances-erc20/src/eip2612.rs:112-114 | a permit is good through the whole second of its deadline and no longer |
| `Erc20History.NonceCounts` | precompiles/balances-erc20/src/eip2612.rs:116-132 | after any run an owner's nonce is the number of permits accepted for it |
| `Erc20History.NeverPanics` | precompiles/balances-erc20/src/eip2612.rs:132 | the nonce cannot overflow in fewer than 2^256 calls |
| `Erc20History.NonceUsedOnce` | precompiles/balances-erc20/src/eip2612.rs:116-132 | every later permit of an owner sees a larger nonce than an accepted one used |
| `Erc20History.PermitAsSigned` | precompiles/balances-erc20/src/eip2612.rs:112-147 | under an ideal scheme an owner's signature is accepted iff spender, value and deadline are the signed ones, the nonce is the owner's, and time, owner and nonce allow it; then exactly that value is granted |
| `Erc20History.SignedPermitInRun` | precompiles/balances-erc20/src/eip2612.rs:112-132 | over runs, the permit signed for nonce n is accepted iff exactly n permits of the owner were accepted before, and the rest is as signed |
| `Erc20History.PermitNotReplayed` | precompiles/balances-erc20/src/eip2612.rs:118-130 | under an ideal signature scheme a signed permit is accepted at most once in any run |
| `Erc20History.AllowanceStep` | precompiles/balances-erc20/src/lib.rs:333-349 | one call changes one allowance only as a grant of it or a spend by a spender other than the owner; owner-initiated transfers and rejected calls change none |
| `Erc20History.AllowanceHistory` | precompiles/balances-erc20/src/lib.rs:240-373 | after any run an allowance is the last value granted, saturated, minus what the spender moved since, which never exceeds it |
| `Erc20History.SpendingBounded` | precompiles/balances-erc20/src/lib.rs:310-373 | over any run what a spender moved plus what it may still move is within all that was granted |
| `Erc20Ledger.ApproveAccepted` | precompiles/balances-erc20/src/lib.rs:240-273 | an approval is always accepted and sets the allowance of the spender over the caller's funds |
| `Erc20Ledger.TransferAccepted` | precompiles/balances-erc20/src/lib.rs:276-308 | a transfer is accepted iff the value fits and the ledger moves it from the caller |
| `Erc20Ledger.TransferFromAccepted` | precompiles/balances-erc20/src/lib.rs:311-373 | accepted iff the value fits, the ledger moves it from the owner, and the caller is the owner or has an allowance that covers it |
| `Erc20Ledger.SpenderAccepted` | precompiles/balances-erc20/src/lib.rs:311-373 | after any run a spender's transfer is accepted iff the ledger allows it and the last grant, less what was spent since, covers it |
| `Erc20Ledger.LedgerHistory` | precompiles/balances-erc20/src/lib.rs:288-360 | after any run the ledger is the initial one after the accepted movements in order, from caller or owner to the receiver |
| `Erc20Ledger.BalanceHistory` | precompiles/balances-erc20/src/lib.rs:288-360 | after any run every account has what it had, plus what it received, minus what it paid |
| `Erc20Ledger.FundsConserved` | precompiles/balances-erc20/src/lib.rs:288-360 | no run makes or destroys funds among the accounts that took part |
| `Erc20Digest.DomainContent` | precompiles/balances-erc20/src/eip2612.rs:50-64 | what is hashed for the domain is five words: type, name and version hashes, chain id and contract |
| `Erc20Digest.PermitContent` | precompiles/balances-erc20/src/eip2612.rs:76-83 | what is hashed for a permit is six words: type hash, owner, spender, value, nonce and deadline, each as its number |
| `Erc20Digest.DigestDetermines` | precompiles/balances-erc20/src/eip2612.rs:66-90 | two permits with the same digest are for the same contract, chain and fields, or the hash collides on what was hashed for them |

## Left out

- AbiRoundTrip.RoundTrip: for tokens whose static tuples do not balance it says nothing; a wrong offset may still lead to equal bytes by accident. `MiscountedTuples` is exact over all values where the dynamic parameters are `bytes` and `string`; nested dynamic kinds with miscounted tuples have only the sufficient side.
- AbiLimits.EmptyFixedArrays: says nothing of lists that also have other dynamic parameters; there the decoder reads a neighbour's word as the missing offset, and what comes back depends on the values.
- AbiDecoder.TakeBytesLoop: lengths do not wrap at 32 bits, which they do in a 32-bit build; `NarrowLengths` gives the difference for this function, and the decoder above it is modelled with 64 bits.
- Relay.RelayInOrder: is about runs in which transactions land before their record is released; for others see `InOrderIff`. A second relayer is not modelled.
- Keccak, ECDSA, RLP and SCALE: foreign code, taken as parameters.
- HTTP and JSON-RPC (`chain_queries.rs`, `contract_client.rs`): receipts and contract reads are parameters.
- The adapters that turn decoded tokens into blocks (`quantum_portal_client.rs:57-160`, `:910-941`): they do not match the kinds they are given; the model starts from decoded values.
- Submitting a signature from the worker: it is sent unsigned and the call requires a signed origin, so it has no effect; signed submissions are pallet calls of their own.
- `u256_to_hex_0x`, `QpLocalBlock::hash`, the unused miner assignment, function selectors: no property of interest.
- Memory: capacity hints and allocation failure.
- Balances, existential deposit, gas and event logs of the precompile, and `deposit` and `withdraw`.
- The transaction pauser, XCM conversions, fee splitting, node, runtimes, contracts, scripts and documentation: wiring or single-branch facts.

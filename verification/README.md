# Agora: verified model of wallet, light client and node admission

This project models, in Dafny, the parts of the Agora Network repository whose behaviour is hardest to see from
the code, and proves what they promise for every input, trace or interleaving.

* **Coin selection** (`CoinSelect`, `CoinSelectTheorems`): the exhaustive search over the 12 largest TLT coins, the
  largest-first fallback, and the transfer built from a selection.
* **Inclusion proofs and light finality** (`Merkle`, `MerkleTheorems`, `TridentLight`): the root, prove and verify
  loops over any node-pairing function; binding for any 32-byte digest, stated as "equal, or here is a collision";
  the two-lane stake quorums.
* **Wire formats** (`Rlp`, `RlpTheorems`, `RawEvm`, `RawEvmReceiver`, `Borsh`, `Lanes`, `LanesTheorems`, `Layouts`,
  `Wallet`): RLP with a strict decoder, EIP-155 and EIP-1559 envelopes with their receiver, the Borsh signing
  preimages of all lanes, each also written out byte by byte, and the in-place writers.
* **Node admission** (`Locks`, `LocksTheorems`, `Slots`, `SlotsTheorems`, `Mempool`, `Offers`, `OffersTheorems`,
  `EvmTemplate`): mutex use as programs under every interleaving, nonce and ticket slots over every run, offer
  funding, and the merge of raw Ethereum envelopes onto a template.
* **Rate limiter** (`RateLimiter`): the per-IP window with a bound over whole traces.

`Common` and `Bytes` hold what the modules share. Code that updates state in place is modelled by classes and
loops proved against specification functions; the theorems are about those functions.

## Conventions

* An operation that throws returns `None` or an error constructor; nothing is excluded by a precondition unless the
  source excludes it. Hash functions, signatures, state application and the store are parameters.
* SHA-256 is any function from byte strings to 32 bytes; no injectivity is assumed anywhere.
* Bytes are integers from 0 to 255. Widths are explicit: an out-of-range integer is reduced modulo its width, as the
  JavaScript typed arrays do, and the lane theorems say what that costs.
* A mempool operation stands for its own id, so distinct operations have distinct ids.

## Where the code does not do what one would expect

* `evict_for_block` frees the account nonce of every sender in the block, but sweeps stale residents only from some
  lanes. An escrow, check, channel, trust line, issued-asset or offer operation can stay pending without its nonce
  reservation, and a second operation can then take the same nonce. `EscrowResidentLosesItsNonce` is such a run;
  `EvictSoundIff`, `BlockSoundIff` and `RunSoundIff` give the exact condition.
* The limiter's documentation speaks of a rolling minute; the code keeps fixed windows. Any minute holds up to
  `2 * limit - 1` accepts and no more, so the limit itself holds only when it is one (`RollingMinuteIff`).
* `hashPair` checks no lengths, so ids that are not 32 bytes long pass (`LongIdAccepted`, `ShortIdAccepted`);
  `AcceptedIdsExactly` says which, and `FillingIdAccepted` with `AcceptedIdFills` for leaves of any length.
* The saturating funding checks do not hold at 2^64 - 1; `NativeFundedIff` and `LineFundedIff` give the exact
  condition on the store. Issued amounts are any 64-bit number (`core/crates/types/src/drc_trust_line.rs:153`); the
  DRC supply cap is lower (`core/crates/state-machine/src/monetary.rs:13`), so the native case is one of the
  function, not of the ledger.
* A submitted block revalidates pending offers one by one (`core/node-bin/src/backend.rs:3029-3035`); a block from
  gossip only evicts what it includes or makes stale (`core/node-bin/src/main.rs:195-197`). So pending offers that
  were admitted together may no longer be payable together. `ChainFundedIff` says for which stores that cannot
  happen whatever the blocks take out, `RevalidationFundedIff` for which it cannot happen when every offer that
  stays can still be paid alone, and `BreakingPair` gives two offers when it can.
* Escrow, check, channel, trust line and issued-asset admission refuses an operation that spends a ticket while
  its account has a pending nonce; `SlotTestAgainstPool` says exactly when the node refuses a free slot, and
  `LiveTicketRefused` is such a run.
* `selectTltCoins` also reports insufficient funds for an empty list when the target is not positive.
* r and s of a raw Ethereum signature are written without stripping zeros; `SignatureScalarIff`.

## Model

| member | source | states |
|---|---|---|
| CoinSelect.KeyOrder | apps/shared/light-client/coinselect.ts:19-27 | the sort comparator (value descending, normalised id, index) is a total order on coin keys |
| CoinSelect.SortOrders | apps/shared/light-client/coinselect.ts:19-27 | the sorted list is in comparator order |
| CoinSelect.SortPermutes | apps/shared/light-client/coinselect.ts:19-27 | and holds exactly the input coins |
| CoinSelectTheorems.KeyMeans | apps/shared/light-client/coinselect.ts:15-17 | the normalised id is the id without surrounding white space, in lower case, and without one leading 0x |
| CoinSelectTheorems.SortedTies | apps/shared/light-client/coinselect.ts:19-27 | larger coins come first; of equal ones that whose normalised id ends first or has the smaller letter where the two first differ; of one transaction the lower index |
| CoinSelect.PreferenceOrder | apps/shared/light-client/coinselect.ts:29-41 | less change, then fewer inputs, then the lexicographically smaller index list is a strict total order on candidates |
| CoinSelect.Better | apps/shared/light-client/coinselect.ts:29-41 | the comparison loop answers whether the candidate strictly precedes the best so far |
| CoinSelect.MaskOfSubset | apps/shared/light-client/coinselect.ts:47-55 | every non-empty index subset of the window is the bit list of one mask the loop visits |
| CoinSelect.BestUnique | apps/shared/light-client/coinselect.ts:46-61 | at most one covering subset precedes all others |
| CoinSelect.Exhaustive | apps/shared/light-client/coinselect.ts:43-62 | the mask loop returns that subset of a window of at most 12 coins, and nothing exactly when no subset covers the target |
| CoinSelect.LargestFirst | apps/shared/light-client/coinselect.ts:64-74 | the fallback returns the shortest prefix that covers the target, or fails when none does |
| CoinSelect.SelectTltCoins | apps/shared/light-client/coinselect.ts:77-89 | the whole selection, errors included, equals its specification on every coin list, amount and fee |
| CoinSelectTheorems.WindowOptimal | apps/shared/light-client/coinselect.ts:83-87 | when the 12 largest coins can cover the target, the selection is the unique minimum under (change, count, index list) among all their covering subsets |
| CoinSelectTheorems.LeastChange | apps/shared/light-client/coinselect.ts:29-62 | without naming that order: of all covering subsets of the 12 largest coins the chosen one is worth least, of those worth as little it has the fewest members, of those as short the smaller index at the first difference |
| CoinSelectTheorems.ChosenCovers | apps/shared/light-client/coinselect.ts:77-89 | a selection is non-empty and covers the target |
| CoinSelectTheorems.InsufficientIff | apps/shared/light-client/coinselect.ts:64-74 | "insufficient funds" is raised exactly when all coins together fall short (or there are no coins), with the true totals |
| CoinSelectTheorems.ErrorsMean | apps/shared/light-client/coinselect.ts:82-84 | the other two errors occur exactly for an amount that is not positive and for a target beyond 2^53 - 1 |
| CoinSelectTheorems.TopPrefixDominates | apps/shared/light-client/coinselect.ts:64-70 | no subset of the sorted coins is worth more than the prefix of the same size (the exchange argument) |
| CoinSelectTheorems.FallbackMinimal | apps/shared/light-client/coinselect.ts:64-74 | when the window falls short, the fallback is a prefix with the fewest members among all covering subsets of all coins |
| CoinSelectTheorems.WindowSelected | apps/shared/light-client/coinselect.ts:77-89 | the same for coin lists: the selection is the least covering subset of the 12 largest coins whenever they can pay |
| CoinSelectTheorems.SelectionAtLeastAsGood | apps/shared/light-client/coinselect.ts:77-89 | the same for coin lists, index list by index list |
| CoinSelectTheorems.SelectionLeast | apps/shared/light-client/coinselect.ts:77-89 | of all sub-multisets of the 12 largest coins that pay, the selection leaves the least change, and of those that leave as little it uses the fewest coins |
| CoinSelectTheorems.FallbackSelected | apps/shared/light-client/coinselect.ts:77-89 | the same for coin lists: when the 12 largest coins cannot pay, the selection is a prefix of the sorted coins and no sub-multiset of the coins that pays has fewer members |
| CoinSelectTheorems.EveryCoinNecessary | apps/shared/light-client/coinselect.ts:43-74 | on both paths, dropping any selected coin leaves less than the target |
| CoinSelectTheorems.ChangeBelowEveryInput | apps/shared/light-client/coinselect.ts:43-74 | so the change is strictly below every selected coin |
| CoinSelectTheorems.OrderIndependentKeys | apps/shared/light-client/coinselect.ts:15-27 | for every permutation of the input the error, or the list of selected keys, is the same |
| CoinSelectTheorems.OrderIndependent | apps/shared/light-client/coinselect.ts:77-89 | when no two coins share value, normalised id and index, the very same coins are selected for every permutation |
| CoinSelectTheorems.OrderFreeIff | apps/shared/light-client/coinselect.ts:15-27 | for coins of positive value with a safe total: every permutation, amount and fee selects the same coins if and only if no two different coins share value, normalised id and index |
| CoinSelectTheorems.OrderMattersForAliases | apps/shared/light-client/coinselect.ts:15-17 | two spellings of one id share a key, so the coin that comes out follows the input order |
| CoinSelectTheorems.BuildTransfer | apps/shared/light-client/wallet.ts:326-345 | inputs equal outputs plus fee; a change output exists only when positive and is below every input |
| Merkle.HashPair | apps/shared/light-client/tltMerkle.ts:18-23 | the 64-byte buffer with both nodes written over it is hashed; a write past the end throws |
| Merkle.TltTxMerkleRoot | apps/shared/light-client/tltMerkle.ts:25-37 | the level loop equals the recursive pairing definition for every list, the empty one included, and throws only if pairing the leaves does |
| Merkle.ProveTltTxMerkle | apps/shared/light-client/tltMerkle.ts:39-58 | the prover returns the padded level's buddy at every level, nothing out of range |
| Merkle.VerifyTltTxMerkle | apps/shared/light-client/tltMerkle.ts:60-72 | the verifier accepts exactly the proofs that climb to the root without a throw |
| MerkleTheorems.PairIsDigest | apps/shared/light-client/tltMerkle.ts:18-23 | two 32-byte nodes are hashed one after the other, left first |
| MerkleTheorems.RootMeans | apps/shared/light-client/tltMerkle.ts:25-37 | the root is the top of the tree defined from above, in which a missing right child is the left one again; without transactions it is 32 zero bytes |
| MerkleTheorems.RootDefinedIff | apps/shared/light-client/tltMerkle.ts:18-37 | which lists have a root at all: at most one id, or no id longer than 64 bytes on the left and 32 on the right or unpaired |
| MerkleTheorems.Completeness | apps/shared/light-client/tltMerkle.ts:25-72 | the proof produced for any leaf of any list that has a root, with ids of any length, verifies against that root |
| MerkleTheorems.SiblingCount | apps/shared/light-client/tltMerkle.ts:47-56 | the number of siblings depends on the list length alone |
| MerkleTheorems.DepthIsCeilLog | apps/shared/light-client/tltMerkle.ts:47-56 | and is the rounded-up binary logarithm of it |
| MerkleTheorems.OddListRootRepeats | apps/shared/light-client/tltMerkle.ts:28-35 | repeating the last leaf of an odd list of more than one leaves the root unchanged |
| MerkleTheorems.Binding | apps/shared/light-client/tltMerkle.ts:60-72 | a 32-byte id accepted at an in-range index with the honest sibling count is the list element there, or two different buffers with one digest are exhibited; nothing is asked of the siblings |
| MerkleTheorems.ProofBinding | apps/shared/light-client/tltMerkle.ts:60-72 | the same for a whole accepted proof |
| MerkleTheorems.BufferBinding | apps/shared/light-client/tltMerkle.ts:60-72 | for ids of any length: an accepted id fills the same buffer as the list's own id and sibling, or a collision is exhibited |
| MerkleTheorems.RootBinding | apps/shared/light-client/tltMerkle.ts:18-37 | two lists of equal length with equal roots are equal, or a digest collision is exhibited |
| MerkleTheorems.FillingIdAccepted | apps/shared/light-client/tltMerkle.ts:60-72 | with honest siblings, every id that fills the leaf's buffer as the leaf does is accepted, whatever the lengths |
| MerkleTheorems.AcceptedIdFills | apps/shared/light-client/tltMerkle.ts:60-72 | and an accepted id does so, or a collision is exhibited |
| MerkleTheorems.AcceptedIdsExactly | apps/shared/light-client/tltMerkle.ts:18-23 | over 32-byte leaves: every id that fills the leaf's half of the buffer is accepted with honest siblings, and no other is without a collision |
| MerkleTheorems.LongIdAccepted | apps/shared/light-client/tltMerkle.ts:18-23 | at an even index the leaf followed by up to 32 further bytes is accepted |
| MerkleTheorems.ShortIdAccepted | apps/shared/light-client/tltMerkle.ts:18-23 | a leaf is accepted without its trailing zeros |
| MerkleTheorems.InnerNodeAccepted | apps/shared/light-client/tltMerkle.ts:60-72 | with one sibling too few an inner node passes, so binding needs the sibling count |
| MerkleTheorems.PaddingAccepted | apps/shared/light-client/tltMerkle.ts:28-29 | one past the end of an odd list the padding copy passes, so binding needs the index range |
| TridentLight.VerifyTridentLight | apps/shared/light-client/tltMerkle.ts:107-128 | reports a state exactly when the inclusion proof is accepted and a given header root equals the Merkle root; each error has its own condition; Finalized means two thirds of the active stake in both lanes |
| TridentLight.StateMeans | apps/shared/light-client/tltMerkle.ts:86-101 | Proposed is exactly the lack of proof of work, Finalized exactly two thirds of positive active stake in both lanes, and a waiting state exactly that a quorum of the lane it names would finalise |
| TridentLight.FinalizedIntersect | apps/shared/light-client/tltMerkle.ts:81-101 | any two finalising signer sets of one validator set share at least a third of the active stake in OVL and in DRC |
| TridentLight.IntersectionIsTight | apps/shared/light-client/tltMerkle.ts:81-84 | a third is reached |
| TridentLight.SignersNeverUndo | apps/shared/light-client/tltMerkle.ts:81-101 | more signers never leave Finalized |
| TridentLight.EveryoneFinalizesIff | apps/shared/light-client/tltMerkle.ts:81-101 | without active stake in both lanes nothing is final; with it the full signer set always is; with DRC stake alone the full set waits for OVL |
| TridentLight.LightFinality | apps/shared/light-client/tltMerkle.ts:107-128 | an accepted proof and two finalising signer sets: the transaction is in the block or a collision is exhibited, and the signer sets overlap by a third in each lane |
| Rlp.HexIsBe | apps/shared/light-client/raw-evm.ts:64-84 | the hexadecimal detour yields the minimal big-endian bytes of every positive integer |
| RlpTheorems.RoundTrip | apps/shared/light-client/raw-evm.ts:57-84 | a strict decoder written from Appendix B of the Yellow Paper recovers every item tree from its encoding, in the single-byte, short and long forms, whatever follows it |
| RlpTheorems.DecodeIsEncode | apps/shared/light-client/raw-evm.ts:57-84 | the decoder accepts nothing but encodings |
| RlpTheorems.PrefixFree | apps/shared/light-client/raw-evm.ts:57-84 | no encoding is a proper prefix of another |
| RawEvm.UintIsScalar | apps/shared/light-client/raw-evm.ts:64-71 | integers throw exactly when negative and are otherwise the string of their minimal bytes |
| RawEvm.RlpU256 | apps/shared/light-client/raw-evm.ts:92-97 | stripping leading zeros of 32 bytes gives the integer encoding of their value; other lengths throw |
| RawEvm.SignatureScalarIff | apps/shared/light-client/raw-evm.ts:181-182 | r and s are canonical scalars if and only if their leading byte is not zero |
| RawEvm.BuildPreimage | apps/shared/light-client/raw-evm.ts:151-207 | both envelopes assemble the list of their fields, and throw exactly on a negative number, a bad address length or a value that is not 32 bytes |
| RawEvm.BuildSigned | apps/shared/light-client/raw-evm.ts:171-210 | the signed envelope is the fields followed by v (or the parity), r and s |
| RawEvm.SignedDecodes | apps/shared/light-client/raw-evm.ts:171-210 | behind the type prefix the decoder finds the unsigned fields plus the signature |
| RawEvmReceiver.ReceiverReads | apps/shared/light-client/raw-evm.ts:151-210 | a receiver written from EIP-155, EIP-2718 and EIP-1559 reads type, chain id, every field, parity and signature halves of every signed envelope as they were given |
| RawEvmReceiver.ReceiverHashesPreimage | apps/shared/light-client/raw-evm.ts:159-207 | and checks the signature against exactly the preimage that was signed |
| RawEvm.PreimageInjective | apps/shared/light-client/raw-evm.ts:159-207 | a signing preimage determines the envelope type and every field, so legacy and type-2 preimages never coincide |
| RawEvm.SignedInjective | apps/shared/light-client/raw-evm.ts:171-210 | a signed envelope determines its fields and signature; in the legacy form v determines chain id and parity |
| RawEvm.SignedIsNoPreimage | apps/shared/light-client/raw-evm.ts:151-210 | no signed envelope is the preimage of any envelope |
| Borsh.Decodes | apps/shared/light-client/typed-lanes.ts:94-145 | for any field schema, decoding an encoding returns every field modulo its width and what follows |
| Borsh.EncodesAlikeIff | apps/shared/light-client/typed-lanes.ts:105-145 | two field lists have the same bytes exactly when every field agrees modulo its width |
| Borsh.AllUnchanged | apps/shared/light-client/typed-lanes.ts:105-126 | fields come back unchanged exactly when every integer is in the range of its width |
| Borsh.ShortFits | apps/shared/light-client/typed-lanes.ts:128-136 | fields fit their length prefixes whenever byte strings and tables are shorter than 2^32 |
| Borsh.WrapRemainder | apps/shared/light-client/typed-lanes.ts:105-126 | what the wire keeps of an integer is its remainder modulo 256 to the width |
| Borsh.LeastFirst | apps/shared/light-client/typed-lanes.ts:105-126 | integers are written least significant byte first |
| Layouts.PreimageWritten | apps/shared/light-client/typed-lanes-drc.ts:186-619 | for every record of the account, execution, payment and DRC lanes the preimage is, written out: domain, chain id, genesis, type tag, each field in order with its width and length check, and the empty option of the issued-asset lanes; and which of them sign a hash |
| Layouts.TransferWritten | apps/shared/light-client/wallet.ts:107-179 | the same for a TLT transfer |
| Layouts.CheckpointWritten | apps/shared/light-client/typed-lanes-finality.ts:36-68 | the same for a checkpoint, behind its domain alone |
| Layouts.CovenantWritten | apps/shared/light-client/typed-lanes.ts:324-362 | the same for the nested covenant sighash and its outer envelope without a domain length |
| Layouts.CommunityNames | apps/shared/light-client/typed-lanes-community.ts:28-40 | the domains of the hub, grant and mission lanes |
| Layouts.CouncilNames | apps/shared/light-client/typed-lanes-treasury.ts:28-30 | the domains of the passport, treasury and vesting lanes |
| Layouts.RegistryWritten | apps/shared/light-client/typed-lanes.ts:169-177 | the envelope of the registry lanes, whatever their body |
| Lanes.DomainsDistinct | apps/shared/light-client/typed-lanes-drc.ts:37-102 | no two signing lanes share a domain, the registry lanes included |
| LanesTheorems.NetworkSplits | apps/shared/light-client/typed-lanes.ts:169-177 | equal envelope tails have equal chain id, genesis and body bytes, for bodies of any form |
| LanesTheorems.SecondByte | apps/shared/light-client/typed-lanes.ts:349-362 | the covenant preimage, whose outer domain has no length, differs from every other in its second byte; every preimage is longer than a digest |
| LanesTheorems.SameLane | apps/shared/light-client/typed-lanes.ts:169-362 | equal preimages come from the same lane |
| LanesTheorems.PreimagesAgreeIff | apps/shared/light-client/typed-lanes.ts:169-362 | two messages have one preimage if and only if lane, chain id, genesis and every field modulo its width agree |
| LanesTheorems.PreimageInjective | apps/shared/light-client/typed-lanes-drc.ts:186-619 | with in-range fields the preimage determines the whole message |
| LanesTheorems.SigningBytesSeparate | apps/shared/light-client/typed-lanes-drc.ts:612-619 | with the lanes that sign a hash of the envelope: equal signing bytes mean the same message or two envelopes with one hash |
| LanesTheorems.SameAttestation | apps/shared/light-client/typed-lanes-finality.ts:36-68 | a checkpoint preimage, which has no bound envelope, determines its fields |
| LanesTheorems.SameCovenant | apps/shared/light-client/typed-lanes.ts:324-362 | the covenant preimage determines network, inputs, outputs, lock time and nonce through the nested sighash |
| Wallet.Concat | apps/shared/light-client/typed-lanes.ts:94-103 | the offset loop fills its buffer with the parts one after another |
| Wallet.EncodeTransactionBody | apps/shared/light-client/wallet.ts:107-138 | the in-place writer ends exactly at the precomputed size with the concatenated fields, and throws exactly on a bad id or address length |
| Wallet.EncodeSigningBytesBound | apps/shared/light-client/wallet.ts:144-179 | the in-place envelope writer produces the concatenated envelope |
| Wallet.BodyIsLane | apps/shared/light-client/wallet.ts:107-138 | those bytes are the transfer lane's schema-driven encoding |
| Wallet.SignTransfer | apps/shared/light-client/wallet.ts:144-179 | the in-place writer yields the transfer lane's signing preimage and throws exactly when that encoder does |
| Wallet.BodyDecodes | apps/shared/light-client/wallet.ts:107-138 | the written body decodes back to its fields |
| Wallet.PushDecodes | apps/shared/light-client/typed-lanes.ts:315-322 | exactly up to 80 bytes can be pushed, and a push is read back from the front of any script |
| Wallet.ScriptSigInjective | apps/shared/light-client/typed-lanes.ts:786-786 | a signature script splits into signature and key in one way |
| LocksTheorems.CallDisciplined | core/node-bin/src/backend.rs:2838-2981 | every modelled RPC and gossip path takes chain before mempool or inbox, never nests those two, touches data only under its guard, and returns what it took |
| LocksTheorems.TaskDisciplined | core/node-bin/src/http.rs:85-110 | so does a whole request with the rate limiter and the dispatcher guard around it |
| LocksTheorems.CallTakes | core/node-bin/src/backend.rs:1576-1666 | for each call without a loop, exactly the orders in which some path takes the mutexes |
| LocksTheorems.TaskTakes | core/node-bin/src/http.rs:85-110 | a POST takes the limiter first and may stop there; then the dispatcher around the call |
| LocksTheorems.CallNests | core/node-bin/src/backend.rs:2838-2981 | no path of any call uses one guarded thing while holding another mutex, but for the node info (pool under chain) and the template (pool and inbox under chain) |
| LocksTheorems.LoopTouches | core/node-bin/src/main.rs:234-310 | the gossip calls with loops use the chain and the pool, a header batch the chain alone |
| LocksTheorems.RunSafe | core/node-bin/src/backend.rs:1247-1252 | for any number of tasks started at any time, in any interleaving, every reachable state keeps the discipline and exclusive ownership |
| LocksTheorems.NoReentryNoRace | core/node-bin/src/backend.rs:1654-1666 | in every reachable state no thread asks for a mutex it holds, and whoever touches guarded data holds its mutex alone |
| LocksTheorems.NoDeadlock | core/node-bin/src/backend.rs:2838-3045 | in every reachable state with an unfinished thread some thread can step |
| LocksTheorems.StepsBounded | core/node-bin/src/backend.rs:2990-3045 | steps taken and left never exceed the work of the tasks started |
| LocksTheorems.MaximalRunFinishes | core/node-bin/src/backend.rs:2838-3045 | a run that cannot step any more has finished every task and freed every mutex |
| LocksTheorems.OppositeNestingHangs | core/node-bin/src/backend.rs:1527-1542 | mempool and inbox nested in opposite orders can hang, so the rule that they never nest is needed |
| Mempool.Mempool.constructor | core/crates/p2p/src/mempool.rs:65-169 | a new pool is empty and consistent |
| Mempool.Mempool.ReserveDrcSlot | core/crates/p2p/src/mempool.rs:324-361 | all keys of a reservation are taken, or none |
| Mempool.Mempool.ReleaseDrcSlot | core/crates/p2p/src/mempool.rs:363-379 | exactly the keys on file are freed |
| Mempool.Mempool.AssertDrcMempoolSlot | core/node-bin/src/backend.rs:156-178 | the node's check passes exactly when the slot is free |
| Mempool.Mempool.AdmitChecked | core/node-bin/src/backend.rs:720-1200 | the node's admission, lane by lane: it succeeds exactly when the lane's own slot test, the fee, the state and the pool allow it |
| Mempool.Mempool.Admit | core/crates/p2p/src/mempool.rs:797-850 | the pool's admission is the specified transition, also for envelopes that reserve no slot of their own |
| Mempool.Mempool.Remove | core/crates/p2p/src/mempool.rs:1140-1180 | removal frees the operation's keys and nothing else |
| Mempool.Mempool.EvictForBlock | core/crates/p2p/src/mempool.rs:1894-2174 | block eviction, loop by loop, is the specified transition |
| SlotsTheorems.HeldMeans | core/crates/types/src/drc_sequence.rs:91-107 | lane by lane and version by version: an operation that spends a ticket holds that ticket alone, a ticket creation its nonce and first ticket, every other one the nonce of the asset it spends |
| SlotsTheorems.RecordableIff | core/crates/p2p/src/mempool.rs:324-361 | which operations can be pending at all: the versions from which a sequence must be named and before which a ticket must not |
| SlotsTheorems.SlotTestAgainstPool | core/node-bin/src/backend.rs:950-1044 | the node's test against the pool's: outside the settlement lanes what passes is free in the pool; and of what is free in the pool the test refuses exactly a dead ticket, or in the settlement lanes a ticket spender whose account nonce is reserved (offers excepted), and an old transfer or stake that names a ticket |
| SlotsTheorems.LiveTicketRefused | core/node-bin/src/backend.rs:990-1009 | a concrete run after which an operation on a live ticket is refused although its slot is free |
| SlotsTheorems.AdmitSound | core/crates/p2p/src/mempool.rs:324-361 | admission keeps slots exclusive and the reservations exact; an operation gets in exactly if no resident holds one of its keys |
| SlotsTheorems.RemoveSound | core/crates/p2p/src/mempool.rs:363-379 | removing any operations keeps that and frees exactly their keys |
| SlotsTheorems.EvictionLeaves | core/crates/p2p/src/mempool.rs:1894-2174 | eviction takes out what the block includes, forbidden payments and, in the nine lanes written out, exactly what shares sender and spent asset with an operation of the block; everything else stays |
| SlotsTheorems.EvictSoundIff | core/crates/p2p/src/mempool.rs:2172-2174 | block eviction keeps it if and only if no resident of an unswept lane, not in the block, holds a nonce the block used |
| SlotsTheorems.EvictFreesExactly | core/crates/p2p/src/mempool.rs:1894-2174 | then eviction frees exactly the keys of what it removed |
| SlotsTheorems.BlockSoundIff | core/node-bin/src/backend.rs:3029-3035 | a block with expiry and revalidation keeps it if and only if those drop every such resident |
| SlotsTheorems.RunSoundIff | core/crates/p2p/src/mempool.rs:1894-2174 | from a sound pool, a run of admissions, removals and blocks keeps all slots exclusive and exact throughout if and only if each of its blocks is clean in that sense |
| SlotsTheorems.ReachableSoundIff | core/node-bin/src/backend.rs:5141-5165 | the same for every run from the empty pool |
| SlotsTheorems.EscrowResidentLosesItsNonce | core/crates/p2p/src/mempool.rs:2096-2174 | a concrete run after which two pending operations hold one account nonce |
| Offers.OfferLanes.constructor | core/crates/p2p/src/offer_lane.rs:17-50 | no offers, no charges |
| Offers.OfferLanes.RequireNativeRoom | core/node-bin/src/drc_offer_admit.rs:52-68 | the check compares the balance with the saturating sum of all pending charges and the new one |
| Offers.OfferLanes.RequireIssuedRoom | core/node-bin/src/drc_offer_admit.rs:70-98 | likewise for issued units against the trust line, with issuers exempt and a missing line refused |
| Offers.OfferLanes.Admit | core/crates/p2p/src/offer_lane.rs:126-206 | the recorded sums stay the sums over pending operations; a failure changes nothing; the exact conditions of success |
| Offers.OfferLanes.AdmitFunded | core/node-bin/src/drc_offer_admit.rs:100-193 | a new operation becomes pending if and only if units are on offer, the fee and every funding check pass against the store, it applies, and the pool has room, a free slot and no create or cancel in its way |
| Offers.OfferLanes.Remove | core/crates/p2p/src/offer_lane.rs:112-124 | removal returns exactly what was charged, so the subtraction never saturates |
| Offers.OfferLanes.Revalidate | core/node-bin/src/drc_offer_admit.rs:18-50 | after a block exactly the operations that still apply stay, with exact sums |
| OffersTheorems.AcceptsIff | core/node-bin/src/drc_offer_admit.rs:52-146 | those checks in plain numbers, without saturating sums |
| OffersTheorems.RunOneCancel | core/crates/p2p/src/offer_lane.rs:126-206 | on every run of admissions, removals and blocks nothing is pending twice and no two pending cancels are of one offer |
| OffersTheorems.CancelWaits | core/crates/p2p/src/offer_lane.rs:126-206 | a cancel is refused while its create or another cancel of it is pending |
| OffersTheorems.EveryRunFunded | core/node-bin/src/drc_offer_admit.rs:52-146 | on every run over a fixed store, recorded charges stay within the balance, and pending issued units with those reserved stay within the line unless the line is the largest amount |
| OffersTheorems.LineFundedIff | core/node-bin/src/drc_offer_admit.rs:70-98 | every run keeps reserved plus pending issued units within the line if and only if the line is below 2^64 - 1, nothing is reserved on the book, or the holder cannot pay the minimum fee (or no units can be reserved at all) |
| OffersTheorems.OverfullIssuedOfferAdmitted | core/node-bin/src/drc_offer_admit.rs:88-91 | otherwise one offer of 2^64 - 1 units at the minimum fee is admitted and exceeds the line |
| OffersTheorems.ExactlyFundedIff | core/node-bin/src/drc_offer_admit.rs:119-124 | on every run, unsaturated fees plus native units are within the balance if and only if no pending operation alone needs more than 64 bits |
| OffersTheorems.FundedBelowMaximum | core/node-bin/src/drc_offer_admit.rs:119-146 | so they always are when the balance is below 2^64 - 1 |
| OffersTheorems.NativeFundedIff | core/node-bin/src/drc_offer_admit.rs:52-68 | every run keeps an owner's fees plus native units within the balance if and only if the balance is below 2^64 - 1 |
| OffersTheorems.OverfullOfferAdmitted | core/node-bin/src/drc_offer_admit.rs:119-124 | at balance 2^64 - 1 one offer above 64 bits, at the minimum fee or one, is admitted |
| OffersTheorems.ChainFundedIff | core/node-bin/src/backend.rs:3029-3035 | for every chain of stores: all runs of admissions, removals and blocks through it keep the pending operations jointly funded throughout if and only if no block lowers a balance that pays the minimum fee or a positive line headroom of a holder who pays it, and each store alone keeps its lines funded |
| OffersTheorems.RevalidationFundedIff | core/node-bin/src/drc_offer_admit.rs:18-50 | for every two stores: what revalidation keeps one by one is jointly funded after every run if and only if each balance does not fall, pays for no operation at the minimum fee, or paid for at most one; and each line headroom covers all that could be pending, covers no unit, or belongs to an issuer or to a holder whose balance pays for no operation or paid for at most one |
| OffersTheorems.BreakingPair | core/crates/state-machine/src/drc_offer.rs:470-505 | otherwise two offers that the old store admits together each apply to the new store alone and exceed it together |
| RateLimiter.RateLimiter.constructor | core/node-bin/src/http.rs:25-29 | no windows |
| RateLimiter.RateLimiter.Allow | core/node-bin/src/http.rs:31-46 | the answer and the whole new window map; a zero limit changes nothing |
| RateLimiter.OthersDoNotInterfere | core/node-bin/src/http.rs:31-46 | on every trace an IP's window and answers depend on its own calls alone |
| RateLimiter.WindowBound | core/node-bin/src/http.rs:36-44 | the minute from any call that opened a window holds at most `limit` accepts |
| RateLimiter.TraceBound | core/node-bin/src/http.rs:31-46 | on every trace with non-decreasing times, any half-open minute holds at most 2 * limit - 1 accepts of an IP |
| RateLimiter.MinuteBoundReached | core/node-bin/src/http.rs:31-46 | and for every limit some trace reaches that number |
| RateLimiter.RollingMinuteIff | core/node-bin/src/http.rs:20-46 | the limit holds for every rolling minute of every trace if and only if it is one |
| EvmTemplate.TakeFrom | core/node-bin/src/backend.rs:1530-1553 | one source: the first envelopes under the limit that pass the gas check and were not seen |
| EvmTemplate.AppendLocalEvmExecutions | core/node-bin/src/backend.rs:1517-1556 | the signed executions stay a prefix; inbox then gossip envelopes follow; nothing on mainnet or in an inactive world |
| EvmTemplate.MergeGuarantees | core/node-bin/src/backend.rs:1517-1556 | the limit of 128 is kept when the signed executions keep it; every added payload passes the gas check; none is added twice when each source has no duplicates; none that passes is left out while there is room |
| EvmTemplate.InboxFirst | core/node-bin/src/backend.rs:1517-1556 | the added payloads are some of the inbox in its order, then some of gossip in its order, and gossip gets room only when all of the inbox that passes is in |

## Left out

- The DRC ledger transition functions, GHOSTDAG, finality journals and reorgs: state application is an arbitrary predicate.
- Escrow, check, channel and trust line settlement reservations of the pool, fee-market replacement and persistence: further sets kept beside the slots in the same way.
- Settlement checks of escrow and check operations against a pending create: part of whether an operation applies.
- Pool size: whether the pool is full is a parameter of each admission, since it counts lanes that are not modelled.
- Mutex poisoning by a panicking thread, and the boot sequence before the network task starts.
- The limiter's guard is held while a refused client is sent its answer (`core/node-bin/src/http.rs:86-101`): that maximal runs finish assumes that this write ends.
- RPC getters that read only the store, and JSON shaping: they take no guard beyond the dispatcher (`StoreOnly`).
- secp256k1, SHA-256, Keccak, BIP-39/44, Bech32m and hexadecimal parsing of addresses and hashes: keys, digests and byte strings are inputs.
- Chain id strings are their UTF-8 bytes; non-ASCII white space and case folding in transaction ids are not modelled.
- Bodies of the community, passport, treasury and vesting lanes: separation is proved for arbitrary bodies under their domains.
- Byte strings of 2^32 bytes or more in a Borsh field and RLP payloads of 2^64 bytes or more, which no caller can build.
- Coin values are natural numbers, and sums of coin values above 2^53 - 1, where JavaScript numbers lose precision, are exact here.
- Lists of 2^31 or more transaction ids, where the source's 32-bit `idx ^ 1` would turn negative.
- CoinSelectTheorems.BuildTransfer: does not model address parsing or signing, which do not affect the amounts.
- EvmTemplate.AppendLocalEvmExecutions: does not model reading the world from the store; whether the path is enabled is a parameter.
- OffersTheorems.RevalidationFundedIff: does not model crossing; an offer stays when the fee and all its units can be paid, as one that nothing on the book crosses must (`core/crates/state-machine/src/drc_offer.rs:470-505`).
- Offers.OfferLanes.Revalidate: does not model that creates are visited before cancels; each operation is judged alone, so the order does not matter.
- Mempool.Mempool.EvictForBlock: does not model how the block's policies decide which payments they forbid; that set is a parameter.

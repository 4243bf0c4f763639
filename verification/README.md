# Verified model of the sting system

The repository catches block builders that leak private transactions. A modified builder keeps its
transaction pool and bundle list, a searcher's enclave proves that transactions are in a block and
signs evidence, and a contract pays a bounty for it. This project models the four parts of it whose
logic is hardest, and proves what they are meant to do:

- **The transaction pool** of the builder. `PoolState` and its companions describe each operation on
  a value that holds both lists of every account, the lookup table, the virtual nonces and the
  heartbeats; `PoolRuns` describes all runs, `PoolExecutable` what is pending in them, `PoolGaps` and
  `PoolBackwards` exactly when a reorg leaves or notices a gap. `PoolAdmission`, `PoolVictims`,
  `PoolPromotion` and `PoolDemotion` say transaction by transaction what is admitted, displaced,
  promoted, demoted and forgotten, in terms of nonces, prices, balances and sums, `PoolReorgs` how a
  reorg ends, and `PoolFloor` that remote transactions keep to the gas price in every run. `TransactionPool.TxPool` is the pool as
  the program keeps it, fields updated in place by methods with loops, and every method is proved equal to
  its counterpart on the value, so that what is proved about runs holds of the object. `ReorgLoop` is
  the background scheduler as a system of interleaving goroutines, `ReorgWalk` the walk between two heads
  whose outcome is the `Head` of a reorg, `ReorgBranches` what that means for the blocks of the two
  branches, and `Bundles` with `BundleLaws` the bundle list and what is asked of it. `Reorgs` puts
  walk, reset, promotion and events (`TxEvents`) together.
- **Merkle-Patricia proofs**: RLP with its decoder (`Rlp`), the trie with its canonical construction
  and its nodes (`Tries`), its updates (`TrieUpdates`), generator and verifier (`TrieProofs`), what an
  answer or silence means (`ProofSoundness`), what becomes of generated and truncated proofs
  (`ProofCompleteness`), the tries of blocks (`BlockProofs`), and the blob that is checked against
  nothing but a block's hash (`TxProofs`). `TrieFormats`, `ProofWalks` and `BlobLaws` say nibble by
  nibble, node by node and item by item what is read. Nothing is assumed of the hash function: where a
  collision could make a proof wrong, the theorem exhibits it.
- **Field, curve and signature arithmetic**: integers modulo a prime (`Congruences`, `Euclid`,
  `Primes`), polynomials and the fields they make (`Polynomials`, `PolynomialFields`, `FiniteFields`,
  `ExtensionFields`), points (`Curves`, `ScalarMultiples`), point encodings (`SquareRoots`,
  `ByteStrings`, `PointEncoding`) and signatures (`Ecdsa`; sections 4.1.3, 4.1.4 and 4.1.6 of SEC 1).
  `CurveLaws`, `EncodingLaws` and `SignatureLaws` characterise sums, encodings and signatures exactly.
  `SmallCurve` is a curve with signatures for which all hypotheses of the signature theorems hold
  together, and `OddOrder` says what the odd order of the concrete curve means for its encodings.
- **The contract** (`Bounty`) and the RLP decoder it uses, which walks pointers over memory
  (`RlpReader`; the encoding is that of appendix B of the Ethereum Yellow Paper). `BountyLaws` says for
  which bytes, signatures and earlier steps it pays.

What comes from outside is a parameter or a choice of the environment: time, chain state and heads,
the answers of the price heaps, the order in which maps are visited, heartbeat ties, the bundle
database, hash functions, `ecrecover` and block hashes.

Hypotheses that are not proved here are explicit in the statements that need them: that the curve's
addition is associative and its base point has odd prime order (`Ecdsa.Sound`,
`ScalarMultiples.IsGroup`), that this order takes every point to the ideal one, where recovery is
concerned (`SignatureLaws.Whole`; `SmallCurve` satisfies all of these), that an odd number takes every
point of the concrete curve to the ideal one (`OddOrder.OddOrder`), that moduli are prime, and that a
modulus polynomial is irreducible.

Where the code differs from what its comments or its purpose suggest, the code is followed:

- a head that takes a chain nonce back by two or more can leave a gap in a pending list, and one that
  takes a nonce back at all can make the demotion take the branch that is logged as an error; neither
  happens otherwise, nor when a head has no room for even a plain transaction
  (`PoolBackwards.NoGapExactly`, `PoolBackwards.NoGapNoticedExactly`), and for one
  reorg `PoolRuns.ResetGapsExactly` decides it account by account;
- the verifier reads a node's path from its RLP encoding, so that only paths of one compact byte are
  recognised; in blocks of up to 256 transactions this refuses the proof of a block's only transaction
  and that of the last of 129 (`BlockProofs.SmallBlocksExactly`);
- `shared_prefix_length` returns the whole length of the node's path when the key runs out first, so
  that a key that lacks the one nibble of a leaf is answered with the leaf's value
  (`ProofCompleteness.ShortKeyAccepted`, `ProofCompleteness.RefusedExactly`); no key of a block's trie
  is of this kind;
- a stack that is cut short is silent like one that excludes a key, and only its last node tells the
  difference (`ProofSoundness.SilenceSound`, `ProofCompleteness.TruncatedExactly`);
- transactions that start with their type are put into proofs but never verified
  (`TxProofs.TypedNeverVerified`);
- a string with the odd sign for a point whose root is zero is decoded, but the point is encoded with
  the even sign (`PointEncoding.DeserCanonical`, `PointEncoding.WrongSignOccurs`); the concrete curve,
  whose order is odd, has no such point (`OddOrder.ConcreteCanonical`);
- `ecdsa_raw_recover` reduces a coordinate above the modulus and finds a key, under which
  `ecdsa_raw_verify`, which compares the coordinate as it is, refuses the signature
  (`SignatureLaws.RecoverThenVerify`, `SmallCurve.LargeCoordinate`);
- `ecdsa_raw_sign` does not reduce the coordinate modulo the order; the theorems about signatures hold
  for coordinates above the order too.

## Model

| member | source | states |
|---|---|---|
| `PoolRuns.InvInEveryRun` | builder/geth/txpool.go:1303-1350 | In every state of every run of additions, price changes, evictions and reorgs, the lookup table is exactly the disjoint union of the pending and queued lists, no account has a nonce in both, lists are non-empty and sorted, and every queued account has a heartbeat |
| `PoolExecutable.ExecutableInEveryRun` | builder/geth/txpool.go:825-908 | In every state of every run, whatever heads there were, each pending transaction has its intrinsic gas, fits the gas limit of the head and is within its sender's balance there |
| `PoolExecutable.ReorgPooled` | builder/geth/txpool.go:1455-1533 | Whatever is in the pool after a reorg was there before, or has been reinjected and has its intrinsic gas |
| `PoolFloor.FloorInEveryRun` | builder/geth/txpool.go:868-870 | In every state of every run each transaction on the remote side of the table has at least the gas price of the moment, however that was raised and lowered, and belongs to no local account; reinjection and migration included |
| `PoolAdmission.AdmittedExactly` | builder/geth/txpool.go:914-1037 | For any pool that keeps the invariant and any answer of the price heaps, a transaction is admitted exactly if it is new, has its intrinsic gas and fits the gas limit, has at least the gas price or is local, is not below the chain nonce, is covered by the balance together with the sender's other pending transactions, finds room or may make it, and outbids whatever has its nonce by the percentage |
| `PoolAdmission.AnswersExactly` | builder/geth/txpool.go:825-1037 | Every verdict, as the first of the reasons that applies, in terms of what is listed and of sums over it; or that the transaction replaced one or not |
| `PoolAdmission.AddedExactly` | builder/geth/txpool.go:995-1036 | What an addition leaves: the lists, the side of the table of every transaction, local accounts and heartbeats, and nothing else; or the old pool, less the victims if only the last check failed |
| `PoolAdmission.BatchExactly` | builder/geth/txpool.go:1252-1264 | In a batch each transaction gets the verdict of its own, from the pool that those before it have left |
| `PoolVictims.VictimsExactly` | builder/geth/txpool.go:986-993 | Making room forgets exactly the victims; what is pending above one of them is queued again, virtual nonces come down to the lowest removed one, and the pool counts every transaction that is no longer pending |
| `PoolInvariant.NoSharedNonce` | builder/geth/txpool.go:1316-1347 | Looking at `pending` before `queue` when removing by nonce is right: a nonce is never in both lists of an account |
| `PoolPreservation.DropKeepsInv` | builder/geth/txpool.go:986-993 | Kicking out a victim keeps the invariant, whatever `enqueueTx` answers for the transactions it postpones |
| `PoolPreservation.PlaceKeepsInv` | builder/geth/txpool.go:995-1036 | Overwriting a pending transaction, or enqueueing and possibly marking the sender local, keeps the invariant |
| `PoolPreservation.PromoteAccountKeepsInv` | builder/geth/txpool.go:1630-1691 | One account's promotion (forward, filter, promote, cap) keeps the invariant although the promoted transactions are in no list for a while |
| `PoolPromotion.PromotionExactly` | builder/geth/txpool.go:1630-1691 | After a promotion of any accounts pending is what was and what is ready: live, and reached without a gap from a lowest live nonce that is not above the virtual one; of the other live transactions a remote account keeps the lowest nonces up to its bound, a local one all |
| `PoolPromotion.PromotedNonce` | builder/geth/txpool.go:1648-1654 | The virtual nonce is right above the highest promoted nonce, and stays if nothing was promoted |
| `PoolPromotion.PromotedBeats` | builder/geth/txpool.go:1648-1688 | The heartbeat is renewed exactly if something was promoted, and goes exactly if nothing is left in the queue; nobody else's changes |
| `PoolPromotion.ReorgPromotesExactly` | builder/geth/txpool.go:1455-1533 | The same of the promotion of every queued account in a reorg with a reset |
| `PoolPreservation.DemoteAccountKeepsInv` | builder/geth/txpool.go:1832-1882 | One account's demotion keeps the invariant: what it postpones never meets an occupied nonce in the queue |
| `PoolDemotion.DemotionExactly` | builder/geth/txpool.go:1832-1882 | A demotion pass forgets exactly what is pending below the chain nonce or not covered by balance and gas limit; pending stays exactly what is covered down to the chain nonce, with a transaction there; all else that was pending is queued |
| `PoolDemotion.ReorgDemotesExactly` | builder/geth/txpool.go:1455-1533 | The same of the demotion in a reorg, after its promotion |
| `PoolReorgs.ReorgEnds` | builder/geth/txpool.go:1455-1533 | Every reorg leaves the pool at the new head, pending within the limit or every remote account within its guarantee, queued within the limit or nothing but local accounts queued, and the changes counted from zero; price, local accounts and configuration stay |
| `PoolInvariant.RemovePending` | builder/geth/txpool.go:1316-1339 | Removing a pending transaction moves exactly the higher nonces of that account to the queue and forgets only the removed one |
| `PoolInvariant.RemoveQueued` | builder/geth/txpool.go:1340-1347 | Removing a queued transaction takes just it out of its list, and the heartbeat with the last one |
| `PoolRuns.ContiguousInEveryRun` | builder/geth/txpool.go:1455-1533 | In every run whose heads never take a nonce back by two or more, every pending list is at all times the gap-free run of nonces from the chain nonce, ending right below the virtual nonce |
| `PoolRuns.GapBranchIsDead` | builder/geth/txpool.go:1865-1876 | In such runs a reorg whose head takes no nonce back never takes the branch that the code logs as an error |
| `PoolRuns.ResetReorgContiguous` | builder/geth/txpool.go:1471-1505 | After a head that takes no nonce back by two or more, reset, promotion of all accounts, demotion and settling the nonces together close every gap, whatever is reinjected |
| `PoolRuns.ResetGapsExactly` | builder/geth/txpool.go:1471-1505 | For one reset of a gap-free pool, whatever the heads: the error branch is taken, or a gap is left, exactly if for some account after the reinjection the nonce fell, the first pending transaction is still payable, and the payable queue does not hold the chain nonce, or holds it but not every nonce up to the pending list |
| `PoolGaps.GapExactly` | builder/geth/txpool.go:1832-1882 | The same for one account, from what its promotion and demotion do |
| `PoolBackwards.NoGapExactly` | builder/geth/txpool.go:1471-1505 | No reorg that can happen from one head to another, of any pool that a run reaches, leaves a gap exactly if no account's nonce falls by two or more or one of the heads has no room for a plain transaction |
| `PoolBackwards.NoGapNoticedExactly` | builder/geth/txpool.go:1865-1876 | No reorg that can happen from one head to another takes the error branch exactly if no account's nonce falls or one of the heads has no room for a plain transaction |
| `PoolBackwards.DeepFallLeavesGap` | builder/geth/txpool.go:1832-1882 | For any two heads with room between which an account's nonce falls by two or more, a pool that a run reaches and a reinjection that end in a gap |
| `PoolBackwards.FallIsNoticed` | builder/geth/txpool.go:1865-1876 | For any two heads with room between which an account's nonce falls, a pool that a run reaches whose demotion takes the error branch |
| `PoolBackwards.BeforeIsReached` | builder/geth/txpool.go:1218-1264 | That pool comes about by adding one plain transaction of a local account and promoting it |
| `PoolTruncation.WaterFilling` | builder/geth/txpool.go:1696-1778 | An over-full pending pool is levelled to the one water level there is: remote accounts keep their lowest nonces up to it, locals keep everything, queues are untouched |
| `PoolTruncation.WaterLevelUnique` | builder/geth/txpool.go:1730-1778 | There is at most one level that is at least the guarantee, fits the limit unless it is the guarantee, and above which nothing fits |
| `PoolTruncation.LimitOrGuarantee` | builder/geth/txpool.go:1753-1776 | Afterwards the limit holds, or no remote account is above its guaranteed slots |
| `PoolLevelling.PassEnd` | builder/geth/txpool.go:1730-1748 | A pass that takes one transaction from every offender lowers the common level by exactly one |
| `PoolLevelling.PopLargest` | builder/geth/txpool.go:1716-1724 | The next offender is the longest list left, everybody above it has been popped, and the earlier offenders are all at the level |
| `PoolLevelling.ReachedWaterLevel` | builder/geth/txpool.go:1730-1776 | The level where the loops stop is the water level |
| `PoolTruncation.QueueLimit` | builder/geth/txpool.go:1781-1823 | An over-full queue ends at the limit, or at what the locals have queued if that is more; pending lists and virtual nonces are unchanged; an account loses transactions only after every older remote account has lost all of its own |
| `PoolTruncation.DropQueueSize` | builder/geth/txpool.go:1799-1822 | Exactly the overflow is dropped, or everything the remote accounts have |
| `PoolTruncation.RemoveFront` | builder/geth/txpool.go:1808-1812 | `removeTx` on the lowest remaining queued nonce removes it and nothing else |
| `PoolTruncation.RemoveBack` | builder/geth/txpool.go:1817-1821 | `removeTx` on the highest remaining queued nonce removes it and nothing else |
| `PoolRuns.EvictExact` | builder/geth/txpool.go:422-438 | Evicting expired accounts empties exactly their queues, with their heartbeats, and leaves every pending list and virtual nonce alone |
| `PoolVictims.SilentExactly` | builder/geth/txpool.go:422-438 | A tick of the eviction clock keeps exactly the queued transactions of local accounts and of those whose heartbeat is at most the lifetime ago, and exactly their heartbeats |
| `PoolVictims.PricedExactly` | builder/geth/txpool.go:488-505 | A raised price removes exactly the remote transactions with a lower tip, and no other price removes any |
| `Transactions.Defaults` | builder/geth/txpool.go:205-244 | A limit that is set is kept, and one that is not has its default |
| `TransactionPool.Lookup.Add` | builder/geth/txpool.go:2076-2088 | The table gains the transaction on its side and the slots are counted whether or not the hash is new; for a new hash the count stays the sum of the members' slots |
| `TransactionPool.Lookup.Remove` | builder/geth/txpool.go:2091-2108 | The hash leaves both sides, unknown hashes change nothing, and the slot count stays exact |
| `TransactionPool.Lookup.RemoteToLocals` | builder/geth/txpool.go:2112-2125 | Exactly the remote transactions of local accounts change sides, and their number is returned |
| `TransactionPool.Lookup.RemotesBelowTip` | builder/geth/txpool.go:2128-2137 | The result is exactly the remote transactions below the threshold |
| `TransactionPool.TxPool.EnqueueTx` | builder/geth/txpool.go:1056-1091 | Queue, heartbeat, lookup table and both answers are those of the specification, including the refusal of an insufficient price bump |
| `TransactionPool.TxPool.PromoteTx` | builder/geth/txpool.go:1109-1139 | Pending list, virtual nonce, heartbeat and lookup table are those of the specification; a refused transaction is forgotten |
| `TransactionPool.TxPool.RemoveTx` | builder/geth/txpool.go:1303-1350 | The pool stays valid and is exactly the specified one; the count is the number of pending transactions displaced |
| `TransactionPool.TxPool.AddTx` | builder/geth/txpool.go:914-1037 | Every verdict and the whole new pool are those of the specification, for any answer of the price heaps |
| `TransactionPool.TxPool.AddTxsLocked` | builder/geth/txpool.go:1252-1264 | A batch is the transactions one after the other, with the verdicts of the specification; the dirty accounts are exactly the senders of those that were added without replacing one |
| `TransactionPool.TxPool.PromoteExecutables` | builder/geth/txpool.go:1630-1691 | The pool is the specified one and the result is exactly what is pending now and was not before |
| `TransactionPool.TxPool.DemoteUnexecutables` | builder/geth/txpool.go:1832-1882 | Every pending account is demoted once, in some order, and the pool is the specified one |
| `TransactionPool.TxPool.CapEach` | builder/geth/txpool.go:1730-1748 | The inner loop takes the pool from one common level to the next lower one, with an exact total |
| `TransactionPool.TxPool.Lower` | builder/geth/txpool.go:1727-1750 | The middle loop stops at the limit or at the threshold, at a level above which nothing fits |
| `TransactionPool.TxPool.TruncatePending` | builder/geth/txpool.go:1696-1778 | The nested loops end, and in exactly the water-filled pool |
| `TransactionPool.TxPool.NewestFirst` | builder/geth/txpool.go:1790-1797 | The addresses are the queued remote accounts, newest heartbeat first |
| `TransactionPool.TxPool.TruncateQueue` | builder/geth/txpool.go:1781-1823 | Removing transactions one by one drops whole accounts by age and then the highest nonces of one |
| `TransactionPool.TxPool.Evict` | builder/geth/txpool.go:422-438 | Deleting while iterating evicts each account that was expired at the start, and no other |
| `TransactionPool.TxPool.SetGasPrice` | builder/geth/txpool.go:488-505 | A raised price removes exactly the remote transactions below it; a lowered one removes nothing |
| `TransactionPool.TxPool.RunReorg` | builder/geth/txpool.go:1455-1533 | Reset, promotion, demotion, nonces and both limits happen in this order, with every account visited after a reset; stale events are discarded after a reset, and announced is what the remaining events and the promotion make of each other |
| `TxEvents.AnnouncedExactly` | builder/geth/txpool.go:1516-1532 | Announced are exactly the public promoted transactions and the public events that no promoted transaction of the same sender and nonce replaces |
| `ReorgLoop.OneRunAtATime` | builder/geth/txpool.go:1385-1452 | Over every interleaving at most one reorg is running, and none after the loop has stopped |
| `ReorgLoop.DoneMeansCovered` | builder/geth/txpool.go:1354-1372 | A returned channel is closed only after the run it stands for has finished, and that run covers the request; the one exception is the channel closed by shutdown |
| `ReorgLoop.CoveredByALaterRun` | builder/geth/txpool.go:1412-1430 | The run that covers a request is one that had not been started when the request was accepted |
| `ReorgLoop.ReplyReachesItsClient` | builder/geth/txpool.go:1357-1368 | The reply on the shared channel can only reach the caller whose request was accepted, and there always is one |
| `ReorgLoop.ResetsTileTheHeads` | builder/geth/txpool.go:398-402 | The resets of the launched runs tile the sequence of heads: each starts where the last ended, and the pending one carries the rest |
| `ReorgLoop.RunsAreRequested` | builder/geth/txpool.go:1398-1410 | Every run was asked for; an account is dirty in it exactly if one of the promotion requests it answers names the account |
| `ReorgLoop.EventsDeliveredOnce` | builder/geth/txpool.go:1432-1440 | A run is handed exactly the events that were queued for it, the first run launched after them, without those that a later one of the same sender and nonce replaced |
| `ReorgLoop.NoRequestIsStuck` | builder/geth/txpool.go:1354-1452 | While an accepted request is unanswered some step of the scheduler, the active run or the holder of the mutex is possible, although the latter two send events that the scheduler must receive; and every such step leaves less work before the answer |
| `ReorgLoop.WorkEnds` | builder/geth/txpool.go:1385-1452 | Work cannot grow less forever, however many events the holders of the mutex have to send |
| `ReorgLoop.NobodyWaitsInVain` | builder/geth/txpool.go:1354-1381 | A goroutine that waits for the scheduler can be served or give up at once, or some step of the scheduler, the run or the holder of the mutex is possible |
| `ReorgWalk.FindMeeting` | builder/geth/txpool.go:1571-1596 | The walk ends at the highest common ancestor with exactly the transactions above it, and reports an unrooted chain exactly when there is no common ancestor |
| `ReorgWalk.Reinjection` | builder/geth/txpool.go:1541-1598 | What is put back is exactly what the abandoned branch has and the adopted one lacks; every early exit is characterised |
| `ReorgBranches.PutBackExactly` | builder/geth/txpool.go:1541-1598 | Put back is exactly what is in a block that only the old head descends from, unless it is also in one that only the new head descends from; for heads that are at most 64 blocks apart, not parent and child, stored, and have a common ancestor |
| `ReorgBranches.DifferencePicks` | builder/geth/txpool.go:1597-1598 | What is put back comes in the order in which the walk met it, each as often as it was met |
| `ReorgBranches.RefusesExactly` | builder/geth/txpool.go:1541-1598 | Exactly when the reset gives up, and when it meets a block that is not there |
| `ReorgWalk.SharedBelow` | builder/geth/txpool.go:1585-1596 | Below the meeting point the branches are one, above it they share no block |
| `ReorgWalk.TxDifference` | builder/geth/txpool.go:1597 | The difference keeps order and drops exactly the hashes that occur in the other list |
| `Reorgs.OnlyAbandonedReturn` | builder/geth/txpool.go:1538-1618 | Whatever is new in the pool after a reorg between two heads is a transaction of the abandoned branch that the adopted branch does not include |
| `Reorgs.ResetBetween` | builder/geth/txpool.go:1536-1618 | The reset that happens is the one that the outcome of the walk calls for, with the early exits and the missing state |
| `Reorgs.RunAnnounces` | builder/geth/txpool.go:1476-1532 | A run announces exactly the public transactions that it made pending and the public events of its batch that are neither overtaken by the reset nor replaced by a promoted transaction |
| `Reorgs.BatchAnnounces` | builder/geth/txpool.go:1432-1440 | This holds for every batch that the scheduler hands to a run in any of its traces |
| `Bundles.PruningIsInvisible` | builder/geth/txpool.go:669-720 | If every earlier question was safe for this one, the answer is what all bundles ever submitted would give, unpruned |
| `Bundles.AnswerIsExact` | builder/geth/txpool.go:669-720 | With blocks and timestamps that do not go back, the answer is exactly the in-time bundles: regular ones in order of submission, replaceable ones all offered under their identifier and signer |
| `BundleLaws.AnsweredExactly` | builder/geth/txpool.go:669-720 | After any run whose earlier questions were about no later block or time, the answer picks from everything ever submitted, in order and once per submission, exactly the bundles for the block whose time window holds the time, by slot if they have an identifier; held afterwards is exactly what is for this block or a later one and has not run out |
| `Bundles.SafeExactly` | builder/geth/txpool.go:684-687 | Pruning at one moment is harmless for a later question exactly when the block does not go back and the time does not, or was at most one |
| `Bundles.BundlePool.MevBundles` | builder/geth/txpool.go:683-711 | One pass answers and prunes: the answer and the bundles kept are those of the specification |
| `Bundles.ResolveCancellableBundles` | builder/geth/txpool.go:628-664 | Each entry of the bundle database selects, in order, the first offered bundle with its hash, and nothing else is returned |
| `BundleLaws.SelectedExactly` | builder/geth/txpool.go:628-664 | An entry of the database selects exactly the first offered bundle of its slot that has its hash |
| `Euclid.Gcd` | searcher/src/enclave/lib/commitment/elliptic_curves_finite_fields/finitefield/euclidean.py:4-12 | The loop ends at a common divisor that every common divisor divides, for integers of any sign |
| `Euclid.ExtendedEuclid` | searcher/src/enclave/lib/commitment/elliptic_curves_finite_fields/finitefield/euclidean.py:19-34 | The coefficients combine the inputs to a greatest common divisor, for integers of any sign and order |
| `Primes.Fermat` | searcher/src/enclave/lib/commitment/secp256k1.py:80-87 | Fermat's little theorem, proved by permuting the nonzero residues |
| `Primes.NoZeroDivisors` | searcher/src/enclave/lib/commitment/elliptic_curves_finite_fields/finitefield/modp.py:31-33 | A product vanishes modulo a prime only if a factor does |
| `FiniteFields.ModInverse` | searcher/src/enclave/lib/commitment/elliptic_curves_finite_fields/finitefield/modp.py:51-59 | The inverse exists exactly for residues coprime to the modulus, and then multiplies to one |
| `FiniteFields.PrimeFieldInverse` | searcher/src/enclave/lib/commitment/elliptic_curves_finite_fields/finitefield/modp.py:51-59 | Modulo a prime everything but zero has an inverse |
| `FiniteFields.PowerMod` | searcher/src/enclave/lib/commitment/elliptic_curves_finite_fields/finitefield/numbertype.py:52-68 | Square and multiply is n-fold multiplication; for negative exponents the loop does not run |
| `Polynomials.TimesAssociates` | searcher/src/enclave/lib/commitment/elliptic_curves_finite_fields/finitefield/polynomial.py:82-92 | Polynomial multiplication is associative |
| `Polynomials.TimesCommutes` | searcher/src/enclave/lib/commitment/elliptic_curves_finite_fields/finitefield/polynomial.py:82-92 | Polynomial multiplication is commutative |
| `PolynomialFields.StripZeros` | searcher/src/enclave/lib/commitment/elliptic_curves_finite_fields/finitefield/polynomial.py:10-17 | The loop drops exactly the trailing zeros |
| `PolynomialFields.Multiply` | searcher/src/enclave/lib/commitment/elliptic_curves_finite_fields/finitefield/polynomial.py:82-92 | The double loop over a coefficient buffer computes the product of the polynomials in normal form |
| `PolynomialFields.DivMod` | searcher/src/enclave/lib/commitment/elliptic_curves_finite_fields/finitefield/polynomial.py:96-109 | Long division ends with quotient and remainder, the remainder of lower degree, for every divisor but zero |
| `PolynomialFields.DivisionUnique` | searcher/src/enclave/lib/commitment/elliptic_curves_finite_fields/finitefield/polynomial.py:96-109 | Quotient and remainder over a prime field are unique |
| `FiniteFields.PolyExtendedEuclid` | searcher/src/enclave/lib/commitment/elliptic_curves_finite_fields/finitefield/euclidean.py:19-34 | Bezout coefficients over Z/p, for polynomials in any order, with a common divisor |
| `ExtensionFields.ElementInverse` | searcher/src/enclave/lib/commitment/elliptic_curves_finite_fields/finitefield/finitefield.py:98-106 | The inverse is found exactly when there is one; with an irreducible modulus every element but zero has one |
| `ExtensionFields.RemUnique` | searcher/src/enclave/lib/commitment/elliptic_curves_finite_fields/finitefield/finitefield.py:66-76 | Residues of lower degree that are congruent modulo the polynomial are equal |
| `ExtensionFields.PowMod` | searcher/src/enclave/lib/commitment/elliptic_curves_finite_fields/finitefield/numbertype.py:72-88 | The result is congruent to the plain power modulo the polynomial, and is the start value for negative exponents; reduction by zero fails, but only from exponent two on |
| `Curves.Closed` | searcher/src/enclave/lib/commitment/elliptic_curves_finite_fields/elliptic.py:56-80 | For all points of a curve over an odd prime field the sum exists and is on the curve: neither the division nor the constructor's check can fail |
| `Curves.AddCommutes` | searcher/src/enclave/lib/commitment/elliptic_curves_finite_fields/elliptic.py:56-80 | Addition commutes |
| `Curves.InverseCancels` | searcher/src/enclave/lib/commitment/elliptic_curves_finite_fields/elliptic.py:52-53 | A point and its negation add up to the ideal point |
| `Curves.NegateAdd` | searcher/src/enclave/lib/commitment/elliptic_curves_finite_fields/elliptic.py:52-80 | The negation of a sum is the sum of the negations |
| `Curves.ThirdRoot` | searcher/src/enclave/lib/commitment/elliptic_curves_finite_fields/elliptic.py:77-80 | The third intersection of a line with the curve is where the formula puts it |
| `CurveLaws.AddExactly` | searcher/src/enclave/lib/commitment/elliptic_curves_finite_fields/elliptic.py:56-80 | The sum of two points is ideal exactly for opposite ones, and otherwise exactly the mirror image of the third root of the curve on a line through both, or touching it in the one, where roots count as often as they occur |
| `ScalarMultiples.Scale` | searcher/src/enclave/lib/commitment/elliptic_curves_finite_fields/elliptic.py:86-107 | Double-and-add is n-fold addition, with the sign rule for negative n, given associativity |
| `ScalarMultiples.Mult` | searcher/src/enclave/lib/commitment/secp256k1.py:180-193 | The halving variant with a table of doublings computes the same multiple for every positive n, and nothing otherwise |
| `ScalarMultiples.TimesMul` | searcher/src/enclave/lib/commitment/elliptic_curves_finite_fields/elliptic.py:86-107 | Multiples of multiples multiply |
| `ScalarMultiples.MultiplesAdd` | searcher/src/enclave/lib/commitment/elliptic_curves_finite_fields/elliptic.py:86-107 | Multiples by any two integers, negative ones included, add up to the multiple by their sum |
| `SquareRoots.SqrtExact` | searcher/src/enclave/lib/commitment/secp256k1.py:80-87 | The power is a square root exactly when there is one, modulo any prime that is 3 modulo 4 |
| `SquareRoots.RootsAreMirrors` | searcher/src/enclave/lib/commitment/secp256k1.py:90-94 | Two roots of a number are equal or negatives of each other |
| `ByteStrings.Uint256ToStr` | searcher/src/enclave/lib/commitment/secp256k1.py:65-72 | Masking and packing eight words gives the 32 little-endian bytes; larger numbers are refused |
| `ByteStrings.Uint256FromStr` | searcher/src/enclave/lib/commitment/secp256k1.py:57-63 | Unpacking and shifting eight words gives the number of the first 32 bytes |
| `PointEncoding.SolveExact` | searcher/src/enclave/lib/commitment/secp256k1.py:95-104 | A point over x is found exactly when the right-hand side is a square, and it is the one with the odd root |
| `PointEncoding.SerRoundTrip` | searcher/src/enclave/lib/commitment/secp256k1.py:113-133 | Every affine point of the curve is recovered from its encoding |
| `PointEncoding.SerInjective` | searcher/src/enclave/lib/commitment/secp256k1.py:113-121 | Different points have different encodings |
| `EncodingLaws.SerExactly` | searcher/src/enclave/lib/commitment/secp256k1.py:113-121 | A point is encoded exactly if it solves the equation, and its string spells abscissa and parity |
| `EncodingLaws.DeserExactly` | searcher/src/enclave/lib/commitment/secp256k1.py:123-133 | A string is decoded to a point exactly if it spells 33 bytes with a valid sign and the abscissa and parity of that point, which is on the curve |
| `PointEncoding.DeserCanonical` | searcher/src/enclave/lib/commitment/secp256k1.py:123-133 | A decoded string encodes back to itself exactly unless its sign digit stands for an odd root and the right-hand side at its coordinate is zero |
| `PointEncoding.WrongSignOccurs` | searcher/src/enclave/lib/commitment/secp256k1.py:123-133 | Such strings exist exactly for the moduli in which the right-hand side has a zero |
| `OddOrder.NothingOnAxis` | searcher/src/enclave/lib/commitment/secp256k1.py:33-46 | A curve of odd order, as the concrete one is said to be, has no point with a zero root |
| `OddOrder.ConcreteCanonical` | searcher/src/enclave/lib/commitment/secp256k1.py:123-133 | So every string that is decoded modulo the concrete modulus encodes back to itself |
| `SmallCurve.OddSignOfZero` | searcher/src/enclave/lib/commitment/secp256k1.py:123-133 | Modulo seven one such string, which is decoded and does not encode back to itself |
| `PointEncoding.CompressRoundTrip` | searcher/src/enclave/lib/ecdsa/ecdsa.py:64-90 | Every key on the curve survives compression and decompression |
| `PointEncoding.DecompressExact` | searcher/src/enclave/lib/ecdsa/ecdsa.py:73-90 | Decompressing gives a curve point exactly when the coordinate has one; the code does not check |
| `Ecdsa.SignThenRecover` | searcher/src/enclave/lib/ecdsa/ecdsa.py:109-172 | For every message, key and nonce with a usable signature, recovery returns exactly the signer's public key, through low-s normalisation and its parity flip |
| `Ecdsa.SignThenVerify` | searcher/src/enclave/lib/ecdsa/ecdsa.py:109-141 | For every message, key and nonce with a usable signature, verification accepts |
| `SignatureLaws.SignExactly` | searcher/src/enclave/lib/ecdsa/ecdsa.py:109-123 | A signature is the abscissa of the nonce's point and the lower solution of the signing equation, with the bit that tells the parity of the point it belongs to |
| `SignatureLaws.VerifyExactly` | searcher/src/enclave/lib/ecdsa/ecdsa.py:126-141 | Verification under the key of d accepts exactly if both parts are nonzero and some nonce has a point with the coordinate r and solves the signing equation for d |
| `SignatureLaws.RecoverExactly` | searcher/src/enclave/lib/ecdsa/ecdsa.py:144-172 | Recovery returns exactly the key that balances the point over the coordinate with the parity of the bit, and refuses exactly if the bit is out of range, a part is zero, or there is no such point or key |
| `SignatureLaws.RecoverThenVerify` | searcher/src/enclave/lib/ecdsa/ecdsa.py:126-172 | A recovered key verifies the signature exactly if r is below the modulus of the field |
| `Ecdsa.Signatures` | searcher/src/enclave/lib/ecdsa/ecdsa.py:117-123 | Signature times the signed nonce is the hash plus coordinate times key; the bit is the parity of the point that belongs to it |
| `Ecdsa.MulIdeal` | searcher/src/enclave/lib/ecdsa/ecdsa.py:117-123 | Only multiples of the order annihilate the base point |
| `SmallCurve.HypothesesCanHold` | searcher/src/enclave/lib/ecdsa/ecdsa.py:109-172 | On a concrete curve of five points all hypotheses of the signature theorems hold together, for a signature whose s is low at once and for one whose s is flipped |
| `SmallCurve.SetupWhole` | searcher/src/enclave/lib/ecdsa/ecdsa.py:144-172 | On the curve of five points the order takes every point to the ideal one |
| `SmallCurve.LargeCoordinate` | searcher/src/enclave/lib/ecdsa/ecdsa.py:126-172 | There a coordinate above the modulus is recovered from, and refused by verification |
| `Rlp.EncodeUnique` | searcher/src/enclave/lib/mkp/proveth.py:345 | An RLP encoding determines its item, whatever follows it |
| `Rlp.DecodeExact` | searcher/src/enclave/lib/mkp/proveth.py:387 | Exactly the encodings are decoded, each to its item |
| `Tries.BuildGet` | searcher/src/enclave/lib/mkp/proveth.py:280-285 | The canonical trie of a set of entries is well formed and holds exactly those entries, at every key |
| `TrieUpdates.SetBuild` | searcher/src/enclave/lib/mkp/proveth.py:280-285 | Setting a value in the canonical trie of any entries, whatever node it meets and splits, gives the canonical trie of the updated entries |
| `TrieUpdates.OrderIsFree` | searcher/src/enclave/lib/mkp/proveth.py:280-285 | Updates of different keys can be exchanged |
| `TrieProofs.DecodeCompact` | searcher/src/enclave/lib/mkp/proveth.py:296-327 | The loop yields the flag and the nibbles behind it; first nibbles above three and the empty string fail |
| `TrieFormats.CompactExactly` | searcher/src/enclave/lib/mkp/proveth.py:296-327 | A byte string is read as a path exactly if its first nibble counts two for a leaf and one for an odd path, and the path is what follows, nibble by nibble |
| `TrieFormats.PathsLaidOut` | searcher/src/enclave/lib/mkp/proveth.py:296-327 | The paths of the nodes that are put into proofs are written like that |
| `TrieFormats.ReferenceExactly` | searcher/src/enclave/lib/mkp/proveth.py:210-232 | What the descent goes on with: a node embedded in its parent exactly if its encoding is shorter than a hash, and its hash otherwise |
| `TrieProofs.CompactRoundTrip` | searcher/src/enclave/lib/mkp/proveth.py:296-327 | Every path is decoded from its compact form |
| `TrieProofs.Generator.Descend` | searcher/src/enclave/lib/mkp/proveth.py:206-247 | The recursive descent appends exactly the nodes on the route of the key |
| `TrieProofs.GenerateProof` | searcher/src/enclave/lib/mkp/proveth.py:199-261 | Keys with non-nibbles are refused; otherwise the stack is the route from the root |
| `TrieProofs.SharedPrefixLength` | searcher/src/enclave/lib/mkp/proveth.py:330-336 | The length of the common prefix, or of the whole node path when the key runs out first |
| `TrieProofs.VerifyMptProof` | searcher/src/enclave/lib/mkp/proveth.py:339-396 | Value, silence and failure of the loop are those of following the references node by node |
| `ProofWalks.FollowExactly` | searcher/src/enclave/lib/mkp/proveth.py:337-396 | For any key and any stack of nodes whatever, well-formed or not, the verifier gives an answer of either kind or stays silent exactly if there is a walk that ends so: each node has the hash that refers to it, and takes a nibble or its whole path off the key |
| `ProofSoundness.AnswersExplained` | searcher/src/enclave/lib/mkp/proveth.py:339-396 | For every key and stack, an answer without a collision is the decoded value of the leaf where the key ends or lacks one nibble, or the raw value of the branch where it ends |
| `ProofSoundness.RightExactly` | searcher/src/enclave/lib/mkp/proveth.py:330-396 | Such an answer is the decoded value at the key exactly if the key ends at the leaf, or at a branch whose non-empty value decodes to itself |
| `ProofSoundness.Soundness` | searcher/src/enclave/lib/mkp/proveth.py:339-396 | For a key that stays prefix-free with the trie's keys, an accepted proof gives the decoded value the trie holds there, or two different node encodings with equal hashes |
| `ProofSoundness.SilenceSound` | searcher/src/enclave/lib/mkp/proveth.py:360-363 | For every key, silence after a branch whose slot at the next nibble is empty means that the trie holds nothing at the key, or a collision has been found |
| `ProofCompleteness.AcceptedExactly` | searcher/src/enclave/lib/mkp/proveth.py:199-396 | For a key in the trie the generated proof is accepted with its value exactly when all children on the route are hashed and all paths have at most one nibble |
| `ProofCompleteness.RefusedExactly` | searcher/src/enclave/lib/mkp/proveth.py:199-396 | For a key that is not in the trie the generated proof is silent exactly if a checkable route ends at an empty slot, and wrongly accepted exactly if one ends at an empty branch or one nibble short of a leaf |
| `ProofCompleteness.ShortKeyAccepted` | searcher/src/enclave/lib/mkp/proveth.py:330-336 | For every leaf with a path of one nibble the empty key, which is absent, is accepted with the leaf's value |
| `ProofCompleteness.TruncatedExactly` | searcher/src/enclave/lib/mkp/proveth.py:345-396 | A stack cut short anywhere on a route that hands on is silent, or fails after an extension, for present and absent keys alike, and never in the way that excludes a key |
| `BlockProofs.IndexKeysApart` | searcher/src/enclave/lib/mkp/proveth.py:406-407 | Encoded indices never continue each other |
| `BlockProofs.IndexSoundness` | searcher/src/enclave/lib/mkp/proveth.py:406-409 | For tries over encoded indices an answer, at any number whatever, is right or shows a collision |
| `BlockProofs.BuildTold` | searcher/src/enclave/lib/mkp/proveth.py:276-293 | Over prefix-free entries as long as hashes, the route of a key is checkable exactly if no two neighbouring nibbles of the key both fail to tell entries apart |
| `BlockProofs.BlockProofsExactly` | searcher/src/enclave/lib/mkp/proveth.py:199-396 | In the trie of a block of any size, exactly the generated proofs of keys with short runs are accepted |
| `BlockProofs.SmallBlocksExactly` | searcher/src/enclave/lib/mkp/proveth.py:276-293 | In blocks of up to 256 transactions every generated proof is accepted, except that of a block's only transaction and that of the last of 129 |
| `TxProofs.VerifyTxProof` | searcher/src/enclave/lib/mkp/proveth.py:399-440 | Unpacking, the hash check, the walk and the reading of fields, with every exception, are those of the specification |
| `BlobLaws.VerifiedExactly` | searcher/src/enclave/lib/mkp/proveth.py:399-440 | Bytes are verified against a block hash exactly if they are a blob whose header has the hash and whose nodes lead from the header's fifth item along the encoded index to a list with the fields |
| `BlobLaws.OpenedExactly` | searcher/src/enclave/lib/mkp/proveth.py:399-406 | A blob is exactly the encoding of a header with five items or more, a number and a list |
| `BlobLaws.FieldsExactly` | searcher/src/enclave/lib/mkp/proveth.py:411-419 | Fields are read from exactly the encodings of lists with nine items or more, each number in its place |
| `TxProofs.BuildTrie` | searcher/src/enclave/lib/mkp/proveth.py:280-285 | The loop that sets a block's transactions one after the other ends with the canonical trie of the block |
| `TxProofs.GenerateProofBlob` | searcher/src/enclave/lib/mkp/proveth.py:262-293 | From a header and the transactions of a block a blob is made exactly if header and root belong to the block; it can always be encoded, and it holds header, index and route |
| `TxProofs.BlobSound` | searcher/src/enclave/lib/mkp/proveth.py:399-419 | Whatever bytes are verified against the hash of a block, the fields are those of the block's transaction at the index in the blob, or two different header or node encodings share a hash |
| `TxProofs.BlobsExactly` | searcher/src/enclave/lib/mkp/proveth.py:262-419 | The blob generated for any index is verified exactly if there is a transaction, the runs of its key are short and it is a list with nine fields, and then yields its fields |
| `TxProofs.SmallBlocksVerified` | searcher/src/enclave/lib/mkp/proveth.py:262-419 | In blocks of up to 256 transactions every legacy transaction is read back from its blob field by field, with the same two exceptions |
| `TxProofs.TypedNeverVerified` | searcher/src/enclave/lib/mkp/proveth.py:411-419 | No blob at all makes a transaction that starts with its type pass, short of a collision |
| `RlpReader.SameExtent` | chain/solidity/RLPReader.sol:272-324 | Lengths and offsets read from shifted words are those of the byte-string decoder |
| `RlpReader.NumItems` | chain/solidity/RLPReader.sol:257-269 | The loop counts the hops from the payload to the end |
| `RlpReader.ToList` | chain/solidity/RLPReader.sol:104-119 | Lists yield the items met on the walk, everything else reverts |
| `RlpReader.ElementsExact` | chain/solidity/RLPReader.sol:104-119 | On an encoded list the items are exactly the slices that encode its elements, one behind the other up to the end |
| `RlpReader.ToUintExact` | chain/solidity/RLPReader.sol:205-221 | An encoded string of at most 32 bytes is read as its number, longer ones revert |
| `RlpReader.UintRoundTrip` | chain/solidity/RLPReader.sol:205-221 | Every 256-bit integer is recovered from its encoding |
| `RlpReader.Machine.Copy` | chain/solidity/RLPReader.sol:331-353 | Exactly `len` bytes are written, everything else is preserved, and for every overlap the byte that each place receives is given |
| `RlpReader.CopyExactly` | chain/solidity/RLPReader.sol:331-353 | The copy is the source's bytes for every memory exactly if it does not run into its own source or is at most one word |
| `RlpReader.MaskedWord` | chain/solidity/RLPReader.sol:344-351 | The masked word joins the first bytes of one word with the others of another |
| `RlpReader.Machine.ToBytes` | chain/solidity/RLPReader.sol:237-250 | A fresh array of the payload's length, every byte of it given also where the item reaches into the array itself, and nothing allocated before has changed |
| `RlpReader.ToBytesExact` | chain/solidity/RLPReader.sol:237-250 | On an encoded string below the free memory the array holds exactly the string |
| `RlpReader.Located` | chain/solidity/RLPReader.sol:86-91 | The payload of an encoded item is found where it was laid out |
| `Bounty.Uint2Str` | chain/solidity/Honeypot.sol:107-128 | Counting and filling gives the decimal digits |
| `Bounty.DecimalExact` | chain/solidity/Honeypot.sol:107-128 | The digits name the number and have no leading zero |
| `Bounty.ToBytes32` | chain/solidity/Honeypot.sol:130-136 | The first 32 bytes; fewer revert |
| `Bounty.Honeypot.SubmitEnclave` | chain/solidity/Honeypot.sol:39-47 | All four refusals, and otherwise exactly the new report and request |
| `Bounty.Honeypot.ApproveEnclave` | chain/solidity/Honeypot.sol:49-55 | Only the owner approves, only what is requested, and the request is gone |
| `Bounty.Honeypot.CollectBounty` | chain/solidity/Honeypot.sol:57-73 | The bounty goes out exactly when every check passes and the sender takes it, and otherwise nothing changes |
| `Bounty.RunIsSound` | chain/solidity/Honeypot.sol:39-73 | In every run no enclave is both requested and approved, the bounty is paid once if claimed and never before, it is covered until then, and no ether appears or disappears |
| `Bounty.RunsOnlyGrow` | chain/solidity/Honeypot.sol:39-55 | Approvals and submitted reports never change |
| `Bounty.EvidenceIsPaid` | searcher/src/enclave/verify_evidence.py:33-41 | The blob of a block number and its hash, signed by an approved enclave, takes the bounty in every run where it is unclaimed and the hash available, exactly if the sender takes the payment |
| `BountyLaws.PaidExactly` | chain/solidity/Honeypot.sol:39-73 | In every run a step takes the bounty exactly if nobody has, the owner approved the enclave after a submission of it, the enclave signed the personal message of the blob, the blob spells a number with its block hash, and the sender takes the payment; no other step takes ether away |
| `BountyLaws.CollectsExactly` | chain/solidity/Honeypot.sol:57-73 | The same for one call, from the bytes of memory and signature, with the new state |
| `BountyLaws.EvidenceExactly` | chain/solidity/Honeypot.sol:65-69 | The evidence found in any memory, canonical or not: where the two items lie by their headers, and which bytes are the number and the hash |
| `BountyLaws.ApprovedExactly` | chain/solidity/Honeypot.sol:39-55 | In every run an enclave is approved exactly if a submission with report and signature was followed by an approval by the owner |
| `BountyLaws.ReportExactly` | chain/solidity/Honeypot.sol:39-47 | What is kept of an enclave is exactly what was first submitted for it |

## Left out

- Nonces and 64-bit counters do not wrap around: they are unbounded here, and a nonce of 2^64 - 1 is not treated specially.
- The helper types `list`, `noncer`, `pricedList` and `prque` are not part of the repository; they are modelled by what their call sites rely on, lists as sequences in nonce order, the price heaps as an arbitrary choice of victims and of the two refusals.
- Lists are values: two names for one list, as Go's pointers allow, are not modelled, nor is the account set that a promotion request shares with its caller.
- PoolState.Validate: checks that look at the transaction alone (type, size, fee caps, signature, fork rules), other than the one of the intrinsic gas, are one flag, because they do not touch the pool; how much gas its data takes is a field.
- The journal, event feed subscribers, metrics, logging, the set of private hashes and the file writes of `subversionService`.
- ReorgWalk.Reinjection: a missing new head (used by the repository's own tests only) and the rounding of block numbers beyond 2^53 in the depth check are not modelled.
- ReorgLoop.NoRequestIsStuck: the theorem is about which steps are possible and where they lead; that the runtime takes them in time, lets the run have the mutex among others, and that subscribers take what is announced is not modelled. Readers who share the mutex are one holder.
- Coefficients, field elements and points are passed as values with the modulus as a parameter; Python's classes, type checks and caches are not modelled.
- Correctness of `isIrreducible`, random choices of polynomials, points and nonces, and the deterministic nonce from HMAC.
- Ecdsa.Verify: the Jacobian routines and the modular inverse it calls are not part of the repository and stand for the group operation and the inverse; coordinates of the ideal point are taken to be zero.
- PointEncoding.Deser: Python's `bytes.fromhex` also skips white space between bytes, which is not modelled.
- Tries.BuildGet: the trie library is not part of the repository; updates are those of TrieUpdates on a value, which agree with any implementation of the canonical trie, and fetching a node by its reference from a database is taken to succeed.
- BlockProofs.BlockProofsExactly: entries are at least as long as a hash, as encoded transactions are; for shorter ones, whose leaves are not hashed, ProofCompleteness.AcceptedExactly decides.
- TxProofs.VerifyTxProof: the block's hash is a parameter, and the chain identifier and the transaction objects that are made from the fields are left out.
- RLP items whose lengths exceed 2^64 bytes, which have no encoding, are excluded from proofs.
- RlpReader.ItemLength: pointer arithmetic does not wrap at 2^256, and gas is not modelled.
- RlpReader.PayloadLocation: a prefix longer than its item makes the subtraction fail, as compilers from version 0.8 on have it; earlier ones wrap around.
- RlpReader.Machine.ToBytes: scratch memory that the compiler uses for hashing and for the array of items is not modelled.
- Keccak, `ecrecover`, attestation, web3 access, and the commitment scheme around the signatures.

# VRRB node: job pool, mining and state, verified

A Dafny model of the parts of the VRRB node in which the correctness of a round
is decided, with proofs about them.

| file | models |
|---|---|
| `JobPool.dfy`, `JobPoolSafety.dfy`, `JobPoolSpawning.dfy`, `JobPoolOrder.dfy`, `JobPoolShutdown.dfy`, `JobPoolProgress.dfy`, `JobPoolExample.dfy` | the worker pool as a step system over all interleavings of submitters, workers, wakers and the shutting-down thread |
| `TaskJoin.dfy` | a joiner and a completing worker around one `TaskStatus` |
| `Arithmetic.dfy`, `Floats.dfy`, `Slashing.dfy` | percentages and slashed stakes computed in binary floating point |
| `Elections.dfy`, `QuorumElection.dfy` | XOR elections, the final quorum, the miner election |
| `Blocks.dfy`, `Conflicts.dfy`, `Miner.dfy` | proposals, conflict resolution, the convergence block |
| `Accounts.dfy`, `Batch.dfy` | account updates one at a time and consolidated |
| `RoundUpdates.dfy`, `Transfers.dfy`, `RoundState.dfy`, `AccountEffects.dfy` | from the blocks of a round to the account states and the transaction store |
| `Ledger.dfy`, `LedgerExample.dfy` | value over the whole account store |
| `Pipeline.dfy`, `PipelineExample.dfy` | the miner's output met by the state manager, end to end |
| `HeaderChain.dfy`, `ValueHistory.dfy`, `StakeLog.dfy`, `QuorumAssignment.dfy` | header and reward chain, versioned values, stake log, bootstrap quorum assignment |

Conventions. Iteration orders of hash maps and hash sets are parameters, and every
statement holds for all of them. Hashes, digests, addresses and keys are numbers. The DAG is a
function from a reference to the convergence blocks traced from it, and the list
of a block's sources. Arithmetic on `u128` wraps, as in a release build, wherever
the source does not check it; sums are then stated modulo 2^128. A loop of the
source that can run for ever, or an operation that panics, is modelled as `None`
or as a `Panicked` status.

## What the proofs found

- The winner loop of conflict resolution shares one shrinking election map between
  all conflicts, and a claim's later block replaces its earlier one in that map. The
  loop ends exactly when there is no conflict or some block contains every conflicted
  transaction and no later block is of the same claim (`SettleEndsExactly`,
  `ResolveEndsExactly`). Two independent conflicts hang the miner
  (`IndependentConflictsHang`, `HangExample`), and so does a single conflict if all its
  proposers also have late blocks, which come after the current ones
  (`SupersededConflictHangs`, `SupersededExample`).
- `resolve` compares a late proposal's round with the round being mined, which is the
  last block's round plus one. Proposals of that round are dropped altogether
  (`ProposalTakesPart`).
- `join_timeout` returning true means that every job completed exactly when, at the
  moment the sender was dropped, the queue was empty or some worker was bound to look
  at it again (`ShutdownExact`). What fails it is a queue with jobs while every worker
  is leaving or in the middle of an idle time-out after which `on_idle` lets it go;
  `StrandingRun` is such a run. With a concurrency limit of zero no queued job is ever
  taken (`ZeroLimitNeverTakes`).
- A batch gives the same nonce as single updates exactly when the last nonce of the
  sequence was fresh (`BatchRefinesSequence`); a repeated nonce makes the two differ
  (`RepeatedNonceDiffers`).
- The transaction store takes every transaction of the round, also those whose
  sender's account update fails; sender and receiver list the digest exactly when
  their updates are accepted (`StoredAndSent`). `StoredButNotSent` is a mined round
  whose transaction is stored and not listed by its sender.
- A round need not conserve value, in two ways. Accounts are updated independently, so
  a transaction of which only one side takes part makes value appear or vanish. And the
  sums of one account's updates are added unchecked, so they wrap around at 2^128.
  What is credited other than fees and what is debited differ by exactly these two
  (`LedgerGains`). If all parties take part, debits and credits, fees aside, are each the
  volume of the round exactly if no participant's own sum reaches 2^128
  (`LedgerBalances`).
  `StaleSenderExample` and `WrapAroundExample` are rounds of either kind.
- A batch can succeed where no order of single updates does: an update with a stale
  nonce rides along with a fresh one (`StaleRidesAlong`, `StaleExample`), and sums may fit
  only after wrapping around (`ConverseExactly`).
- A slash of 100 percent can raise a stake: the stake converted to a float may be above
  the stake, and the subtraction then wraps. A slash of less never does
  (`SlashNeverRaises`, `SlashRaises`).
- A transfer erases an account's code and storage, because the updates of both its sides
  carry that there is none; only if a fee of the account happens to be merged last are
  they kept (`CodeAndStorage`).
- The 51%, 65% and 30% counts are the exact percentages rounded up until 257050 claims,
  806596 claims and 3377699720527876 validators; the next ones fail by one
  (`QuorumSizes`, `ThirtyPercent`, `FirstFailure51`, `FirstFailure65`, `FirstFailure30`).
- The next reward is clamped between its minimum and maximum, but an adjustment that
  would make it negative gives the maximum, because the clamp comes after the cast to
  an unsigned number (`NextAmountClampsExactly`).
- The `epoch` field of a header never changes; only the reward's epoch does
  (`ChainClosedForm`).
- Splitting a transaction's fee divides by the number of approving validators and
  panics if there are votes but no approving one (`FromBlock`, `UpdateState`).

## Model

| member | source | states |
|---|---|---|
| `JobPoolSafety.StepKeepsInv` | crates/consensus/job_pool/src/worker.rs:69-184 | every step of every thread keeps the whole invariant: counts, pending maps, places of jobs, addresses of live jobs, closures taken |
| `JobPoolSafety.ActionExchanges` | crates/consensus/job_pool/src/worker.rs:97-184 | each action of a worker moves a job between the worker and the outside without gaining or losing one |
| `JobPoolSafety.ActionKeepsWorkerOk` | crates/consensus/job_pool/src/worker.rs:97-168 | each action keeps the worker's pending map bounded, async only, and consistent with its phase |
| `JobPoolSafety.RequestConserves` | crates/consensus/job_pool/src/pool.rs:77-98 | handing a job over, spawning for it or queueing it leaves every job in one place |
| `JobPoolSafety.ReachableInv` | crates/consensus/job_pool/src/builder.rs:125-150 | every state reachable from a freshly built pool satisfies the invariant |
| `JobPoolSafety.JobConservation` | crates/consensus/job_pool/src/pool.rs:77-98 | in every reachable state each accepted job is in exactly one place (submitter, queue, initial slot, being run, pending, completed, lost with an unspawned thread), no other job is anywhere, and no two workers hold the same job |
| `JobPoolSafety.WorkerBounds` | crates/consensus/job_pool/src/pool.rs:159-238 | the count is the number of live workers, never above the maximum; the saturating decrement never saturates; pending maps hold only async jobs under their own addresses, at most `max(limit, 1)` |
| `JobPoolSafety.RunEndsCleanly` | crates/consensus/job_pool/src/worker.rs:148-168 | in every reachable state a yielding job overwrites no pending job although addresses are reused, and a sync job completes in its first run |
| `JobPoolSafety.StaleWakeUpIsHarmless` | crates/consensus/job_pool/src/worker.rs:175-184 | a wake-up for an address that is not pending moves and completes no job |
| `JobPoolSpawning.QueuedOnlyWhenFull` | crates/consensus/job_pool/src/pool.rs:77-98 | over every run, departures included, whenever a job comes to wait for the queue or in it the pool had all its workers |
| `JobPoolSpawning.WaitsOnlyWhenFull` | crates/consensus/job_pool/src/pool.rs:77-98 | over every run in which no worker departed, a job waits only in a pool with all its workers |
| `JobPoolSpawning.SpawnDecides` | crates/consensus/job_pool/src/pool.rs:159-182 | in every reachable state a job nobody received is handed to a new worker if and only if the pool lacks one, and turned to the queue otherwise |
| `JobPoolSpawning.HandedOver` | crates/consensus/job_pool/src/pool.rs:83-88 | a job just submitted can be received by any worker that polls with room, which then runs it |
| `JobPoolSpawning.StagesAdvance` | crates/consensus/job_pool/src/pool.rs:77-98 | each step of the submitting thread takes the job out of its hands or leads to a later stage, and nobody leads it back |
| `JobPoolSpawning.SubmissionEnds` | crates/consensus/job_pool/src/pool.rs:77-98 | a submission can end by at most three steps of its own thread, unless the queue is full and the pool has all its workers or the thread has turned to the queue |
| `JobPoolSpawning.QueueBounded` | crates/consensus/job_pool/src/pool.rs:91-97 | over every run a bounded queue holds at most its size |
| `JobPoolOrder.GoneForGood` | crates/consensus/job_pool/src/worker.rs:97-168 | over every run a job that left the waiting queue never enters it again |
| `JobPoolOrder.FirstInFirstOut` | crates/consensus/job_pool/src/worker.rs:97-139 | over every run, as long as a queued job has not been taken, all jobs behind it are still behind it in the same order |
| `JobPoolOrder.WakeUpsInOrder` | crates/consensus/job_pool/src/worker.rs:97-139 | no step but a worker's own takes from its wake-ups, and that one takes the first |
| `JobPoolShutdown.ServingGoesOn` | crates/consensus/job_pool/src/worker.rs:69-139 | while the closed queue is not empty, a worker bound to look at it, also one whose thread is still to start, stays so under every action |
| `JobPoolShutdown.RunKeepsWillDrain` | crates/consensus/job_pool/src/pool.rs:121-156 | over every run of a shutdown the queue stays empty or served |
| `JobPoolShutdown.Strands` | crates/consensus/job_pool/src/pool.rs:121-156 | if no worker is bound to look at the queue, or after `join_deadline` gave up while the workers poll, some run ends with no worker and the waiting queue untouched |
| `JobPoolShutdown.ShutdownExact` | crates/consensus/job_pool/src/pool.rs:121-156 | for every reachable shutdown state with a positive limit: all continuations that empty the pool complete every accepted job exactly once, if and only if the queue is empty or some worker is bound to look at it again |
| `JobPoolShutdown.JoinTrueMeansDone` | crates/consensus/job_pool/src/pool.rs:117-156 | under that condition `join_timeout` returning true means, then and ever after, that every accepted job completed exactly once or was lost with a thread that could not be spawned |
| `JobPoolProgress.ShutdownCanFinish` | crates/consensus/job_pool/src/pool.rs:121-156 | from every reachable shutdown state with a positive limit some run empties the pool while `join_timeout` waits; if the queue is served that run completes every accepted job that was not lost |
| `JobPoolExample.StrandingRun` | crates/consensus/job_pool/src/pool.rs:117-156 | a concrete run from a fresh pool after which `join_timeout` has returned true and the accepted job still waits |
| `JobPoolShutdown.NothingLost` | crates/consensus/job_pool/src/pool.rs:159-185 | no job is lost in a run in which every thread can be spawned |
| `JobPoolShutdown.ZeroLimitNeverTakes` | crates/consensus/job_pool/src/worker.rs:97-139 | with a concurrency limit of zero the waiting queue only grows |
| `TaskJoin.RunKeepsInv` | crates/consensus/job_pool/src/task.rs:130-216 | the joiner and worker invariant over all interleavings, repeated joins from other threads included |
| `TaskJoin.NoLostWakeUp` | crates/consensus/job_pool/src/task.rs:130-149 | a joiner parked while a result is there has an unpark token, or the worker holds the mutex and its next call hands it over |
| `TaskJoin.TakenOnce` | crates/consensus/job_pool/src/poller.rs:31-73 | the result is taken at most once, by the joiner, and is what the job produced |
| `TaskJoin.JoinFinishes` | crates/consensus/job_pool/src/task.rs:165-216 | once `complete` has returned, the joiner needs at most two steps of its own to return the result |
| `TaskJoin.GivenBack` | crates/consensus/job_pool/src/task.rs:165-198 | a join that gives up leaves nothing taken and lets any thread join again |
| `Elections.XorInjective` | crates/vrrb_core/src/claim.rs:225-232 | different claim hashes have different election results under any seed |
| `Elections.ResultBitwise` | crates/vrrb_core/src/claim.rs:225-232 | each bit of each word of a result is set if and only if the bit of the hash's word differs from the seed's |
| `Elections.LessIsOrder` | crates/vrrb_core/src/claim.rs:225-232 | the order of results is the order of their 256-bit values |
| `Elections.ElectionIgnoresOrder` | crates/vrrb_core/src/claim.rs:225-232 | the keys of the election map never depend on the order of the claims; for distinct hashes the map does not either |
| `QuorumElection.Quorum.GetFinalQuorum` | crates/consensus/quorum/src/quorum.rs:147-174 | both errors exactly when they occur, nothing changed by them; otherwise the slice is in bounds and the keys of the 51% lowest results, counted in `f32`, are stored |
| `QuorumElection.QuorumSizes` | crates/consensus/quorum/src/quorum.rs:152-161 | for every number of claims, `f32` rounding included, 51% never exceeds 65% and 65% never exceeds all; up to 257050 and 806596 claims they are exact ceilings |
| `Floats.CeilGrows` | crates/consensus/quorum/src/quorum.rs:152-161 | in any float format a larger percentage never gives a smaller count |
| `Floats.CeilAtMost` | crates/consensus/quorum/src/quorum.rs:152-161 | a percentage that leaves room for two rounding errors never counts more than there are |
| `Floats.RoundToNearest` | crates/consensus/quorum/src/quorum.rs:152-161 | rounding goes to the nearest multiple of the unit, and of two to the even one |
| `Floats.FirstFailure51` | crates/consensus/quorum/src/quorum.rs:152 | at 257051 claims the 51% count is one too few |
| `Floats.FirstFailure65` | crates/consensus/quorum/src/quorum.rs:159 | at 806597 claims the 65% count is one too few |
| `Floats.FirstFailure30` | crates/node/src/consensus/quorum_module.rs:118 | at 3377699720527877 validators the 30% count is one too few |
| `QuorumElection.ElectedAreLowest` | crates/consensus/quorum/src/quorum.rs:163-169 | every result that is not elected is larger than every elected one |
| `QuorumElection.FinalQuorumIgnoresOrder` | crates/consensus/quorum/src/quorum.rs:147-174 | for distinct hashes the election never fails for lack of results and the elected keys do not depend on the order of the claims |
| `QuorumElection.MinerElectionAgrees` | crates/node/src/consensus/quorum_module.rs:189-216 | `get_winner` ends exactly if some claim is Miner-eligible; its result is minimal and the same for every iteration order; for distinct hashes so is the claim |
| `Conflicts.Identify` | crates/miner/src/miner_impl.rs:130-155 | the loop tabulates exactly the transactions with more than one proposer, with all of them |
| `Conflicts.ConflictedExactly` | crates/miner/src/miner_impl.rs:130-155 | a transaction is conflicted if and only if two blocks contain it |
| `Conflicts.AppendWinner` | crates/miner/src/miner_impl.rs:356-386 | the loop computes the fold that shrinks one election map from conflict to conflict |
| `Conflicts.AppendWinnerEndsExactly` | crates/miner/src/miner_impl.rs:356-386 | for every iteration order it ends if and only if there is no conflict or one ballot of the election map proposed every conflicted transaction |
| `Conflicts.WinnersAreProposers` | crates/miner/src/miner_impl.rs:356-386 | every winner is a proposer of its conflict; nothing else of the conflicts changes |
| `Conflicts.LowestWins` | crates/miner/src/miner_impl.rs:356-386 | the winner of the conflict visited at any position is the ballot with the lowest result among those that proposed it and every conflict visited before it |
| `Conflicts.SharedProposersShareWinner` | crates/miner/src/miner_impl.rs:305-386 | if all conflicts have the same proposers, the loop ends and all get the winner whose result is least among the entries of those proposers, in whatever order |
| `Conflicts.ResolveCurrent` | crates/miner/src/miner_impl.rs:389-414 | in place, every block loses exactly the conflicted transactions it did not win |
| `Conflicts.ExclusiveAndLossless` | crates/miner/src/miner_impl.rs:130-155 | when the winner loop ends, every proposed transaction is in exactly one block, which proposed it, and no block gained anything |
| `Miner.SplitProposalsByRound` | crates/miner/src/miner_impl.rs:325-343 | the two halves in order; both empty without a last block |
| `Miner.Resolve` | crates/miner/src/miner_impl.rs:170-184 | the in-place pipeline equals the specification by value |
| `Miner.CandidateIsProposal` | crates/miner/src/miner_impl.rs:190-240 | a candidate is a proposal not of the round being mined; a late one has lost exactly the transactions recorded in a convergence block traced from any late proposal |
| `Miner.LateKeepsExactly` | crates/miner/src/miner_impl.rs:190-240 | a late candidate keeps a transaction if and only if no convergence block traced from any late proposal has recorded it; a current one keeps all |
| `Miner.NotMinedAgain` | crates/miner/src/miner_impl.rs:170-240 | no resolved late block holds a transaction recorded in a traced convergence block |
| `Miner.ProposalTakesPart` | crates/miner/src/miner_impl.rs:170-240 | a proposal takes part if and only if it is not of the round being mined |
| `Miner.SettleEndsExactly` | crates/miner/src/miner_impl.rs:305-386 | for blocks with distinct hashes and every iteration order, resolution ends if and only if there is no conflict or some block contains every conflicted transaction and no later block is of the same claim |
| `Miner.ResolveEndsExactly` | crates/miner/src/miner_impl.rs:170-184 | the same condition over the candidates of `resolve`, late blocks after current ones, for any proposals with distinct hashes |
| `Miner.IndependentConflictsHang` | crates/miner/src/miner_impl.rs:356-386 | two conflicts no block shares make it run for ever |
| `Miner.SupersededConflictHangs` | crates/miner/src/miner_impl.rs:305-386 | one conflict all of whose proposers have a later block makes it run for ever |
| `Miner.HangExample` | crates/miner/src/miner_impl.rs:356-386 | four concrete blocks on which it runs for ever, for every seed and order |
| `Miner.SupersededExample` | crates/miner/src/miner_impl.rs:170-184 | proposals of two claims, two current and two late ones with one conflict, on which `resolve` runs for ever if nothing was confirmed before |
| `Miner.ResolveSettlesAll` | crates/miner/src/miner_impl.rs:170-184 | the whole of `resolve` is exclusive and lossless over its candidates |
| `Miner.LowestTakesIt` | crates/miner/src/miner_impl.rs:305-414 | a conflicted transaction ends in exactly one block: of those that contain it and every conflict visited before it, and are their claims' last, the one whose claim has the lowest result |
| `Miner.ResolvedFromProposals` | crates/miner/src/miner_impl.rs:170-296 | each resolved block is one of the proposals without some transactions, all else unchanged, under distinct hashes |
| `Miner.ConsolidatedExactly` | crates/miner/src/miner.rs:372-403 | the consolidated map has exactly the resolved blocks' hashes, each with exactly its transactions |
| `Miner.ClaimsExactly` | crates/miner/src/miner.rs:385-398 | the consolidated claims have exactly the resolved blocks' hashes, each with exactly its claims |
| `Accounts.Account.Update` | crates/vrrb_core/src/account.rs:326-362 | the sequence of field updates equals the specification, with every failure and what it leaves behind |
| `Accounts.Account.UpdateField` | crates/vrrb_core/src/account.rs:268-306 | each field update, checked additions and the debit bound included |
| `Accounts.FailureLeaves` | crates/vrrb_core/src/account.rs:326-362 | what each kind of failing update leaves behind |
| `Batch.ConsolidateUpdateArgs` | crates/node/src/state_manager/utils.rs:33-69 | the loop over a hash map gives every address the merge of its own updates and nothing else |
| `Batch.TotalsIgnoreOrder` | crates/node/src/state_manager/utils.rs:33-69 | nonce, credits, debits and digests of a batch depend only on the multiset of updates |
| `Batch.ConsolidatedIsTotal` | crates/node/src/state_manager/utils.rs:33-69 | the wrapping merge is the true total modulo 2^128 |
| `Batch.BatchRefinesSequence` | crates/node/src/state_manager/utils.rs:33-69 | if updates succeed one at a time in some order, their consolidation in any order succeeds with the same credits, debits and digests, and the same nonce if and only if the last nonce was fresh |
| `Batch.RisingBatchAgrees` | crates/node/src/state_manager/utils.rs:33-69 | if the nonces rise strictly above the account's, batch and sequence agree on credits, debits, digests and nonce |
| `Batch.BatchSucceedsExactly` | crates/node/src/state_manager/utils.rs:33-69 | the batch succeeds if and only if its highest nonce is not below the account's and the account can take the wrapped sums |
| `Batch.SequenceSucceedsExactly` | crates/vrrb_core/src/account.rs:268-362 | with rising nonces and credits first, single updates succeed if and only if the account can take the sums |
| `Batch.ConverseExactly` | crates/node/src/state_manager/utils.rs:33-69 | for such updates some order succeeds if and only if the sums fit, and the batch if and only if the wrapped sums do |
| `Batch.StaleRidesAlong` | crates/node/src/state_manager/utils.rs:33-69 | with a stale nonce among the updates no order succeeds, while the batch does if and only if its highest nonce is fresh and the wrapped sums fit |
| `Batch.StaleExample` | crates/node/src/state_manager/utils.rs:33-69 | an account with nonce 3 accepts nonces 1 and 5 in a batch and in no order |
| `Batch.NonceExact` | crates/vrrb_core/src/account.rs:326-376 | the nonce after single updates against the one after the batch |
| `Batch.RepeatedNonceDiffers` | crates/vrrb_core/src/account.rs:326-376 | repeated nonces for which batch and sequence end with different nonces |
| `Batch.LastWriterWins` | crates/vrrb_core/src/account.rs:346-352 | one at a time, the last update that carries code or storage decides it |
| `Batch.LastMergedWins` | crates/node/src/state_manager/utils.rs:55-56 | in a batch the update merged last decides both, also if it carries none |
| `Batch.AlwaysSolvent` | crates/vrrb_core/src/account.rs:268-306 | over every run of updates from a new account, failing ones included, debits never exceed credits |
| `RoundUpdates.FromBlock` | crates/storage/vrrbdb/src/types.rs:139-235 | panics if and only if some transaction carries votes of which none is for it; otherwise a fee without a token is in the result if and only if some transaction pays it: to a validator that voted for it, its share divided by the number of such votes |
| `RoundUpdates.ProposerFeeExactly` | crates/storage/vrrbdb/src/types.rs:142-163 | the only other fee goes to the proposer and carries the sum of the transactions' proposer shares modulo 2^128 |
| `RoundUpdates.SidesExactly` | crates/storage/vrrbdb/src/types.rs:176-205 | the other updates are exactly the two sides of the block's transactions, field by field |
| `RoundUpdates.ArgsByKind` | crates/storage/vrrbdb/src/types.rs:73-134 | which side an amount, a digest, code and storage go to, by the kind of update |
| `RoundUpdates.FeesWithinShare` | crates/storage/vrrbdb/src/types.rs:209-235 | the fees of a transaction's validators together never exceed the validators' share |
| `Transfers.RoundArgsSplit` | crates/storage/vrrbdb/src/types.rs:73-171 | the updates of a round are exactly the two sides of its distinct transactions and the fees |
| `Transfers.AddressTotals` | crates/node/src/state_manager/utils.rs:26-69 | for every iteration order an address's debits are what it sent in distinct transactions, its credits what it received plus its deduplicated fees, modulo 2^128 |
| `Transfers.TransferConservation` | crates/storage/vrrbdb/src/types.rs:139-205 | all debits of a round equal all its credits other than fees equal the volume of its distinct transactions, also if a transaction is in two blocks |
| `Transfers.ConsolidationKeepsSums` | crates/node/src/state_manager/utils.rs:33-69 | the consolidated updates together carry what the single ones carried, less 2^128 for every wrap-around of an address's sum |
| `Transfers.NoCarry` | crates/node/src/state_manager/utils.rs:33-69 | nothing wraps around if and only if no address's own sum reaches 2^128 |
| `Transfers.ConsolidatedConservation` | crates/node/src/state_manager/utils.rs:33-69 | the debits of the consolidated map together are the volume of the round, its credits that volume and the deduplicated fees, each less 2^128 for every wrap-around |
| `RoundState.RoundBlocks.GetUpdateList` | crates/node/src/state_manager/manager.rs:194-215 | filters the proposals in place and returns the updates of the filtered ones |
| `RoundState.FilterExactly` | crates/node/src/state_manager/manager.rs:194-205 | a proposal keeps exactly the transactions listed under its hash, and all if it is not listed |
| `RoundState.StateManager.UpdateTxnTrie` | crates/node/src/state_manager/manager.rs:153-165 | exactly the round's transactions are added or replaced under their digests |
| `RoundState.TxnsStored` | crates/node/src/state_manager/manager.rs:153-165 | a digest is stored afterwards if and only if it was before or a block has a transaction with it, and holds such a transaction |
| `RoundState.ClaimsStored` | crates/node/src/state_manager/manager.rs:170-190 | the same of claims and their keys |
| `RoundState.StateManager.UpdateClaimStore` | crates/node/src/state_manager/manager.rs:170-190 | exactly the round's claims are added or replaced under their keys |
| `RoundState.StateManager.ApplyUpdates` | crates/storage/vrrbdb/src/state_store/mod.rs:171-194 | an existing account whose update succeeds is replaced; a missing account or a failing update changes nothing |
| `RoundState.StateManager.UpdateState` | crates/node/src/state_manager/manager.rs:126-148 | not found and panic exactly when they occur, with all three stores untouched; otherwise every account, the whole transaction store and the whole claim store afterwards |
| `AccountEffects.AcceptedExactly` | crates/vrrb_core/src/account.rs:326-362 | the consolidated update of a round succeeds if and only if the account can hold its credits, cover its debits, and sent some nonce not below its own |
| `AccountEffects.EffectOnAccount` | crates/node/src/state_manager/manager.rs:126-148 | for every iteration order an accepted account gains exactly its debits, credits, digests and nonce of the round; any other account is unchanged |
| `AccountEffects.CodeAndStorage` | crates/node/src/state_manager/manager.rs:126-148 | an accepted account loses code and storage if the update of it met last is a side of a transaction, and keeps both if it is a fee |
| `Ledger.LedgerGains` | crates/node/src/state_manager/manager.rs:126-148 | any round over the whole account store: debits gained are the volume sent by existing accepted accounts, credits gained the volume they received and their fees, each less 2^128 for every wrap-around, so the two differ by exactly what appears, vanishes and wraps |
| `Ledger.LedgerBalances` | crates/node/src/state_manager/manager.rs:126-148 | if all senders and receivers take part: the debits, and the credits less fees, are the volume of the round if and only if no participant's own sum reaches 2^128, and they equal each other if and only if both wrap equally often |
| `Ledger.ValueAppears` | crates/node/src/state_manager/manager.rs:126-148 | a stale sender and a new receiver: the receiver is credited and nobody is debited |
| `Ledger.WrapAround` | crates/node/src/state_manager/utils.rs:33-69 | two transfers of 2^127 by one sender: all parties take part, 2^128 is credited, nothing is debited, and the sender lists the transactions as sent |
| `LedgerExample.StaleSenderExample` | crates/node/src/state_manager/manager.rs:126-148 | a concrete round in which one unit appears |
| `LedgerExample.WrapAroundExample` | crates/node/src/state_manager/utils.rs:33-69 | a concrete block whose debits wrap around to nothing |
| `Pipeline.FilterRestores` | crates/node/src/state_manager/manager.rs:194-205 | filtering an original proposal by the convergence block gives back the miner's resolved version |
| `Pipeline.RoundTrip` | crates/node/src/state_manager/manager.rs:194-253 | filtering the DAG's proposals by the block built from the resolution reproduces exactly the resolution |
| `Pipeline.MinerAndStateAgree` | crates/node/src/state_manager/manager.rs:126-215 | the state manager works on the miner's transactions and updates, and panics exactly if those blocks do |
| `Pipeline.MinedRoundReachesAccount` | crates/node/src/state_manager/manager.rs:126-148 | after a mined round an account has changed by exactly its part in the resolved blocks, or not at all |
| `Pipeline.StoredAndSent` | crates/node/src/state_manager/manager.rs:126-165 | every resolved transaction is stored; its sender, and its receiver, lists it exactly if it did before or its update is accepted |
| `PipelineExample.StoredButNotSent` | crates/node/src/state_manager/manager.rs:126-165 | a concrete mined round, for every seed, DAG, order and store, whose transaction is stored while its stale sender keeps its account |
| `HeaderChain.NextAmountClampsExactly` | crates/consensus/reward/src/reward.rs:63-90 | the next amount is the clamped adjusted amount if and only if that is not negative, else the maximum |
| `HeaderChain.TruncatesTowardZero` | crates/consensus/reward/src/reward.rs:63-90 | the epoch's share of an adjustment is rounded toward zero |
| `HeaderChain.SeedInRange` | crates/consensus/vrrb_vrf/src/vvrf.rs:104-109 | a seed is at least 2^32 - 1 and fits 64 bits |
| `HeaderChain.SeedsAreReached` | crates/consensus/vrrb_vrf/src/vvrf.rs:104-109 | every seed of the range comes from exactly one random number below the size of the range |
| `HeaderChain.ChainClosedForm` | crates/block/src/header.rs:38-193 | on every chain from genesis: round, height, constant epoch, reward epoch `(h+1)/30000000`, next epoch block, amount within 15 and 25, seed and reward taken from the predecessor |
| `HeaderChain.RewardChangesWithEpoch` | crates/block/src/header.rs:102-193 | the announced amount changes only at a height that ends an epoch |
| `HeaderChain.InputsDecide` | crates/block/src/header.rs:102-193 | at every height of a chain with given inputs: the miner, the seed and, at the end of an epoch, the adjusted amount are those of the input; the reward paid is the one announced |
| `HeaderChain.GenesisExactly` | crates/block/src/header.rs:38-99 | the first header and both its rewards, in numbers |
| `HeaderChain.FirstEpoch` | crates/block/src/header.rs:38-193 | within the first epoch every block announces and pays 20 units |
| `ValueHistory.RocksDbAdapter.Store` | crates/storage/vrrbdb/src/rocksdb_adapter.rs:298-324 | a put is rejected exactly if it is older than the key's newest version; the history is that of the whole run of puts |
| `ValueHistory.RocksDbAdapter.GetValueOption` | crates/storage/vrrbdb/src/rocksdb_adapter.rs:239-255 | after any run of puts a lookup returns what was last accepted at the greatest version not above the bound, deletions included, else nothing |
| `ValueHistory.RocksDbAdapter.WriteValues` | crates/storage/vrrbdb/src/rocksdb_adapter.rs:286-295 | the puts are tried one by one: all of the batch if each is accepted, else up to and including the first that is rejected |
| `ValueHistory.OutcomeExactly` | crates/storage/vrrbdb/src/rocksdb_adapter.rs:298-324 | a put of a run is accepted if and only if no newer version of its key was accepted before it |
| `ValueHistory.HistoryAgreesWithMap` | crates/storage/vrrbdb/src/rocksdb_adapter.rs:239-324 | per key the versions strictly increase, and lookups agree with a plain map from versions to values |
| `StakeLog.StakedClaim.CheckStakeUtxo` | crates/vrrb_core/src/claim.rs:267-285 | the loop is the fold of the log |
| `StakeLog.StakedClaim.UpdateStake` | crates/vrrb_core/src/claim.rs:239-260 | folding the whole log again is one step from the previous stake, written out for deposits, withdrawals and slashes; errors exactly when they occur; after any run of calls the stake is the one reached by single steps |
| `StakeLog.LogReplays` | crates/vrrb_core/src/claim.rs:239-292 | for every run of calls and every slash function the kept log folds to the incremental stake, and every kept entry changed the stake when it was recorded |
| `StakeLog.StakeBalances` | crates/vrrb_core/src/claim.rs:239-285 | over every run of calls without slashes, stake and kept withdrawals add up to the kept deposits |
| `StakeLog.DroppedExactly` | crates/vrrb_core/src/claim.rs:239-285 | an accepted entry is dropped if and only if it is of nothing, a deposit that would reach 2^128, a withdrawal of more than the stake, or a slash without effect |
| `Slashing.SlashNeverRaises` | crates/vrrb_core/src/claim.rs:289-292 | a slash of at most 100 percent, computed in `f64`, never raises the stake if and only if it is of less than 100 percent, or the stake as a float is not above the stake, or the cast saturates at the stake |
| `Slashing.SlashesPercentage` | crates/vrrb_core/src/claim.rs:289-292 | below 2^40 a slash of at most 100 percent takes the percentage rounded down, or one unit less where it is a whole number |
| `Slashing.SlashRaises` | crates/vrrb_core/src/claim.rs:289-292 | a stake of 2^54 + 3 slashed completely becomes 2^128 - 1 |
| `QuorumAssignment.AssignPeerListToQuorums` | crates/node/src/consensus/quorum_module.rs:98-169 | the three loops give every validator and miner its assignment, for every iteration order |
| `QuorumAssignment.OfTypeInOrder` | crates/node/src/consensus/quorum_module.rs:102-114 | the peers of a type are taken in the iteration order |
| `QuorumAssignment.LastPeerCounts` | crates/node/src/consensus/consensus_module.rs:711-730 | of several peers with one id the last is the member and the one tracked |
| `QuorumAssignment.EveryoneOnce` | crates/node/src/consensus/quorum_module.rs:98-169 | each validator is a Harvester or a Farmer, the Harvesters are the first 30 percent, each miner is a Miner, nobody else is assigned |
| `QuorumAssignment.ThirtyPercent` | crates/node/src/consensus/quorum_module.rs:116-118 | below the first failing number of validators, 3377699720527877, the number of Harvesters, computed in `f64`, is the exact ceiling of 30% |
| `QuorumAssignment.PeersExactly` | crates/node/src/consensus/quorum_module.rs:76-169 | whom a node gets as peers: the other Harvesters, all other validators, or the other Miners |
| `QuorumAssignment.PeersSymmetric` | crates/node/src/consensus/quorum_module.rs:76-93 | no node is its own peer, and peer lists among Harvesters and among Miners are symmetric |
| `QuorumAssignment.ConsensusModule.constructor` | crates/node/src/consensus/quorum_module.rs:37-68 | all configured members are tracked, none is online |
| `QuorumAssignment.ConsensusModule.HandleNodeAddedToPeerList` | crates/node/src/consensus/consensus_module.rs:635-684 | over all runs of joins, assignments are emitted if and only if the node is a bootstrap node with a configuration all of whose members have joined; otherwise the peer's key is recorded for the key generation |
| `QuorumAssignment.ConsensusModule.HandleQuorumMembershipAssignmentCreated` | crates/node/src/consensus/consensus_module.rs:686-735 | fails exactly on a bootstrap node or if a membership is set, and then changes nothing; over all runs of events the membership is that of the first one |
| `QuorumAssignment.FirstMembershipStays` | crates/node/src/consensus/consensus_module.rs:686-735 | over any run of assignment events the first one decides the membership for good |

## Left out

- The job pool and task joining are modelled on values, as step systems: threads, mutexes, channels and condition variables are atomic steps, not Dafny objects.
- `running_jobs_count`, the completion times kept for back pressure, and `join` without a deadline, which waits for one notification only.
- `min_jobs` as a lower bound on live workers: the idle check and the later decrement are separate steps.
- The `is_timeout` flag and the length of time-outs: a worker may time out whenever nothing is ready.
- Panics inside jobs: a panicking job is one that completes.
- JobPoolSafety.WorkerBounds: with a concurrency limit of zero the bound on a pending map is one, for the job a thread was spawned with.
- Floats.CeilAtMost: floats are modelled only where no result is too small or too large for the format.
- QuorumAssignment.AssignPeerListToQuorums: the gossip addresses of a peer are one value.
- RoundState.StateManager.UpdateState: tries and their commits are plain maps.
- Slashing.SlashNeverRaises: says nothing of slashes of more than 100 percent, which the type allows; the stake log itself holds for any slash function.
- HeaderChain.ChainClosedForm: rounds, heights and epochs are unbounded, where the source has `u128`; hashes, signatures and timestamps are left out.
- Batch.BatchRefinesSequence: says nothing of `storage` and `code`, which in a batch are those of the update merged last (`LastMergedWins`).
- Accounts.Account.Update: does not model the account hash and the time stamp.
- Miner.CandidateIsProposal: the convergence blocks traced from a reference are an arbitrary function, which stands for the DAG search of `get_sources`.
- Transfers.TransferConservation: fees are not a conservation law; equal fee updates are merged by the set, and senders are not debited for them.
- The statements about transfers assume that a digest identifies a transaction, and those about blocks that hashes in the DAG are distinct.
- Cryptography, key generation, certificates, votes, signatures and VRF proofs.
- `Quorum::get_eligible_claims`, whose filter asks for two eligibilities at once, and the mempool.
- Networking, RPC, telemetry, configuration, storage back ends and the command line.

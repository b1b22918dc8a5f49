# Qubitum runtime: verified models

A Dafny model of the parts of the Qubitum/Subtensor runtime where the admission decisions and the
accounting are made, with proofs of what those parts promise over every input and every run.
`dafny verify dfyconfig.toml` checks all of it.

## What is modelled

**Call scanners and filters** (`RuntimeCalls`, `DepthScan`, `CheckMortality`, `QubitumPrivacy`,
`ShieldQueueFilter`). The runtime has five scanners that walk a call through its wrappers and through the
bytes of noted preimages, stop at depth 8, and treat bytes that are a call only between the remaining depth
and 32 as a hit. They are modelled branch by branch. Three of them (queue entries, submissions, privacy)
share a skeleton, `DepthScan.Scan`; the other two call the privacy scan. The specification they are proved
against is reachability along paths of any length (`Reaches`, `PathTo`), which knows no budget and takes every
step from a call to one it carries, including those no scanner takes: to the call a crowdloan is created with,
and to a noted preimage that decodes only beyond the probe depth. A path without such a step is `Open`. The
scanners are exact for open paths (`ReachesOpenly`), the theorems named `...Iff` say exactly when that falls
short of all paths, and `WithinBudget` says along paths when the budget is exceeded. All of it holds for every
decoder that obeys the stated laws: a larger depth limit never changes a success (`LimitStable`) and a decode
reads only the bytes it consumes (`ReadsPrefix`).

**A codec** (`CallCodec`). A concrete byte codec with SCALE's depth accounting, its exact meaning and the
proof that it obeys those laws, so that the results about the filters hold without an assumption for it.

**The encrypted extrinsic queue** (`ShieldQueue`, `ShieldQueueProgress`). `store_encrypted` and `process_pending_extrinsics` of the
shield pallet, which use the queue filter and the queue origin, and their runs from the empty queue. A dispatch
out of the queue may itself store extrinsics; the loop's end was read before it.

**Precompile dispatch and stake allowances** (`MachineIntegers`, `Weights`, `DispatchCost`, `StakeAllowances`,
`BalanceConverter`, `AlphaPrice`). Charging and refunding around a dispatched call, the allowance ledger that
dispatches through it, balance conversion, and the saturating price sum.

**Transaction admission** (`CheckNonce`, `FeePayer`). Nonce validation and preparation with the pool tags, and
the resolution of the account that pays the fee of a proxied call.

## What the proofs found

- The persistence scanner of the queue filter never changes the verdict: whatever it reports of a call that
  passes the recursive scanner, the routing scanner reports as well (`PersistenceScannerRedundant`).
- The queue filter, the contract filter and the precompile guard do not depend on the current shield key,
  although the privacy scan they call does.
- No scanner looks at the call a crowdloan is created with (`pallets/crowdloan/src/lib.rs:325`), which the
  crowdloan dispatches when it is finalized. Such a creation is admitted to the queue and passes the era check
  and the precompile guard whatever that call is (`StoredCallUnseen`, `StoredEntryAdmitted`,
  `StoredSubmissionPasses`, `StoredQubitumPasses`). Noting a call nested deeper than 32 is admitted to the queue
  likewise (`DeepPreimageUnseen`). A call that can be reached goes unreported exactly if the budget is kept and
  every path to one has such a step (`UnreportedIff` and its instances), and an admitted payload keeps
  all the filter is for exactly if it openly reaches no call that hides a way to an entry or a Qubitum call
  (`AdmittedFullyKeptIff`).
- The queue is first-in first-out and loses nothing exactly if at most 2^32 extrinsics were ever stored. Its
  counter sticks at the last index: the extrinsic there is never handled, and the next one stored overwrites
  it. Exactly the 2^32-th and all later ones but the newest are lost (`RunsKeep`, `RunsInOrder`,
  `LastIndexNeverHandled`), and any history longer than that occurs (`HistoryLost`).
- The documentation of `process_pending_extrinsics` says that it works up to the weight limit. The code checks
  the limit only before a dispatch. One extrinsic that is only cleared away can exceed it (`LimitExceeded`). A
  block that only clears away, as every block does under the decryptor the runtime is configured with, stays
  within a limit exactly if the reads it starts with and one removal for each extrinsic do
  (`ClearingLimitIff`). With dispatches, the limit binds by what calls declare and not by what they report: the
  loop adds the reported weight unclamped, so one call that declares nothing takes a block to whatever it
  reports (`ReportExceedsLimit`). Every block stays within its limit and one read, or the reads it starts with,
  plus one removal for each pending extrinsic, plus what dispatches report beyond what they declare
  (`LimitWithRoom`). Without such an excess term a total is kept, whatever is reported, exactly if the block
  dispatches nothing and keeps it (`KeptWhateverReportedIff`).
- The per-extrinsic cap and the limit of a block are set independently. The heaviest call the cap lets pass
  fits at the start of a block exactly under `Fits` (`FitsNeverPostpones`, `TooTightPostpones`). Where it does
  not, a first extrinsic can be postponed by every block, and then nothing behind it is handled either
  (`HeadOfLine`, `StallHappens`). Where it does, every block handles at least one more (`BlocksDrain`). In either case an
  extrinsic below the last index is gone after the first block for which it is overdue (`OverdueHandled`).
- Both weight limits of the queue have proof size zero. A call that declares any proof size is discarded, and
  once a dispatch has reported some the block dispatches nothing more (`ProofSizeDecides`,
  `ProofSizeEndsDispatches`).
- A new registration invalidates every allowance on a subnet exactly unless the 64-bit registration counter
  already is at its maximum, and there is a run from the empty ledger to that point (`AllowanceSurvives`).
- An accepted nonce recurs exactly after a whole turn of the 32-bit counter (the release profile has no
  overflow checks, so the model wraps), and from every state there is such a run (`ReplayHappens`).
- A comment in the batch fee resolution speaks of announced proxies with an explicit delegate. The code does
  not handle `proxy_announced` there, and the model follows the code.

## Assumptions about what lies outside

The answers of code that is not modelled are parameters, and the theorems hold for all of them: whether a
ciphertext parses and carries the current key, decryption, dispatch results, declared and reported weights,
the verdicts of the transaction extension, gas and weight mappings, subnet prices, providers and sufficients
of an account, and what a dispatch from the queue stores in it. A failed EVM call restores the storage it
started from. A handle records a cost entirely or refuses it entirely.

## Model

| member | source | states |
|---|---|---|
| `DepthScan.FailsClosed` | runtime/src/lib.rs:344-396 | whatever some open path of any length through wrappers and preimages leads to is reported from every starting depth |
| `DepthScan.ScanMonotone` | runtime/src/lib.rs:344-396 | starting deeper never turns a yes into a no, although the decode limit of preimages shrinks |
| `DepthScan.ScanDecomposes` | runtime/src/lib.rs:181-207 | a scan answers yes if and only if the budget is exceeded along some path or something to find can be reached along an open path of any length |
| `DepthScan.ScannedEdgeIff` | runtime/src/lib.rs:344-396 | the steps the scanners take are exactly the steps of all paths that neither a crowdloan nor a preimage beyond the probe depth hides |
| `DepthScan.UnreportedIff` | runtime/src/lib.rs:344-396 | something that can be reached along any path goes unreported if and only if the budget is kept and every path to it is hidden somewhere |
| `DepthScan.HiddenPathIff` | pallets/crowdloan/src/lib.rs:319-364 | a hidden path exists if and only if a call that hides a way to the goal is openly reached |
| `DepthScan.ScanExact` | runtime/src/lib.rs:154-207 | a scan answers yes if and only if some path decodable within the remaining budget ends in a hit, at depth 8, or at a preimage that is a call only up to the probe depth |
| `DepthScan.BudgetScan` | runtime/src/lib.rs:154-155 | the cut-offs alone fire exactly when the budget is exceeded along some path |
| `DepthScan.ScanWeaken` | runtime/src/lib.rs:344-396 | looking for more leaves finds more |
| `DepthScan.ScanThroughEdge` | runtime/src/lib.rs:344-396 | what is reported of a call is reported of every call one step above it, also through a preimage |
| `DepthScan.TrailingBytesIgnored` | runtime/src/lib.rs:186-204 | bytes appended to a preimage that decodes at the probe depth never change the verdict on it |
| `DepthScan.WrappedBudget` | runtime/src/lib.rs:154 | n wrappers around a leaf, scanned from a depth, are within the budget if and only if both together are below 8 |
| `DepthScan.NotedScan` | runtime/src/lib.rs:155 | bytes noted at a depth are decoded with the limit 7 less that depth and probed with 32 |
| `RuntimeCalls.CarriedByDispatchable` | runtime/src/lib.rs:353-390 | a call is carried by another if and only if it is an argument of one of twenty dispatchables, listed one by one |
| `CallCodec.RoundTrip` | runtime/src/lib.rs:187-191 | an encoded call within the depth limit decodes to itself and leaves the bytes that follow |
| `CallCodec.DecodeExact` | runtime/src/lib.rs:187-191 | a decode gives a call if and only if its nesting is within the limit and its encoding starts the bytes |
| `CallCodec.CodecLawful` | runtime/src/lib.rs:187-204 | the codec obeys both decoder laws |
| `CallCodec.EncodedDecodes` | runtime/src/lib.rs:187-204 | an encoded call decodes to itself exactly within its nesting and to nothing else below it |
| `CallCodec.NotedCallScanned` | runtime/src/lib.rs:181-207 | noting an encoded call is judged as the call itself where it decodes, as a hit up to nesting 32, and as no call beyond |
| `CallCodec.DeepPreimageUnseen` | runtime/src/lib.rs:196-204 | noting a call nested deeper than 32 is admitted although a queue entry can be reached through it |
| `CallCodec.QueueFilterForCodec` | runtime/src/lib.rs:159-165 | the filter characterisation along open paths without any assumption about decoding |
| `CheckMortality.SubmitScan` | runtime/src/check_mortality.rs:60-109 | the scanner's branches amount to the common skeleton with `submit_encrypted` as the leaf |
| `CheckMortality.SubmitScanBytes` | runtime/src/check_mortality.rs:31-58 | decode-all, prefix decode and two probes give the verdict of one prefix decode and one probe |
| `CheckMortality.SubmitMonotone` | runtime/src/check_mortality.rs:31-109 | scanning from deeper down never turns a yes into a no |
| `CheckMortality.SubmitIgnoresTrailingBytes` | runtime/src/check_mortality.rs:31-58 | trailing bytes after a decodable preimage never change the verdict |
| `CheckMortality.EraCheckExact` | runtime/src/check_mortality.rs:111-126 | a transaction is stale if and only if its era is longer than 8 blocks and it openly reaches a submission or exceeds the budget |
| `CheckMortality.EraCheckMissesIff` | runtime/src/check_mortality.rs:111-126 | a submission that can be reached along any path passes under a longer era if and only if the budget is kept and every path to one is hidden |
| `QubitumPrivacy.ReportsFirst` | runtime/src/qubitum_privacy.rs:66-136 | the violation reported is the first one in pre-order |
| `QubitumPrivacy.ReportsFirstOfBytes` | runtime/src/qubitum_privacy.rs:32-64 | the same for the bytes of a preimage |
| `QubitumPrivacy.ReportsFirstInOrder` | runtime/src/qubitum_privacy.rs:66-136 | within the budget the violation reported is the one at the first place in the tree of calls, in lexicographic order of places of any depth, and none is reported if there is none |
| `QubitumPrivacy.PrivacyScan` | runtime/src/qubitum_privacy.rs:66-136 | a violation is reported exactly when the common skeleton finds one |
| `QubitumPrivacy.OwnViolationExact` | runtime/src/qubitum_privacy.rs:114-136 | which call is which violation by itself, by its kind and what the ciphertext is; a submission under the current key is none |
| `QubitumPrivacy.ReportsMainFirst` | runtime/src/qubitum_privacy.rs:66-100 | `if_else` is reported for its main call before its fallback, and a batch from its first call on |
| `QubitumPrivacy.ViolationExact` | runtime/src/qubitum_privacy.rs:22-30 | a call is private if and only if it openly reaches a violating call or exceeds the budget |
| `ShieldQueueFilter.RecursiveScan` | runtime/src/lib.rs:344-396 | the recursive scanner amounts to the common skeleton with the two queue entries as leaves |
| `ShieldQueueFilter.RecursiveScanBytes` | runtime/src/lib.rs:181-207 | its decoding policy amounts to one prefix decode and one probe |
| `ShieldQueueFilter.RecursiveExact` | runtime/src/lib.rs:344-396 | from every depth it answers yes if and only if the budget is exceeded or a queue entry can be reached along an open path of any length |
| `ShieldQueueFilter.RecursiveUnreportedIff` | runtime/src/lib.rs:344-396 | a queue entry that can be reached along any path goes unreported if and only if the budget is kept and every path to one is hidden |
| `ShieldQueueFilter.RecursiveAlarm` | runtime/src/lib.rs:181-207 | the same in terms of paths within the remaining budget |
| `ShieldQueueFilter.SubmitImpliesRecursive` | runtime/src/check_mortality.rs:60-109 | what the mortality scanner reports the recursive scanner reports |
| `ShieldQueueFilter.PrivateIffQubitum` | runtime/src/qubitum_privacy.rs:26-30 | for a call the recursive scanner lets through, private means that a Qubitum call is openly reached |
| `ShieldQueueFilter.PrivateUpwards` | runtime/src/qubitum_privacy.rs:66-136 | privacy passes upwards through every wrapper and every decodable preimage |
| `ShieldQueueFilter.UnroutableExact` | runtime/src/lib.rs:292-342 | of a call the recursive scanner lets through, the routing scanner reports exactly those with a path to a Qubitum call that leaves the origin-keeping wrappers |
| `ShieldQueueFilter.PersistentExact` | runtime/src/lib.rs:242-290 | and the persistence scanner exactly those with a path to a Qubitum call through a scheduled call or a noted preimage |
| `ShieldQueueFilter.EncodedPrivateMonotone` | runtime/src/lib.rs:209-240 | the verdict on a private preimage fails closed as the depth grows and its decode limit shrinks |
| `ShieldQueueFilter.UnroutableMonotone` | runtime/src/lib.rs:292-342 | starting deeper never turns a yes of the routing scanner into a no, for any call |
| `ShieldQueueFilter.PersistentMonotone` | runtime/src/lib.rs:242-290 | nor one of the persistence scanner |
| `ShieldQueueFilter.PersistenceScannerRedundant` | runtime/src/lib.rs:159-165 | the persistence scanner never changes the verdict of the filter |
| `ShieldQueueFilter.QueueFilterExact` | runtime/src/lib.rs:159-165 | a payload is admitted if and only if it is within the budget, openly reaches no queue entry, and each open path from it to a Qubitum call keeps the origin |
| `ShieldQueueFilter.QueueFilterKeyIndependent` | runtime/src/lib.rs:159-165 | the verdict is the same under every state of the shield keys |
| `ShieldQueueFilter.OriginRouting` | runtime/src/lib.rs:167-179 | an admitted payload gets the submitter's shielded origin if and only if it openly reaches a Qubitum call, and each such call keeps that origin |
| `ShieldQueueFilter.AdmittedPassesEraCheck` | runtime/src/check_mortality.rs:111-126 | an admitted payload passes the era check under every era |
| `ShieldQueueFilter.WrappedJudged` | runtime/src/lib.rs:154-165 | n wrappers around a call of no concern are admitted, pass the era check and pass the precompile guard if and only if n is below 8 |
| `ShieldQueueFilter.QubitumAdmittedInside` | runtime/src/lib.rs:297-308 | a Qubitum call is admitted inside each of the three batches and `if_else` |
| `ShieldQueueFilter.QubitumRefusedInside` | runtime/src/lib.rs:309-337 | and refused inside each of the fifteen other scanned wrappers |
| `ShieldQueueFilter.StoredCallUnseen` | pallets/crowdloan/src/lib.rs:319-364 | creating a crowdloan with any call is admitted under the plain origin, passes the era check under every era and is not private |
| `ShieldQueueFilter.StoredEntryAdmitted` | pallets/crowdloan/src/lib.rs:591-612 | with a `store_encrypted` it is admitted although a queue entry can be reached |
| `ShieldQueueFilter.StoredSubmissionPasses` | pallets/crowdloan/src/lib.rs:591-612 | with a `submit_encrypted` it passes under every era although a submission can be reached |
| `ShieldQueueFilter.StoredQubitumPasses` | pallets/crowdloan/src/lib.rs:591-612 | with a Qubitum call it passes the precompile guard and is admitted under the plain origin although a Qubitum call can be reached |
| `ShieldQueueFilter.AdmittedFullyKeptIff` | runtime/src/lib.rs:159-179 | an admitted payload reaches no queue entry and keeps the origin on all paths to a Qubitum call if and only if it openly reaches no call that hides a way to one |
| `ShieldQueueFilter.PrecompileGuardExact` | runtime/src/lib.rs:1946-1953 | a precompile refuses exactly the calls that exceed the budget or openly reach a Qubitum call or a queue entry |
| `ShieldQueueFilter.PrecompileGuardMissesIff` | runtime/src/lib.rs:1946-1953 | the guard misses a Qubitum call or a queue entry that can be reached along any path if and only if the budget is kept and every path to one is hidden |
| `ShieldQueueFilter.ContractFilterExact` | runtime/src/lib.rs:1927-1944 | a contract may dispatch exactly the `proxy` calls for which none of that holds |
| `ShieldQueue.ShieldPallet.StoreEncrypted` | pallets/shield/src/lib.rs:441-466 | stores at the next index and advances it if there is a signer and room, and otherwise answers the error and writes nothing |
| `ShieldQueue.ShieldPallet.HandleIndex` | pallets/shield/src/lib.rs:572-659 | the branches of the loop, each with its own removal, weight and event, come to the fate, the queue and the weight of the account that the theorems are about |
| `ShieldQueue.ShieldPallet.ProcessPendingExtrinsics` | pallets/shield/src/lib.rs:557-663 | the loop leaves the queue, the events, the postponed index and the weight of `BlockWork` |
| `ShieldQueue.StoreKeepsContiguousIff` | pallets/shield/src/lib.rs:452-462 | storing keeps the pending indices contiguous if and only if the counter is below its maximum |
| `ShieldQueue.RunsWithinCapacity` | pallets/shield/src/lib.rs:447-450 | over every run no more extrinsics are pending than the largest capacity a store was checked against, dispatches included |
| `ShieldQueue.RoomForOne` | pallets/shield/src/lib.rs:636-642 | a dispatch out of a full queue can store one extrinsic, because its own has left before |
| `ShieldQueue.WorkTakesFront` | pallets/shield/src/lib.rs:557-663 | a block handles the front of what was stored, each extrinsic once, as stored and in order, whatever its dispatches store meanwhile, stops early only at the index it postpones and leaves the rest in the queue |
| `ShieldQueue.WorkWeighs` | pallets/shield/src/lib.rs:578-658 | the weight reported is the saturated sum of a removal for each extrinsic handled and of the reported, or else declared, weight of each dispatch |
| `ShieldQueue.DispatchCharged` | pallets/shield/src/lib.rs:637-658 | a removal for each fate, plus the reported weight of a dispatch, or the declared one if it reports none or fails |
| `ShieldQueue.WorkBound` | pallets/shield/src/lib.rs:612-658 | the time spent is at most the limit and one read, or what was spent before, plus one removal for each extrinsic handled, plus what dispatches report beyond what they declare |
| `ShieldQueue.LimitExceeded` | pallets/shield/src/lib.rs:555-563 | one extrinsic that is only cleared away takes a block of limit 4 to a reported 5 |
| `ShieldQueue.ClearingLimitIff` | pallets/shield/src/lib.rs:555-600 | a block whose pending extrinsics are all too old, undecryptable, refused or too heavy stays within a limit if and only if the reads it starts with plus their number times the weight of a removal do, or the limit is the largest 64-bit number |
| `ShieldQueue.LimitWithRoom` | pallets/shield/src/lib.rs:612-658 | the same of a whole block, with the number of pending extrinsics times the weight of a removal |
| `ShieldQueue.ReportExceedsLimit` | pallets/shield/src/lib.rs:644-649 | one call that declares no time takes a block with limit 10 to whatever time it reports |
| `ShieldQueue.KeptWhateverReportedIff` | pallets/shield/src/lib.rs:612-658 | a block keeps a total below the largest 64-bit number whatever its dispatches report if and only if it dispatches nothing and keeps it |
| `ShieldQueue.ExcessesNoneIff` | pallets/shield/src/lib.rs:644-649 | there is no excess if and only if no dispatch reports more time than its call declares |
| `ShieldQueue.FateSafe` | pallets/shield/src/lib.rs:580-643 | each fate has its reason: a dispatched extrinsic is fresh, light, what its submitter encrypted, within the budget, openly reaches no queue entry, and runs its openly reached Qubitum calls under the submitter's shielded origin; a discarded one is too old, or else undecryptable, or else not admissible, or else too heavy |
| `ShieldQueue.SafeIsDispatched` | pallets/shield/src/lib.rs:580-643 | an extrinsic that may be dispatched is dispatched if it fits in the block and postponed otherwise |
| `ShieldQueue.ProofSizeDecides` | pallets/shield/src/lib.rs:617-634 | a call that declares any proof size is discarded, and one that declares none is postponed once the block has spent some |
| `ShieldQueue.ProofSizeEndsDispatches` | pallets/shield/src/lib.rs:629-650 | after some proof size is spent a block dispatches nothing more |
| `ShieldQueue.RunsInOrder` | pallets/shield/src/lib.rs:441-663 | over every run what was handled followed by what is pending in the order of indices is what was stored, in the order stored, if and only if at most 2^32 extrinsics were stored |
| `ShieldQueue.RunsKeep` | pallets/shield/src/lib.rs:441-663 | over every run they are what was stored except that of all from the last index on only the newest is there |
| `ShieldQueue.LastIndexNeverHandled` | pallets/shield/src/lib.rs:460-570 | over every run no block handles the last index, and an extrinsic is pending there once 2^32 were stored |
| `ShieldQueue.AnyHistory` | pallets/shield/src/lib.rs:441-663 | any sequence of extrinsics is what some run stored |
| `ShieldQueue.HistoryLost` | pallets/shield/src/lib.rs:452-462 | for every history of more than 2^32 extrinsics there is a run that stores it and loses those the last index overwrites |
| `ShieldQueue.RunsSafe` | pallets/shield/src/lib.rs:441-663 | over every run the k-th extrinsic handled is the k-th stored, its fate has its reason in the block that handled it, and those blocks come in order |
| `ShieldQueueProgress.HandlesNothingIff` | pallets/shield/src/lib.rs:570-635 | a block over a queue with something to handle handles nothing if and only if it postpones the first extrinsic, and then changes nothing |
| `ShieldQueueProgress.WorkPostponesFresh` | pallets/shield/src/lib.rs:580-634 | what a block postpones is not too old, undecryptable, refused or too heavy |
| `ShieldQueueProgress.HandlesCleared` | pallets/shield/src/lib.rs:580-634 | a block handles every extrinsic before the first one that is not to be cleared away, whatever the limit |
| `ShieldQueueProgress.ClockedRuns` | pallets/shield/src/lib.rs:452-457 | over every run in the order of block numbers what is stored later is submitted no earlier |
| `ShieldQueueProgress.OverdueHandled` | pallets/shield/src/lib.rs:580-588 | over every such run an extrinsic below the last index is handled and no longer pending after a block for which it is overdue |
| `ShieldQueueProgress.FitsNeverPostpones` | pallets/shield/src/lib.rs:617-634 | settings under which the heaviest call allowed fits postpone nothing at that point |
| `ShieldQueueProgress.TooTightPostpones` | pallets/shield/src/lib.rs:617-634 | under any other settings a block to which an extrinsic is a call of that weight postpones it as long as it is not too old |
| `ShieldQueueProgress.BlocksDrain` | pallets/shield/src/lib.rs:557-663 | after n blocks with fitting settings at least n more extrinsics are handled, or all there were |
| `ShieldQueueProgress.HeadOfLine` | pallets/shield/src/lib.rs:629-634 | as long as every block postpones the first extrinsic at its start nothing is handled, whatever is stored behind it |
| `ShieldQueueProgress.StallHappens` | pallets/shield/src/lib.rs:629-634 | under such settings there are runs in which an extrinsic is handled by no block of its lifetime, nor anything behind it |
| `DispatchCost.Handle.ChargeAndRefundAfterDispatch` | precompiles/src/extensions.rs:160-188 | charges gas for the actual weight, leaves exactly that weight charged, and never refunds more than was charged |
| `DispatchCost.Handle.TryDispatchRuntimeCall` | precompiles/src/extensions.rs:52-158 | Ok if and only if the call is not private, within the gas limit and the caps, passed by the extension, paid for or free, and succeeds; each error if and only if its condition fails first; and the charge left in each case |
| `DispatchCost.StagesByFields` | precompiles/src/extensions.rs:78-188 | the same of the account by stages that the conservation results are about |
| `DispatchCost.SettledByFields` | precompiles/src/extensions.rs:126-184 | the weight settled at, from the reported, declared, extension and unspent weights, in plain numbers |
| `DispatchCost.RefusedPrivateIff` | precompiles/src/extensions.rs:78-85 | a call is refused as private, before any charge, if and only if it exceeds the scan budget or openly reaches a Qubitum call or a queue entry |
| `DispatchCost.SettledWeight` | precompiles/src/extensions.rs:126-184 | the weight left charged is at most the declared one, and exactly what was reported plus the extension's weight less the unspent part if the report is within the declaration |
| `DispatchCost.MeterStaysValid` | precompiles/src/extensions.rs:104-108 | no recorded amount passes its cap |
| `DispatchCost.ChargesConserved` | precompiles/src/extensions.rs:78-188 | over every sequence of dispatches the external weight and the gas recorded are the sums of what the stage of each leaves charged, within every cap |
| `DispatchCost.DispatchAll` | precompiles/src/extensions.rs:52-188 | a sequence of dispatches on one handle gives the answers of their stages and records those sums |
| `StakeAllowances.StakingPrecompile.Approve` | precompiles/src/staking.rs:493-516 | sets the caller's allowance under the current registration, or fails by gas or netuid and changes nothing |
| `StakeAllowances.StakingPrecompile.Allowance` | precompiles/src/staking.rs:518-538 | answers the allowance under the current registration |
| `StakeAllowances.StakingPrecompile.IncreaseAllowance` | precompiles/src/staking.rs:540-569 | adds with saturation, and does and costs nothing for zero |
| `StakeAllowances.StakingPrecompile.DecreaseAllowance` | precompiles/src/staking.rs:571-604 | subtracts down to zero, and does and costs nothing for zero |
| `StakeAllowances.StakingPrecompile.TryConsumeAllowance` | precompiles/src/staking.rs:606-637 | succeeds if and only if the amount is zero or the gas is there and the allowance covers it; takes exactly the amount from that allowance, and otherwise nothing; touches no other |
| `StakeAllowances.StakingPrecompile.TransferStakeFrom` | precompiles/src/staking.rs:639-670 | success means the allowance covered the amount and is less by it, and the transfer dispatched is the one asked for with at most that amount in 64 bits; every other outcome, the ledger and what is recorded in each |
| `StakeAllowances.StepConserves` | precompiles/src/staking.rs:509-634 | what remains, is consumed and lapses is what was there and is granted |
| `StakeAllowances.RunConserves` | precompiles/src/staking.rs:493-670 | the same over every run and for every allowance, and the stake moved is at most what was consumed |
| `StakeAllowances.PerformAll` | precompiles/src/staking.rs:493-670 | over any sequence of precompile calls the stake dispatched under a key is at most what was consumed, and with what remains at most what was there plus what the approver granted |
| `StakeAllowances.RunValid` | precompiles/src/staking.rs:509-634 | over every run no zero is stored and no key is ahead of its subnet's counter |
| `StakeAllowances.StepFrame` | precompiles/src/staking.rs:504-566 | an operation changes only the allowance it names, and only an approval or increase by the approver raises one |
| `StakeAllowances.OnlyApproverRaises` | precompiles/src/staking.rs:493-566 | over every run without such calls by an approver no allowance of theirs grows |
| `StakeAllowances.FirstApproval` | precompiles/src/staking.rs:486-516 | nothing is allowed in an empty ledger, and a first approval is kept under the registration counter zero |
| `StakeAllowances.StakingPrecompile.RegisterNetwork` | pallets/subtensor/src/subnets/subnet.rs:207 | advances the registration counter, which sticks at its maximum, and touches no allowance |
| `StakeAllowances.RegistrationInvalidates` | pallets/subtensor/src/lib.rs:1696-1706 | after a new registration every allowance on the subnet reads zero exactly unless the counter was at its maximum |
| `StakeAllowances.AllowanceSurvives` | pallets/subtensor/src/lib.rs:1696-1706 | from the empty ledger there is a run after which an allowance survives a registration |
| `StakeAllowances.StaleStaysDead` | precompiles/src/staking.rs:486-491 | an allowance of an earlier registration is never granted, spent or read again in any later run |
| `StakeAllowances.FreshAfterRegistration` | precompiles/src/staking.rs:486-538 | what can be spent after a registration is at most what is granted after it |
| `BalanceConverter.SubstrateRoundTrip` | runtime/src/lib.rs:1669-1711 | a substrate balance survives the trip to the EVM and back if and only if it fits in 64 bits, and one that overflows 256 bits is refused on the way there |
| `BalanceConverter.EvmRoundTrip` | runtime/src/lib.rs:1690-1711 | an EVM balance comes back without its last nine decimals and with nothing else lost |
| `BalanceConverter.AddStakeOutcomes` | precompiles/src/staking.rs:736-757 | each error of the deprecated payable call up to its dispatch if and only if its condition, and the amount otherwise |
| `BalanceConverter.AddStakeConserves` | precompiles/src/staking.rs:736-757 | the deprecated payable call stakes what it sent back, which is the value sent up to less than one unit |
| `AlphaPrice.GetSumAlphaPrice` | precompiles/src/alpha.rs:192-215 | nothing saturates: the answer is exactly 10^9 times the whole part of 10^9 times the sum over the set of networks |
| `CheckNonce.System.Prepare` | runtime/src/check_nonce.rs:142-162 | refunds, refuses a nonce ahead of the validated one and changes nothing, or sets the account to the one after it modulo 2^32 and changes no other account |
| `CheckNonce.System.Apply` | runtime/src/check_nonce.rs:95-162 | preparation right after validation accepts and updates as `Accepts` and `After` say |
| `CheckNonce.AcceptsExact` | runtime/src/check_nonce.rs:105-160 | a signed transaction is accepted exactly at its account's nonce if the account may hold one, and changes no other account |
| `CheckNonce.ValidateExact` | runtime/src/check_nonce.rs:105-140 | a transaction is let into the pool if and only if it is unsigned, or not behind its account and paid for, however far ahead; each refusal has its error |
| `CheckNonce.TagsExact` | runtime/src/check_nonce.rs:120-139 | it provides its own nonce and requires the one before if and only if it is ahead of its account |
| `CheckNonce.MissingAccount` | runtime/src/check_nonce.rs:108-115 | of an account that does not exist exactly the free transactions at nonce zero are accepted |
| `CheckNonce.NoncesCountUp` | runtime/src/check_nonce.rs:95-162 | over every run the nonces accepted from an account count up from its first one without a gap |
| `CheckNonce.ReplayedIff` | runtime/src/check_nonce.rs:155-160 | two accepted transactions of an account carry the same nonce if and only if a whole turn of the counter lies between them |
| `CheckNonce.AnyNumberAccepted` | runtime/src/check_nonce.rs:95-162 | for every n the next n transactions of an account that may hold a nonce are all accepted |
| `CheckNonce.ReplayHappens` | runtime/src/check_nonce.rs:155-160 | so the first transaction is accepted again after a whole turn of the counter |
| `CheckNonce.PoolTagsExact` | runtime/src/check_nonce.rs:116-135 | pooled transactions with distinct tags, in any order and of any accounts, are all accepted if and only if each comes after those whose tags it requires |
| `CheckNonce.PooledIff` | runtime/src/check_nonce.rs:105-135 | transactions can be pooled together if and only if each is let in and no two are of one account and nonce |
| `CheckNonce.NextPooled` | runtime/src/check_nonce.rs:116-135 | the next transactions of an account up to its last nonce are pooled in whatever order they come |
| `CheckNonce.AcceptedInOrderIff` | runtime/src/check_nonce.rs:95-162 | applied one after the other they are all accepted if and only if they come in the order of their nonces from the account's own on |
| `FeePayer.ExtractInnerProxyPayer` | runtime/src/transaction_payment_wrapper.rs:126-140 | gives the inner real account if and only if it pays for the outer one |
| `FeePayer.ExtractBatchProxyPayer` | runtime/src/transaction_payment_wrapper.rs:142-184 | gives an account if and only if the call is `batch`, `batch_all` or `force_batch`, not empty, all of it is proxied for that account and it pays for the outer one, with at most one lookup |
| `FeePayer.ExtractRealFeePayer` | runtime/src/transaction_payment_wrapper.rs:97-124 | gives an account if and only if it is the one the fee passes on to, with at most two lookups of the three charged |
| `FeePayer.PayerChain` | runtime/src/transaction_payment_wrapper.rs:86-96 | a payer is joined to the signer by one or two opt-ins that follow the nesting |
| `FeePayer.PassesOnToOne` | runtime/src/transaction_payment_wrapper.rs:109-123 | the fee passes on to at most one account |
| `FeePayer.CasesDisjoint` | runtime/src/transaction_payment_wrapper.rs:112-120 | the nested proxy and the batch case exclude each other, so their order is immaterial |
| `FeePayer.BatchOrderIrrelevant` | runtime/src/transaction_payment_wrapper.rs:161-183 | the payer of a batch does not depend on the order or the number of its items |

## Left out

- SCALE's byte format: the results use its depth accounting and the two laws only.
- Call arguments that no modelled function reads (indices, weights, periods, signatories, the addresses of announced proxies).
- DispatchCost.Handle.RecordExternalCost: refuses a cost as a whole; how the EVM's stack splits a partly recordable cost is not modelled.
- The parsing of shielded ciphertexts and the rotation of the shield keys: parameters of the scans.
- The pallets behind the dispatched calls, including the execution of a queued call; what it stores in the queue is a parameter.
- What the code of a contract or an EVM transaction dispatches: it meets the contract filter or the precompile guard when it does, and is no call carried by the transaction.
- The other entry points of the staking precompile, the other precompiles and the chain extension: they forward to pallets.
- `getAlphaPrice` and `getMovingAlphaPrice`: one saturating product each.
- `ProxyType::filter` and `is_superset`: finite tables.
- The fee charge itself and the priorities of the transaction payment wrapper.
- The node, its RPC and its chain specification tools.

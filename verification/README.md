# Verified models of the SAMPRAAN backend

SAMPRAAN manages permissioned assets whose custody lives on a private chain and whose policy, read models and
content live in a backend. This project models the backend's stateful algorithms and proves what they guarantee
over whole runs. Each component is a Dafny module: values and step functions with lemmas about all their runs, and
classes whose methods follow the source statement by statement and are tied to those step functions.

- `ChainIndexer`, `ChainIndexerService`: the projection of chain events into audit rows, through crashes and restarts.
- `SubmitQueue`: the promise-chain mutex of the operator key, with nonce reset and one retry.
- `ImportClosure`: the source collector whose recursive visits share one regular-expression cursor.
- `Authorization`, `CustodyPipeline`, `CustodyService`: approvals, transfers, assignments and the custody read model.
- `BitStreams`, `StorageReferences`, `Base64Url`: base32 and base64url over bit streams.
- `SlidingWindow`, `LoginThrottle`, `RateLimiter`: the two limiters and their sharp bounds.
- `ContentVersions`, `KeyGenerations`, `ContentAccess`, `AccessGrants`: protocols over table rows.
- `AssetSubgraph`: the handlers that fold the registry's log into entities.
- `AssurancePolicy`: the scoring engine for cryptographic assurance.
- `ContentEnvelope`: envelope encryption, key wrapping and the object store.
- `Options`: result types.

`dafny verify dfyconfig.toml` checks everything.

Some comments in the source promise more than the code gives. The model follows the code. For each such promise there
is a lemma that says exactly when it holds and one with an input for which it fails:

| promise | holds exactly when | fails at |
|---|---|---|
| no gap after downtime | `CompletedScanIndexesExactly`, `GapIsClosedExactly` | `GapHappens` |
| every recognised event is projected exactly once | `EventsAreProjectedOnceExactly`, `EventGetsItsRowExactly` | `RoleGrantsShareARow` |
| also after a crash inside a transaction | `SiblingKeyIsIndexedExactly` | `CrashInsideATransactionHappens` |
| one transaction per submission | `AtMostOneTransactionExactly` | `TwoTransactionsHappen` |
| an approval authorizes one transfer | `SecondUseExactly`, `TransferHappensExactly` | `SecondUseHappens` |
| an approval is used up only for its recipient | `WrongApprovalIsUsedUp` | `WrongApprovalIsUsedUpExample` |
| chain and read model agree | `AgreementNeedsTheWrite` | `DriftHappens` |
| the proved key becomes the active one | `ProvedKeyBecomesActive` | `OldKeyComesBack` |
| five failures per fifteen minutes | `FivePerFifteenMinutesExactly` | `EightFailuresHappen` |
| an unknown risk value counts as the worst | `UnknownRiskIsNotCritical` | `UnknownRiskExample` |

## Model

| member | source | states |
|---|---|---|
| `ChainIndexer.EveryTransactionIsIndexed` | server/modules/blockchain/chain-event-indexer.ts:88-184 | Bounded-lag completeness: in every run of chain growth, scans, crashes inside a scan, failed reads and restarts, where a scan's head is at most `windowBlocks` above the last completed one, every transaction with a recognised event from the first completed scan's floor to the last completed scan's head has a row |
| `ChainIndexer.RunKeepsComplete` | server/modules/blockchain/chain-event-indexer.ts:106-184 | The invariant behind it, kept by every step of every such run: covered up to the last completed head and below the durable checkpoint |
| `ChainIndexer.ScanCovers` | server/modules/blockchain/chain-event-indexer.ts:106-183 | One scan, completed or cut short, extends what is covered to its checkpoint, and to the head if it completed |
| `ChainIndexer.EveryKeyIsIndexedWithoutCrashes` | server/modules/blockchain/chain-event-indexer.ts:88-184 | In crash-free runs not only every transaction but every distinct key (transaction, name, subject) of a recognised event has a row |
| `ChainIndexer.EventsAreProjectedOnceExactly` | server/modules/blockchain/chain-event-indexer.ts:155-181 | The comment promises each recognised event exactly one row; in crash-free runs with complete hash reads there are as many rows as events for every key of the blocks scanned so far if and only if no two recognised events agree in transaction, name and subject |
| `ChainIndexer.EventGetsItsRowExactly` | server/modules/blockchain/chain-event-indexer.ts:154-181 | Event number i of a scan is written as the next row if and only if it is recognised, the hash read does not report its transaction, its key is neither remembered nor persisted, and no earlier event of the scan has its key |
| `ChainIndexer.RoleGrantsShareARow` | server/modules/blockchain/chain-event-indexer.ts:60-63 | A concrete failing scan without any crash: three RoleGranted events of one transaction, told apart only by their log index, get one row |
| `ChainIndexer.NoKeyIsIndexedTwice` | server/modules/blockchain/chain-event-indexer.ts:118-181 | Over any number of scans and restarts with complete hash reads, no two rows share an event key, although the persisted key read may return only some of the keys |
| `ChainIndexer.ScanKeepsKeysDistinct` | server/modules/blockchain/chain-event-indexer.ts:149-181 | Why: the transaction hashes and the keys of this scan together cover what the truncated key read misses |
| `ChainIndexer.ScanInsertsExactly` | server/modules/blockchain/chain-event-indexer.ts:152-181 | A scan gives a row to a key if and only if a handled event has it, is recognised, and belongs to no transaction that already had a row |
| `ChainIndexer.EventKeyInjective` | server/modules/blockchain/chain-event-indexer.ts:59-64 | The composite key separates transaction, event name and subject |
| `ChainIndexer.KeyNamesItsTransaction` | server/modules/blockchain/chain-event-indexer.ts:59-64 | The key determines its transaction hash, so a row's key and its hash never disagree |
| `ChainIndexer.MaxBlock` | server/db.ts:595-603 | The checkpoint is the highest block of any chain row, and absent exactly without rows |
| `ChainIndexer.FromBlockExactly` | server/modules/blockchain/chain-event-indexer.ts:107-111 | A scan starts at the window floor, or at a later checkpoint, and never above the head |
| `ChainIndexer.EveryRowTellsAnEvent` | server/modules/blockchain/chain-event-indexer.ts:190-218 | In every run each row carries the key hash:name:subject, the transaction, the block and the audit action of a recognised event of the chain |
| `ChainIndexer.EventsAreASlice` | server/modules/blockchain/chain-event-indexer.ts:126-131 | The log query returns the one contiguous part of the chain whose blocks lie in the range, in chain order and each event once |
| `ChainIndexer.SiblingKeyIsIndexedExactly` | server/modules/blockchain/chain-event-indexer.ts:146-177 | The comment calls the hashes legacy only; in fact a key without a row, as a crash inside its transaction may leave it, gets one in a completed scan exactly if its transaction has no row yet |
| `ChainIndexer.LostSiblingStaysLost` | server/modules/blockchain/chain-event-indexer.ts:172-177 | A key lost that way gets a row in no later run |
| `ChainIndexer.CrashInsideATransactionLosesSiblings` | server/modules/blockchain/chain-event-indexer.ts:154-181 | A scan cut between two recognised events of one transaction leaves the second without a row in every continuation |
| `ChainIndexer.CrashInsideATransactionHappens` | server/modules/blockchain/chain-event-indexer.ts:154-181 | A concrete chain and crash that does so |
| `ChainIndexer.SkippedBlockStaysSkipped` | server/modules/blockchain/chain-event-indexer.ts:107-111 | A transaction without a row whose block has fallen below the look-back window gets no row in any later run, whatever the checkpoint |
| `ChainIndexer.CompletedScanIndexesExactly` | server/modules/blockchain/chain-event-indexer.ts:99-131 | The comment promises no gap after long downtime; in fact, whatever crashed before, after a completed scan a transaction with a recognised event has a row if and only if it had one or the event lies at or above the block the scan started from |
| `ChainIndexer.GapIsClosedExactly` | server/modules/blockchain/chain-event-indexer.ts:99-111 | So a completed scan covers everything from a block to the head if and only if every recognised event below the starting block, the later of window floor and checkpoint, had its transaction indexed already |
| `ChainIndexer.GapAfterDowntimeExactly` | server/modules/blockchain/chain-event-indexer.ts:107-111 | In crash-free histories: if and only if no recognised event lies above the last scanned head and below the window floor |
| `ChainIndexer.GapHappens` | server/modules/blockchain/chain-event-indexer.ts:107-111 | A concrete run: an indexed event in block 0, an event in block 1, and a completed scan at block 600 with window 500 that reads checkpoint 0, starts at block 100 and leaves block 1 without a row |
| `ChainIndexerService.AuditStore.ListIndexedChainEventKeys` | server/db.ts:572-586 | The key read returns some keys of the rows, and all of them only up to 5000 rows |
| `ChainIndexerService.AuditStore.ListIndexedChainTxHashes` | server/db.ts:556-564 | The hash read returns the hashes of all chain rows |
| `ChainIndexerService.AuditStore.GetMaxIndexedChainBlock` | server/db.ts:595-603 | The checkpoint read is the highest block of the table |
| `ChainIndexerService.ChainEventIndexer.IndexRecentEvents` | server/modules/blockchain/chain-event-indexer.ts:76-86 | The overlap guard: a second call changes nothing; otherwise one scan happens and the guard is down again even after a throw. It returns exactly if neither the log query nor a write throws, with the counters of the scan, and then every transaction from the starting block to the head has a row |
| `ChainIndexerService.ChainEventIndexer.RunScan` | server/modules/blockchain/chain-event-indexer.ts:88-184 | A read that succeeds is the table's answer and one that throws an empty one; the scan returns exactly if neither the log query nor a write throws, and rows, memory and counters are those of the modelled scan |
| `ChainIndexerService.ChainEventIndexer.IndexEvents` | server/modules/blockchain/chain-event-indexer.ts:152-181 | The loop handles all events exactly if the writes they need succeed, and else stops at the write that throws, with exactly the rows before it |
| `ChainIndexerService.CompletedScanCovers` | server/modules/blockchain/chain-event-indexer.ts:152-183 | A scan whose writes all succeed has a row for every transaction with a recognised event from its starting block to the head |
| `SubmitQueue.CyclesNeverOverlap` | server/modules/blockchain/besu-blockchain.service.ts:119-135 | In every reachable state a started submit cycle finds every earlier call settled: one cycle at a time, in call order |
| `SubmitQueue.RetriedOnlyAfterNonceError` | server/modules/blockchain/besu-blockchain.service.ts:120-131 | Each settled call ran its task once or twice, twice exactly if the first run ended in a nonce error |
| `SubmitQueue.CallIsFulfilledExactly` | server/modules/blockchain/besu-blockchain.service.ts:119-135 | In every run a settled call is fulfilled exactly if its receipt showed its transaction mined, and then it has a pool entry; it ends in a nonce error exactly if two of its runs met one |
| `SubmitQueue.EndsAreTold` | server/modules/blockchain/besu-blockchain.service.ts:120-131 | The ends of a call's runs are, in order, those its steps brought: errors before sending, refusals, failed sends, receipts |
| `SubmitQueue.EntriesAreTold` | server/modules/blockchain/besu-blockchain.service.ts:119-131 | The pool entries of a call are its sends that were accepted, or refused or failed but entered |
| `SubmitQueue.AtMostOneTransactionExactly` | server/modules/blockchain/besu-blockchain.service.ts:114-131 | The comment promises that a nonce error entered nothing, but "already known" is matched too; a settled call has at most one pool entry if and only if it ran once, or its refused first run entered nothing, or its second run entered nothing, and never more than two |
| `SubmitQueue.AtMostOneTransactionPerCall` | server/modules/blockchain/besu-blockchain.service.ts:108-131 | Where refusals enter nothing each call puts at most one transaction in the pool, in call order |
| `SubmitQueue.TransactionsEnterInCallOrder` | server/modules/blockchain/besu-blockchain.service.ts:132-134 | Pool order is call order whatever the refusals mean |
| `SubmitQueue.TwoTransactionsHappen` | server/modules/blockchain/besu-blockchain.service.ts:137-150 | A concrete run: a first send refused as already known but held by the node, and an accepted retry |
| `SubmitQueue.SettledIsFinal` | server/modules/blockchain/besu-blockchain.service.ts:132-134 | A call settles once: afterwards neither its task runs nor its pool entries change |
| `SubmitQueue.NoncesAreConsecutive` | server/modules/blockchain/besu-blockchain.service.ts:112-131 | With exclusive use of the key the pool carries consecutive nonces in call order, also when a refusal entered |
| `SubmitQueue.QueueNeverStalls` | server/modules/blockchain/besu-blockchain.service.ts:132-134 | No failure blocks later calls: while a call is unsettled some queue step is possible |
| `SubmitQueue.EveryCallSettles` | server/modules/blockchain/besu-blockchain.service.ts:119-135 | Between two calls the queue takes boundedly many steps, and when it rests every call has settled |
| `SubmitQueue.RunIsSafe` | server/modules/blockchain/besu-blockchain.service.ts:119-135 | The invariant of all runs: chained promises, serial cycles, run counts, pool in call order, and one pool entry for each run that entered |
| `SubmitQueue.QueueStepsUseUpWork` | server/modules/blockchain/besu-blockchain.service.ts:119-135 | Every queue step uses up work, so no call retries for ever |
| `SubmitQueue.SubmitService.EnqueueSubmit` | server/modules/blockchain/besu-blockchain.service.ts:132-134 | A call chains itself behind the present mutex and becomes the mutex |
| `SubmitQueue.SubmitService.BeginAttempt` | server/modules/blockchain/besu-blockchain.service.ts:120-123 | An attempt starts with a reset signer once the call before has been caught |
| `SubmitQueue.SubmitService.FinishTask` | server/modules/blockchain/besu-blockchain.service.ts:124-130 | A nonce error of the first run resets the signer and runs the task again; anything else settles the call |
| `SubmitQueue.SubmitService.AllocateNonce` | server/modules/blockchain/besu-blockchain.service.ts:112-115 | The nonce is the signer's cached one, else the node's pending count |
| `SubmitQueue.SubmitService.Send` | server/modules/blockchain/besu-blockchain.service.ts:119-131 | Accepted, refused for its nonce, or failed, each with or without entering the pool: the new state of queue, signer and pool |
| `SubmitQueue.SubmitService.ReceiptArrived` | server/modules/blockchain/besu-blockchain.service.ts:1001-1014 | A receipt completes the task run, its absence fails it |
| `SubmitQueue.SubmitService.TaskThrew` | server/modules/blockchain/besu-blockchain.service.ts:122-130 | An error before anything is sent ends the task run; only a nonce error of the first run is retried |
| `SubmitQueue.SubmitService.RunCaught` | server/modules/blockchain/besu-blockchain.service.ts:133 | Once its run is caught the next call may start |
| `ImportClosure.CollectSources` | scripts/compile-contracts.ts:48-80 | Terminates on every finite import graph, cycles included; returns exactly if every file reachable from the roots exists, and then exactly those files, each once, each with its own content |
| `ImportClosure.SourceCollector.AddFile` | scripts/compile-contracts.ts:52-74 | A visit adds only reachable files and all their imports although every visit to an unseen file leaves the shared cursor at 0 and its parent scans again |
| `ImportClosure.SourceCollector.NextImport` | scripts/compile-contracts.ts:61-63 | One execution of the shared global expression from the cursor: the next match, or none and the cursor back at 0 |
| `ImportClosure.SourceCollector.ReadFile` | scripts/compile-contracts.ts:55-62 | A seen file is recorded once with its content and the cursor reset |
| `ImportClosure.Exec` | scripts/compile-contracts.ts:42 | The first match that starts at or after the cursor: all before it start earlier; none exactly if all start earlier |
| `ImportClosure.ExecSkipsNothing` | scripts/compile-contracts.ts:63 | No match between the cursor and the found one is skipped |
| `ImportClosure.ClosedSetHoldsChains` | scripts/compile-contracts.ts:52-74 | A set of files closed under imports holds every file an import chain leads to |
| `ImportClosure.ResolvesBesideTheFile` | scripts/compile-contracts.ts:65-72 | A relative import is looked up beside its file, a library import below the library's prefix, an absolute one not at all |
| `ImportClosure.NormalizedIsCanonical` | scripts/compile-contracts.ts:69-70 | Keys have no empty or dot segments and climb only at the front, and canonical keys stay as they are |
| `ImportClosure.StepsUpCancel` | scripts/compile-contracts.ts:69-70 | A segment and the step up behind it cancel wherever they stand |
| `CustodyPipeline.SensitiveTransfersAreApproved` | server/routers.ts:972-1025 | In every run of serialised calls with successful writes, confirmed transfers of HIGHLY_SENSITIVE or CRITICAL assets map one to one into EXECUTED approvals of the same requester for the same asset, decided by another identity, with no target or this recipient |
| `CustodyPipeline.RunKeepsAccount` | server/routers.ts:1241-1243 | The invariant of all runs behind it, with at most one live approval per requester and asset |
| `CustodyPipeline.EveryRowIsTold` | server/routers.ts:1420-1465 | In every run each approval row was asked for by its requester for its asset and target, and each decided one was decided by an administrator's call, whose identity is its approver and another than its requester |
| `CustodyPipeline.DecisionHappensExactly` | server/routers.ts:1441-1465 | A decision happens exactly for a registered administrator, on a pending row of somebody else, and changes that row only |
| `CustodyPipeline.RequestHappensExactly` | server/routers.ts:1420-1439 | A request is answered exactly with an identity and an asset, and adds one pending row with its target exactly if none was active |
| `CustodyPipeline.AssignmentHappensExactly` | server/routers.ts:780-842 | An assignment happens exactly for a platform administrator, an asset not revoked, an active custodian and a chain that confirms; what it changes |
| `CustodyPipeline.SecondUseExactly` | server/routers.ts:1238-1243 | The comment promises that one approval never authorizes a second transfer; in fact, after any run, a further transfer is confirmed on an already used approval if and only if it is confirmed at all and an earlier transfer of the asset by this requester used a row that no transfer could mark |
| `CustodyPipeline.TransferHappensExactly` | server/routers.ts:1080-1190 | and it is confirmed if and only if the gate is open, the chain is configured and confirms, and does not already show the recipient |
| `CustodyPipeline.TransferAnswersExactly` | server/routers.ts:1087-1230 | Behind an open gate: no chain, custody that already is as asked, or a chain that rejects, and nothing changes then |
| `CustodyPipeline.TransferIsRecorded` | server/routers.ts:1165-1253 | A confirmed transfer's history entry, chain custodian and, where written, custodian of record |
| `CustodyPipeline.RunIsBooked` | server/db.ts:833-841 | The invariant of all runs with any failing writes: a used row belongs to its transfer's requester and asset and is EXECUTED exactly if some transfer using it could mark it, else still APPROVED |
| `CustodyPipeline.UnmarkedApprovalStaysInUse` | server/routers.ts:1241-1243 | A failed mark leaves the requester's usable approval as it was; a successful one leaves none |
| `CustodyPipeline.SecondUseHappens` | server/routers.ts:1241-1243 | A concrete run from empty tables: one approval of a CRITICAL asset and two confirmed transfers to different recipients |
| `CustodyPipeline.AccountNeedsTheMark` | server/routers.ts:1241-1243 | One confirmed transfer keeps the account exactly if the row in use was marked or none was used |
| `CustodyPipeline.WrongApprovalIsUsedUp` | server/routers.ts:1241-1243 | A confirmed transfer uses up an approval given for another recipient exactly if that row is the requester's active approved one, and never for sensitive assets |
| `CustodyPipeline.WrongApprovalIsUsedUpExample` | server/routers.ts:1000-1003 | A concrete public asset, approval and transfer where this happens |
| `CustodyPipeline.GateOpensExactly` | server/routers.ts:901-1080 | The chain is reached exactly if asset, actor, owner and named recipient are active, the actor holds the permission and is administrator or present custodian, HIGHLY_SENSITIVE or HIGH risk comes with step-up (and HIGHLY_SENSITIVE not from role USER), and a sensitive asset has an approved approval that matches the recipient |
| `CustodyPipeline.GateAnswersExactly` | server/routers.ts:901-1080 | Each answer of the checks: missing or inactive asset, unknown recipient, challenge against denial, and the permission |
| `CustodyPipeline.RowsOnlyAdvance` | server/db.ts:818-841 | No call deletes or rewrites an approval: pending is decided once by another identity, approved is executed once |
| `CustodyPipeline.StepKeepsOneActive` | server/db.ts:788-805 | A requester never has two live approvals for one asset |
| `CustodyPipeline.StepKeepsAccount` | server/routers.ts:1417-1465 | Each kind of call keeps the account |
| `CustodyPipeline.ActiveApproval` | server/db.ts:788-805 | The newest pending or approved row of this requester for this asset: none after it is one; none exactly if there is none |
| `CustodyPipeline.CloseRows` | server/db.ts:474-477 | Exactly the rows of the asset are closed |
| `CustodyPipeline.CustodyAgreesInEveryRun` | server/db.ts:455-490 | In every run with successful writes each asset has at most one open custody row, and from its first move on row, asset table and chain name one custodian |
| `CustodyPipeline.MoveKeepsAgreement` | server/db.ts:466-486 | One confirmed move keeps that agreement for all assets |
| `CustodyPipeline.AgreementNeedsTheWrite` | server/routers.ts:1244-1253 | If the read-model write fails the layers agree exactly if the asset was already recorded with that custodian |
| `CustodyPipeline.DriftHappens` | server/routers.ts:1244-1253 | A concrete transfer whose failed read-model write makes the layers disagree |
| `CustodyPipeline.StepKeepsAgreement` | server/routers.ts:780-842 | Assignments, transfers, approvals and status changes keep the agreement |
| `CustodyService.Platform.RequestTransferApproval` | server/routers.ts:1420-1439 | Done exactly with an identity and an asset, and then an active approval exists; an existing one is returned instead of a second |
| `CustodyService.Platform.Decide` | server/routers.ts:1441-1465 | Only administrators, never one's own request, pending rows only; then the row carries the decision and the caller as approver, else nothing changes |
| `CustodyService.Platform.UpdateApprovalStatus` | server/db.ts:818-831 | The guarded update succeeds exactly on a pending row and changes nothing else |
| `CustodyService.Platform.MarkApprovalExecuted` | server/db.ts:833-841 | Marks this row and no other |
| `CustodyService.Platform.ApplyCustodyTransfer` | server/db.ts:455-490 | Asset custodian, closed rows and the new open row in one transaction |
| `CustodyService.Platform.ResolveRequest` | server/routers.ts:978-1030 | The policy's inputs come from the tables; an approval for another recipient does not count |
| `CustodyService.Platform.DecideTransfer` | server/routers.ts:900-1085 | The order and outcome of all checks before the chain is touched |
| `CustodyService.Platform.RecordTransfer` | server/routers.ts:1241-1253 | The whole state after a confirmed transfer, with and without failing writes |
| `CustodyService.Platform.AuthorizeAssetTransfer` | server/routers.ts:900-1270 | The procedure does the modelled step; a confirmed transfer passed every check and moved the chain to the recipient, and any other reply changed nothing |
| `CustodyService.Platform.AssignAsset` | server/routers.ts:780-842 | Assignment by a platform administrator: only of assets not revoked to active custodians; moves chain and read model, or changes nothing |
| `Authorization.RiskNeverGrants` | server/modules/authorization/authorization.service.ts:139-153 | Advisory risk turns no refusal into an ALLOW |
| `Authorization.AllowsExactly` | server/modules/authorization/authorization.service.ts:40-165 | ALLOW as one condition: active identity, permission, and for transfers classification, custody, approval, and step-up for HIGH risk |
| `Authorization.DeniesExactly` | server/modules/authorization/authorization.service.ts:40-125 | DENY as one condition: ruled out by standing, permission or role, or a transfer by a stranger or on a rejected approval unless a step-up is due first |
| `Authorization.ApprovalGate` | server/modules/authorization/authorization.service.ts:116-137 | An allowed transfer that needs an approval has an approved one; where none is needed, approvals other than rejected ones do not matter |
| `StorageReferences.Base32Encode` | server/modules/asset-content/storage.ts:417-435 | The encoder with its wrapping 32-bit accumulator equals unpadded lower-case base32 (section 6 of RFC 4648) on every byte string |
| `StorageReferences.Base32Length` | server/modules/asset-content/storage.ts:417-435 | ceil(8n/5) characters |
| `StorageReferences.Base32Injective` | server/modules/asset-content/storage.ts:417-435 | No two byte strings share an encoding |
| `StorageReferences.DeriveContentReference` | server/modules/asset-content/storage.ts:404-413 | Every reference is "bciqa" and the base32 of 30 digest bytes, has 53 characters and passes the guard |
| `StorageReferences.ContentReferencesAreSafe` | server/modules/asset-content/storage.ts:157-170 | The guard accepts every derived reference, and lower-casing changes nothing |
| `StorageReferences.RefusedReferences` | server/modules/asset-content/storage.ts:157-170 | The guard lets no separator and no step up through, and nothing empty or longer than 200 characters |
| `StorageReferences.ReferencesAgreeExactly` | server/modules/asset-content/storage.ts:404-413 | Two digests share a reference exactly if their first 30 bytes agree |
| `Base64Url.DecodesExactlyEncodings` | server/modules/crypto-assurance/ml-dsa.ts:41-58 | Decoding gives b exactly if b is nonempty and the text is b's base64url encoding (section 5 of RFC 4648, unpadded) |
| `Base64Url.OneSpellingPerKey` | server/modules/crypto-assurance/ml-dsa.ts:46-49 | Each byte string has one accepted spelling |
| `Base64Url.AcceptedSpellings` | server/modules/crypto-assurance/ml-dsa.ts:41-49 | Which texts are accepted, in terms of the text alone: non-empty, in the alphabet, length not 1 modulo 4, zero trailing bits |
| `Base64Url.LenientDecodeInvertsEncode` | server/modules/crypto-assurance/ml-dsa.ts:45-49 | The runtime's lenient decoder inverts the encoder, which the round-trip check relies on |
| `Base64Url.LettersAreTheAlphabet` | server/modules/crypto-assurance/ml-dsa.ts:41-58 | The letters are those of the base64url alphabet of RFC 4648, in its order |
| `LoginThrottle.AtMostEightFailuresPerWindow` | server/common/login-throttle.ts:42-68 | One attempt at a time, time not running backwards, no success: any half-open 15 minutes hold at most 8 unthrottled failures per account |
| `LoginThrottle.EightFailuresHappen` | server/common/login-throttle.ts:42-68 | The bound is reached: two adjacent windows of the throttle can share fifteen minutes |
| `LoginThrottle.AtMostFivePerThrottleWindow` | server/common/login-throttle.ts:42-55 | In every run, with or without successes, one window of the throttle holds at most five failures |
| `LoginThrottle.FivePerFifteenMinutesExactly` | server/routers.ts:319-323 | The comment promises five failures per fifteen minutes; no half-open fifteen minutes hold more than five if and only if, for each failure, its number in its window and the still young failures of the window before do not exceed five |
| `LoginThrottle.FailuresOfTheLastFifteenMinutes` | server/common/login-throttle.ts:42-55 | The fifteen minutes ending with a failure hold exactly its number in its window plus the young failures of the window before |
| `LoginThrottle.FilledWindowLeavesNothingYoung` | server/common/login-throttle.ts:51-53 | A filled window leaves no young failures, and the failure that opened a window is never young |
| `LoginThrottle.BlockOutlivesItsWindow` | server/common/login-throttle.ts:45-53 | When a block is over, so is the window that caused it |
| `LoginThrottle.ThrottledOnlyAfterFiveFailures` | server/routers.ts:319-363 | In every run, successes included, an attempt is throttled only after at least five wrong passwords since the account last logged in; otherwise the password alone decides |
| `LoginThrottle.LoginStartsAfresh` | server/common/login-throttle.ts:70-73 | After a login the account has no entry and no failures counted |
| `LoginThrottle.EntriesCountSinceLogin` | server/common/login-throttle.ts:42-55 | An entry counts failures since the last login only, and a block stands for five of them |
| `LoginThrottle.ThrottledExactly` | server/common/login-throttle.ts:61-68 | Without a success an attempt is throttled exactly if the last failure was the fifth of its window and less than fifteen minutes ago |
| `LoginThrottle.NineFailuresSpanAWindow` | server/common/login-throttle.ts:42-55 | Any nine consecutive failures take at least a window |
| `LoginThrottle.LoginThrottleTable.RecordLoginFailure` | server/common/login-throttle.ts:42-55 | The entry of this account after a failure; other accounts unchanged |
| `LoginThrottle.LoginThrottleTable.IsLoginThrottled` | server/common/login-throttle.ts:61-68 | Throttled exactly during a block, with the time left and the count |
| `LoginThrottle.LoginThrottleTable.ClearLoginFailures` | server/common/login-throttle.ts:71-73 | Forgets exactly this account |
| `LoginThrottle.LoginThrottleTable.Login` | server/routers.ts:318-363 | Check, verify, then record or clear: a login forgets the account, a wrong password touches only its entry, a throttled attempt nothing |
| `RateLimiter.MapNeverExceedsTheCap` | server/common/security.ts:132-148 | The map holds at most 10,000 clients after any requests |
| `RateLimiter.RequestIsCounted` | server/common/security.ts:146-161 | A request opens a window or counts in the open one, also when refused, and passes exactly below the limit |
| `RateLimiter.EvictsTheOldest` | server/common/security.ts:134-144 | From 10,000 entries on exactly the oldest go until 9,999 are left |
| `RateLimiter.SweepsExactly` | server/common/security.ts:28-32 | A sweep keeps exactly the unexpired buckets |
| `RateLimiter.SweepIsDueExactly` | server/common/security.ts:24-27 | It is due when thirty seconds have passed since the last one |
| `RateLimiter.DecisionsAreUnbounded` | server/common/security.ts:127-162 | A client whose bucket was never evicted gets exactly the decisions of a limiter that never sweeps or evicts |
| `RateLimiter.BoundedAgreesWithUnbounded` | server/common/security.ts:23-33 | Sweeping removes only what the unbounded limiter would ignore |
| `RateLimiter.AdmissionBound` | server/common/security.ts:146-161 | Such a client is admitted at most 2*maxRequests-1 times in any half-open window |
| `RateLimiter.AdmissionBoundIsReached` | server/common/security.ts:146-161 | and that many admissions happen |
| `RateLimiter.FewClientsAreNeverEvicted` | server/common/security.ts:134-144 | While fewer than 10,000 clients have been seen nobody is ever evicted |
| `RateLimiter.FewClientsAreLimitedExactly` | server/common/security.ts:127-162 | so then the unbounded decisions and the admission bound hold for every client, unconditionally |
| `RateLimiter.Limiter.Handle` | server/common/security.ts:127-162 | Sweep, evict, count, decide: the whole new map, the decision, and the wait as the fewest whole seconds |
| `RateLimiter.Limiter.SweepExpiredBuckets` | server/common/security.ts:23-33 | At most once per interval, exactly the expired buckets go |
| `RateLimiter.Limiter.EvictOldest` | server/common/security.ts:134-144 | At the cap the oldest entries go until one more fits |
| `SlidingWindow.SpanBoundsCount` | server/common/security.ts:146-161 | If any n+1 consecutive times span a window, no half-open window holds more than n of them |
| `SlidingWindow.IntervalsEndingAtTimesSuffice` | server/common/login-throttle.ts:42-55 | All half-open windows hold at most n times exactly if those ending with one of the times do |
| `ContentVersions.VersionsAreGapless` | server/db.ts:847-902 | Whatever the interleaving of uploads, each asset's versions are exactly 1..n without duplicate, and no claim is beyond n+1 |
| `ContentVersions.WinsExactlyWhenUndisturbed` | server/modules/asset-content/asset-content.router.ts:308-325 | An insert succeeds exactly if nobody inserted a version of the asset since the number was read |
| `ContentVersions.OneWinnerPerNumber` | server/modules/asset-content/asset-content.router.ts:259-265 | Of two uploads with the same number one loses, also later |
| `ContentVersions.MaxIsCount` | server/db.ts:893-902 | The highest number is the number of successful uploads of the asset |
| `ContentVersions.StepsOfAnUpload` | server/db.ts:853-902 | The claim a read makes, the row an insert writes for it, and that the upload is over then |
| `ContentVersions.HistoryIsKept` | server/modules/asset-content/asset-content.router.ts:259-262 | Old versions are never rewritten, dropped or reordered |
| `ContentVersions.MaxVersion` | server/db.ts:894-902 | The maximum of the asset's numbers, 0 without any |
| `ContentVersions.ContentVersionTable.NextVersionNumber` | server/db.ts:894-902 | The next number is free and one above the maximum |
| `ContentVersions.ContentVersionTable.Insert` | server/db.ts:853-891 | The unique index refuses a taken number and changes nothing then |
| `ContentVersions.CreateVersion` | server/modules/asset-content/asset-content.router.ts:308-325 | An uninterrupted upload always gets its number |
| `KeyGenerations.AtMostOneActiveKey` | server/db.ts:1504-1625 | In every run of registrations and revocations a DID has at most one ACTIVE row |
| `KeyGenerations.RowsFollowTheLadder` | server/modules/crypto-assurance/assurance.router.ts:200-273 | The rows of every DID are those of a two-field machine: keys by generation and registrations since the last revocation |
| `KeyGenerations.RotationChain` | server/db.ts:1577-1614 | Without revocation the rows are the proved keys in order: the last ACTIVE with generation the number of registrations, the others ROTATED and naming the next generation |
| `KeyGenerations.ProvedKeyBecomesActive` | server/db.ts:1590-1612 | A registration makes the proved key the active one exactly if no key was active, or the next generation has no row, or its row holds this very key |
| `KeyGenerations.OldKeyComesBack` | server/db.ts:1611 | Two keys, a revocation, two more: the second key is active again although the fourth was proved |
| `KeyGenerations.GenerationRoundTrip` | server/modules/crypto-assurance/ml-dsa.ts:140-149 | The generation read from an identifier is the one it was made for |
| `KeyGenerations.IdentifiersDiffer` | server/modules/crypto-assurance/ml-dsa.ts:140-143 | Different generations have different identifiers |
| `KeyGenerations.RegistrationClimbs` | server/modules/crypto-assurance/assurance.router.ts:224-273 | One registration, first or rotation, moves the machine one step |
| `KeyGenerations.RevocationDrops` | server/db.ts:1617-1625 | One revocation revokes every row of the DID |
| `KeyGenerations.RegistrationHappensExactly` | server/modules/crypto-assurance/assurance.router.ts:214-254 | A registration happens exactly for an eligible identity with a well-formed, proved key, and touches its own rows only |
| `KeyGenerations.RevocationHappensExactly` | server/modules/crypto-assurance/assurance.router.ts:306-319 | A revocation happens exactly to a DID with an active key, by its holder or an administrator, and revokes all rows of that DID only |
| `KeyGenerations.OtherIdentifiersAreGenerationOne` | server/modules/crypto-assurance/ml-dsa.ts:146-149 | Identifiers of another shape count as generation one |
| `KeyGenerations.Active` | server/db.ts:1548-1557 | The newest ACTIVE row, none exactly if there is none |
| `KeyGenerations.Retired` | server/db.ts:1592-1595 | Only the previous row is retired and linked |
| `KeyGenerations.KeyRecords.RegisterPqcKeyRecord` | server/db.ts:1504-1545 | Insert, or on a duplicate a new key and ACTIVE |
| `KeyGenerations.KeyRecords.RotatePqcKeyRecord` | server/db.ts:1577-1614 | Retire, then insert, or on a duplicate only ACTIVE |
| `KeyGenerations.KeyRecords.RegisterKey` | server/modules/crypto-assurance/assurance.router.ts:200-273 | Order of refusals, generation and the resulting rows |
| `KeyGenerations.KeyRecords.RevokeKey` | server/modules/crypto-assurance/assurance.router.ts:306-319 | Own DID, or any for an administrator; refused without an active key |
| `AccessGrants.GrantsFollowHistory` | server/db.ts:967-1039 | Whatever the interleaving, rows stay unique per asset, grantee and permission, and are live exactly if the history holds a grant not revoked since |
| `AccessGrants.AccessFollowsHistory` | server/modules/asset-content/content.service.ts:107-242 | An active verified non-administrator who is neither owner nor custodian gets a non-DENY VIEW of SENSITIVE-or-above content exactly if the history holds such a grant |
| `AccessGrants.EditFollowsHistory` | server/modules/asset-content/content.service.ts:174-197 | Such an identity may edit exactly if the history holds an edit grant not revoked since and it holds the permission; without the step-up it is challenged |
| `AccessGrants.UninterruptedGrant` | server/db.ts:976-1025 | The interleaved statements in a row do what one call does, and succeed exactly if no live grant was there |
| `AccessGrants.RowsAreKept` | server/db.ts:1030-1039 | Revocation is soft: rows never go and keep their asset, grantee and permission |
| `AccessGrants.GrantTable.CreateAccessGrant` | server/db.ts:967-1028 | A new row, the revoked row revived with fresh attribution, or a conflict exactly for a live one |
| `AccessGrants.GrantTable.RevokeAccessGrant` | server/db.ts:1031-1039 | Exactly a live row is revoked |
| `AccessGrants.RevokeExactly` | server/db.ts:1031-1039 | A revocation closes exactly a live row and is recorded for its key |
| `AccessGrants.Find` | server/db.ts:993-1003 | The row of this key, none exactly if there is none |
| `ContentAccess.EvaluateContentAccess` | server/modules/asset-content/content.service.ts:107-242 | The guarded returns give the verdict that the lemmas below characterise per action; the baseline is owner, custodian, grantee or none |
| `ContentAccess.StrangersNeedAGrant` | server/modules/asset-content/content.service.ts:199-216 | Without a relationship only a grant opens sensitive content, whatever the permissions |
| `ContentAccess.ViewExactly` | server/modules/asset-content/content.service.ts:162-221 | Who may view: administrators, owner, custodian, grantees, and readers of PUBLIC and CONTROLLED content |
| `ContentAccess.ChangeExactly` | server/modules/asset-content/content.service.ts:176-202 | Who may edit or upload: administrators, owner, custodian and holders of an edit grant, with the permission |
| `ContentAccess.ManageExactly` | server/modules/asset-content/content.service.ts:180-202 | Who may manage access: administrators and the owner with the permission, without challenge |
| `ContentAccess.ChallengedExactly` | server/modules/asset-content/content.service.ts:218-236 | A challenge is exactly an allowed action with a failed step-up that changes content or shows sensitive content |
| `ContentAccess.StrangersExactly` | server/modules/asset-content/content.service.ts:176-202 | Strangers change content exactly with an edit grant and the permission, and never manage access |
| `ContentAccess.AdministratorsAreNotDenied` | server/modules/asset-content/content.service.ts:127 | Administrators in good standing are never denied |
| `ContentAccess.AccessIsMonotone` | server/modules/asset-content/content.service.ts:136-197 | More grants or permissions never take access away; grants never open the access list |
| `AssetSubgraph.ReplayingTwiceIsReplayingOnce` | graph/mappings/asset-registry.ts:15-108 | Replaying any log twice from an empty store gives the store of one replay |
| `AssetSubgraph.RedoingASuffixChangesNothing` | graph/mappings/asset-registry.ts:15-108 | Stronger: handling any final part of the log again changes nothing |
| `AssetSubgraph.StoreTellsTheLog` | graph/mappings/asset-registry.ts:15-108 | Custodian of the last registration, assignment or transfer; status of the last status event after the last registration, else PENDING; time of the first registration |
| `AssetSubgraph.StoredIffRegistered` | graph/mappings/asset-registry.ts:15-31 | An asset entity exists exactly if its token was registered |
| `AssetSubgraph.TransfersAreTheMoves` | graph/mappings/asset-registry.ts:33-88 | One transfer entity per identifier of a registration, assignment or transfer, also for unknown tokens |
| `AssetSubgraph.TransferTellsItsMove` | graph/mappings/asset-registry.ts:33-88 | Its fields are those of the last such event; a sender that event does not name is one an earlier event of the same identifier named |
| `AssetSubgraph.TransferFields` | graph/mappings/asset-registry.ts:33-88 | Kind, sender, recipient and operator of the transfer entity of each kind of event |
| `AssetSubgraph.MintOfTheLastRegistration` | graph/mappings/asset-registry.ts:22-31 | Digests, creator and mint data of the last registration |
| `AssetSubgraph.UpdateOfTheLastMention` | graph/mappings/asset-registry.ts:30-98 | The update time told by the last event of the token |
| `AssetSubgraph.EventsAreRecorded` | graph/mappings/asset-registry.ts:43-108 | One event entity per identifier of a registration or status change |
| `AssetSubgraph.EventTellsItsRecord` | graph/mappings/asset-registry.ts:43-108 | It is that of the last such event |
| `AssetSubgraph.EventFields` | graph/mappings/asset-registry.ts:43-108 | Name and payload of the event entity |
| `AssetSubgraph.ReplayGrows` | graph/mappings/asset-registry.ts:17-21 | Entities stay, and keep the time of the first registration |
| `AssetSubgraph.Store.HandleAssetRegistered` | graph/mappings/asset-registry.ts:15-52 | The whole store after a registration |
| `AssetSubgraph.Store.HandleAssetAssigned` | graph/mappings/asset-registry.ts:54-71 | The whole store after an assignment |
| `AssetSubgraph.Store.HandleAssetTransferred` | graph/mappings/asset-registry.ts:73-91 | The whole store after a transfer |
| `AssetSubgraph.Store.HandleAssetStatusChanged` | graph/mappings/asset-registry.ts:93-108 | The whole store after a status change |
| `AssurancePolicy.AssuranceIsMonotone` | server/modules/crypto-assurance/assurance-policy.ts:278-363 | Worse classification, risk, advisory score, custody, approval or step-up, together, never lower the score, and with listed risk values never the level or the algorithms |
| `AssurancePolicy.UnknownClassificationIsCritical` | server/modules/crypto-assurance/assurance-policy.ts:244-255 | For every operation an unknown classification gives score and level of CRITICAL |
| `AssurancePolicy.UnknownRiskIsNotCritical` | server/modules/crypto-assurance/assurance-policy.ts:257-272 | An unknown risk value has the points of CRITICAL but its level exactly if the rest already demands the top level |
| `AssurancePolicy.UnknownRiskExample` | server/modules/crypto-assurance/assurance-policy.ts:346 | Viewing an asset under an unknown risk value is only ELEVATED |
| `AssurancePolicy.LevelExactly` | server/modules/crypto-assurance/assurance-policy.ts:338-357 | The level from score, risk, operation and codes |
| `AssurancePolicy.LevelOfTheOperationAlone` | server/modules/crypto-assurance/assurance-policy.ts:112-166 | Which operations demand a post-quantum signature, and which a step-up, when all else is well |
| `AssurancePolicy.PolicyPromises` | server/modules/crypto-assurance/assurance-policy.test.ts:67-148 | Never BASELINE for irreversible operations, post-quantum for the mandated ones, for critical risk and for transfers of CRITICAL assets; step-up lowers the score, administration does not |
| `AssurancePolicy.CircumstancesAddUp` | server/modules/crypto-assurance/assurance-policy.ts:276-337 | Every circumstance adds its own points, independently of all others |
| `AssurancePolicy.PointsOfCircumstances` | server/modules/crypto-assurance/assurance-policy.ts:201-214 | The points of role, classification, risk, advisory score, custody and approval |
| `AssurancePolicy.OperationsWeigh` | server/modules/crypto-assurance/assurance-policy.ts:169-199 | The points of the operations |
| `AssurancePolicy.MissingStepUpWeighs` | server/modules/crypto-assurance/assurance-policy.ts:331-337 | A missing step-up adds its points from 25 points of the operation on |
| `AssurancePolicy.UnknownOperationsAreHeaviest` | server/modules/crypto-assurance/assurance-policy.ts:280-282 | Unlisted operations count as the heaviest known |
| `AssurancePolicy.CodesOfTheOperation` | server/modules/crypto-assurance/assurance-policy.ts:282-286 | When the codes of the operation are emitted |
| `AssurancePolicy.CodesOfAssetAndRisk` | server/modules/crypto-assurance/assurance-policy.ts:244-261 | When the codes of classification and risk are emitted |
| `AssurancePolicy.CodesOfActorAndApproval` | server/modules/crypto-assurance/assurance-policy.ts:294-337 | When the codes of role, custody, approval and step-up are emitted |
| `AssurancePolicy.ReasonsAreOrdered` | server/modules/crypto-assurance/assurance-policy.ts:44-64 | The emitted codes are exactly those that apply, strictly in declared order |
| `AssurancePolicy.ReasonsTellTheLevel` | server/modules/crypto-assurance/assurance-policy.ts:350-357 | The post-quantum code appears exactly at the top level, the floor code never at BASELINE |
| `AssurancePolicy.EvaluateAssurance` | server/modules/crypto-assurance/assurance-policy.ts:278-383 | The engine as written computes that score, level, algorithms and list of codes |
| `AssurancePolicy.ClassificationWeight` | server/modules/crypto-assurance/assurance-policy.ts:244-255 | Points and codes of the classification |
| `AssurancePolicy.RiskWeight` | server/modules/crypto-assurance/assurance-policy.ts:257-272 | Points and codes of risk and clamped advisory score, which only adds |
| `AssurancePolicy.DecideLevel` | server/modules/crypto-assurance/assurance-policy.ts:338-357 | Thresholds and floors on the finished score |
| `ContentEnvelope.VersionIsReadableExactly` | server/modules/asset-content/content.service.ts:407-487 | After any uploads under one master key a stored version loads to its own plaintext if and only if the key id is not empty and the last upload under its reference had the same ciphertext |
| `ContentEnvelope.EveryVersionStaysReadable` | server/modules/asset-content/content.service.ts:407-487 | So each version whose reference was not reused for another ciphertext loads to its own plaintext and verifies, assuming of the cipher only that opening inverts sealing |
| `ContentEnvelope.ObjectOfTheLastUpload` | server/modules/asset-content/storage.ts:216-233 | The object under a reference is the ciphertext of the last upload stored there |
| `ContentEnvelope.UnwrapInvertsWrap` | server/modules/asset-content/storage.ts:96-122 | A wrapped key comes back under its own key id and under no other |
| `ContentEnvelope.LayoutRoundTrip` | server/modules/asset-content/storage.ts:97-119 | Twelve bytes of iv, the body and sixteen bytes of tag: parts and whole determine each other |
| `ContentEnvelope.UnwrapRefuses` | server/modules/asset-content/storage.ts:107-113 | Too little material or another key id, and nothing is opened |
| `ContentEnvelope.ParsesExactly` | server/modules/asset-content/content.service.ts:376-387 | An envelope is usable exactly with the known algorithm and four non-empty fields |
| `ContentEnvelope.NothingToLoad` | server/modules/asset-content/content.service.ts:480-487 | Nothing is loaded with a malformed envelope, an unsafe reference or a missing object |
| `ContentEnvelope.OwnObjectLoads` | server/modules/asset-content/content.service.ts:352-387 | While its object is in place a version loads exactly if the key id is not empty |
| `ContentEnvelope.OverwritingNeedsACollision` | server/modules/asset-content/storage.ts:404-413 | Only a collision of 30 digest bytes can overwrite a version |
| `ContentEnvelope.ContentStore.VerifyVersionIntegrity` | server/modules/asset-content/content.service.ts:445-477 | INTEGRITY_VERIFIED exactly if the content decrypts to the recorded hash and size; unavailable exactly if the object is missing |
| `ContentEnvelope.ContentStore.EncryptAndStore` | server/modules/asset-content/content.service.ts:407-427 | The version record and the one object written |
| `ContentEnvelope.ContentStore.LoadVersionPlaintext` | server/modules/asset-content/content.service.ts:480-487 | Parse, fetch, unwrap, decrypt; any failure throws |
| `ContentEnvelope.ContentStore.Put` | server/modules/asset-content/storage.ts:216-233 | Only safe references are written, each replacing its object |
| `ContentEnvelope.ContentStore.Get` | server/modules/asset-content/storage.ts:235-241 | Refused reference, missing object, or the object |

## Left out

- A missing database connection: every function of `server/db.ts` then returns an empty answer at once.
- How nonce errors are recognised from error codes and messages (besu-blockchain.service.ts:142-151): a step says which kind of error came, and whether the node holds the transaction all the same. A transaction reported as not mined is taken to stay unmined.
- Timing of promises and timers: concurrency is interleaving of atomic steps.
- Transactions the queue does not carry: approver and auditor keys sign outside it with signers of their own.
- Chain reorganisations and log decoding: logs arrive in block order, a transaction is in one block.
- Disk paths of the import collector, taken to correspond to the source keys, the content rewriting of OpenZeppelin prefixes, and the regular expression itself: a file is given by its content and the matches in it.
- Trimming and lower-casing of e-mail addresses, and simultaneous login attempts: attempts come one at a time under the normalised address.
- Several rate limiters sharing one request map, response headers other than the wait, and clocks running backwards.
- Concurrent `authorizeTransfer` calls: calls are serialised, and with overlapping calls an approval is not single-use.
- Approvals for other actions than TRANSFER: the procedures accept no other.
- Transfers through governance, anchoring of identities, audit events, decision records and risk assessment: `governance.router` and the contracts are not part of this model; the chain's answer is an input of the call.
- The wallet fallback when no operator key is configured; derived wallets of different identities are taken to differ.
- Digests, signatures, proofs of possession and random bytes are abstract: of the cipher that opening inverts sealing and that tags have 16 bytes, for `VersionIsReadableExactly` also that what opens under a full tag was sealed; of the keyed digest only its length.
- Base64 text of the envelope's fields: they are held as the bytes they encode.
- Numeric precision: generations, versions and times are unbounded, and table lookups never meet inherited property names.
- Returning at most 50 key rows after a registration: only the rows written are modelled.
- Failing disks, temporary files, streaming and the IPFS provider; the file system is taken to tell references apart.
- Validation of uploads: MIME sniffing, size limits and file names.
- The explanation texts of the assurance policy and the mapping from governance kinds to operations.
- ContentEnvelope.EveryVersionStaysReadable: needs that no later upload reuses the reference for another ciphertext, because a 30-byte digest cannot be injective; `VersionIsReadableExactly` shows the condition to be exact.

# Verified model of the directory's core

This project models the stateful core of the directory and the encodings it signs over, and
proves what they keep over every run. `dafny verify dfyconfig.toml` checks it.

- **Signed event log.** `CanonicalJson`, `EventMessages`: what a signature covers.
  `DirectoryLog`: the transactions that append, against a locked chain head, with retries and
  other sessions in between. `DirectoryRuns`: what every run keeps. `EventAudit`,
  `EventPaging`, `SeedAssessment`: the independent auditor, the paged endpoint it reads
  through, and the path from the directory's transactions to the auditor's report.
- **Credit ledger.** `CreditLedger`: the tables and five kinds of transaction as steps, and
  the accounting of whole runs. `CreditRepository`: the same transactions as code with
  commit, rollback, lost replies and retries.
- **Federated health.** `HealthStore`, `HealthScores`, `MeshHealth`: the last-writer-wins
  table, the majority vote and the mesh aggregate. `HealthConvergence`: when replicas agree.
- **Operator identities.** `Operators`, `OperatorChains`: registration, node bindings that
  are checked first and written later, rotation and revocation, and the chains they build.
- **Compact algorithms.** `Calendar` and `Timestamps`, `Base64`, `Fixtures`, `Ranking`, and
  `OutageOwner` on the `ContainerEngine` it drives, whose commands may act after a timeout.

`Text`, `Sorting`, `Reals` and `Database` hold what several of these share. Code that updates
state is a class or a method here, proved against a step function; the lemmas are about the
step function and its runs. `DirectoryEffects`, `CreditEffects` and `OperatorEffects` say what
each step does in terms of the tables' rows alone, without the functions that code and steps
share. `*`, `:|` and function-valued parameters stand for what the environment decides:
failures, clocks, fresh ids, hash-map order, row order.

Money is counted in whole ten-thousandths, so the tolerance of 0.0001 is one unit. Scores are
exact reals. Digests, signatures, key decoding and JSON parsing on the Python side are
functions about which nothing is assumed but what a lemma's `requires` says: no two of the
texts actually hashed collide and none digests to the chain's root constant, a signature fixes
its message, operator keys at hand have distinct fingerprints. Of signing it is assumed only,
and only where a clean audit is promised outright, that what the directory signs under its own
key is not empty and verifies under the auditor's public key, and that digests are not empty. Nothing
is assumed of other keys: whoever signs, the audit of a run is clean exactly when every
signature in its log verifies.

## Where the code and its comments differ

- `src/health.rs:279-282` says a strict-majority label wins. The label of the rounded median
  is what is reported, and rounding moves it exactly when the median lies less than half a
  thousandth below a label's bound (`MajorityPrevails`, `RoundingCanMoveTheLabel`).
- `src/health.rs:346-347` says the aggregate is the same on every replica. That needs the
  newest observations to agree where they tie. The conditions for equal tables
  (`TableConverges`), for one node (`NodeForgetsOrder`) and for all nodes of a table
  (`TableForgetsOrder`) are exact; for the aggregate the last is sufficient only, since
  nodes resolved differently can still add up to the same figures.
- `src/node_lifecycle.rs:897-904` refuses inactive operator keys, but the node is written
  later: `NodeEndsItsChainIff` and `RevokedNodesWereWrittenLate` say which nodes are left on a
  rotated or revoked key, and `RegistrationCanComeLate` gives a run that leaves one.
- `scripts/operator_directory_outage.py:75-122` recovers from a pause whose call timed out by
  unpausing. If the pause may act after its timeout, this settles the matter exactly when the
  engine refuses to unpause a running container (`UnpauseIsFinalIffStrict`,
  `LaxEnginePausesAfterRecovery`).
- `src/db.rs:3020-3022` says a stale replay affects no row. Whether the driver reports a
  matched but unchanged row as affected is a parameter (`matchCounts`); the stored rows do not
  depend on it.
- Timestamps sort like their times only through the year 9999, and a time a second or more
  before the epoch wraps to a huge year (`FixedWidthExactly`, `OrderEndsWithTheYear9999`).

## Model

| member | source | states |
|---|---|---|
| CanonicalJsonReader.CanonicalIdentifiesValue | src/federation.rs:27-52 | a reader recovers every JSON value, of any depth, from its canonical text up to member order, and two values share a text exactly when they are equal up to member order |
| CanonicalJsonReader.ReadCanonical | src/federation.rs:27-52 | the reader stops exactly at the end of the canonical text, whatever follows it, so canonical texts are self-delimiting |
| EventMessages.V1Determines | src/federation.rs:73-86 | the V1 text determines all six fields when ids, types and digests have no colon |
| EventMessages.V2Determines | src/federation.rs:89-116 | the V2 text determines all seven fields for accepted service ids |
| EventMessages.V1IsNotV2 | src/federation.rs:73-116 | no V1 text equals a V2 text with an accepted service id |
| EventMessages.V1Splits | src/federation.rs:73-86 | cut at its colons the V1 text is id, type, number, time, payload digest and link, in this order |
| EventMessages.V2Splits | src/federation.rs:89-116 | cut at its colons the V2 text is the domain, the service id and then the fields of the V1 text |
| EventMessages.PreimageSplits | ops/assess_prod_seed.py:71-81 | the text the auditor hashes for an event cuts into the event's own fields, its payload's digest and its link, or the root constant, in this order |
| EventMessages.ServiceIdsAre | src/federation.rs:108-116 | a service id is accepted exactly if it has 1 to 64 lower-case letters, digits, dots, underscores and dashes, the first a letter or digit |
| EventMessages.AuditorHashesTheMessage | ops/assess_prod_seed.py:71-81 | the auditor hashes exactly the message the directory signs, for either version, and a refused service id has none |
| TamperEvidence.PreimageDetermines | ops/assess_prod_seed.py:71-81 | two events whose covered texts are equal, whichever version each uses, agree on version, header fields, payload digest and link |
| TamperEvidence.SameEndSameLog | src/federation.rs:64-84 | two fully signed, linked and verified logs that end in the same signature have the same length and agree on every signed field of every event |
| TamperEvidence.AssumptionsCanBeMet | src/federation.rs:64-84 | the assumptions of tamper evidence hold together of some digest, signature scheme and log |
| EventAudit.SameHistory | ops/assess_prod_seed.py:95-137 | from one signature found in two chained logs, both are at the same position and everything before it agrees |
| EventAudit.CleanIffChained | ops/assess_prod_seed.py:101-137 | the auditor counts every event as verified exactly when every event verifies and links to the signature before it |
| EventAudit.AnalyzeEvents | ops/assess_prod_seed.py:101-150 | each counter is the number of positions that are unsigned, broken, forged or accepted as defined below, a node is active exactly when its last accepted lifecycle event opens it, and the first and last verified numbers are as reported |
| EventAudit.VerdictsMean | ops/assess_prod_seed.py:101-137 | an event is a chain failure exactly if it is signed and not linked to the signature before it, if that event was accepted, or else to the root constant; an invalid signature exactly if so linked but not verifying; accepted exactly if so linked and verifying |
| EventAudit.CountersMean | ops/assess_prod_seed.py:101-150 | the four counters of any report that tallies are the numbers of those positions |
| EventAudit.ActiveMeans | ops/assess_prod_seed.py:126-137 | a node is active exactly when the last accepted one of its REGISTER, REACTIVATE, EVICT and DEREGISTER events is one of the first two |
| EventAudit.ReportTallies | ops/assess_prod_seed.py:101-150 | the report of any log with any verdicts tallies with them |
| EventPaging.CollectEvents | ops/assess_prod_seed.py:166-185 | draining a log with increasing numbers yields every row above 0 once and in order, in exactly floor(n/L) + 1 requests, and never reaches the "did not advance" error |
| EventPaging.FullPageLeavesRest | src/federation_handlers.rs:32-58 | after a full page the cursor has advanced and the next query sees exactly the rows behind it |
| EventPaging.AfterIsSuffix | src/db.rs:3708-3746 | the rows above a cursor are a suffix of the log and exactly the events numbered above it |
| DirectoryLog.Directory.AppendSignedEventInTx | src/db.rs:29-84 | the signed event takes the number after the head and the link from the head's signature and becomes the head, or nothing changes |
| DirectoryLog.Directory.AppendSignedEvent | src/db.rs:3226-3273 | a call makes up to three attempts, another one exactly after a transient failure, with other sessions in between; a number is returned exactly when the last attempt appended and its reply arrived, and then it is that of the last event, which records the request |
| DirectoryLog.CallIsRun | src/db.rs:3226-3273 | a call with its retries and interruptions is a run of transactions, so what every run keeps holds across calls |
| DirectoryLog.Directory.HeartbeatOnce | src/db.rs:903-1018 | the heartbeat transaction takes effect as a whole, reactivation event included, or not at all, and a score is returned exactly when the node is known, nothing failed and any reactivation event was appended |
| DirectoryLog.Directory.ApplyProbeRouteState | src/db.rs:3932-4045 | route state and its signed evidence change together or not at all; with a key that signs and no fault the route of a known node is afterwards what the probe found, and the answer says what changed |
| DirectoryLog.Directory.DecommissionReplicaWithEvent | src/db.rs:3145-3204 | a tenure ends with an event even when the key does not sign, and only an active, unexpired one ends |
| DirectoryEffects.AppendEffect | src/db.rs:29-84 | a committed append adds one event with the requested fields, the next number and the digest of the last signature or the root constant as link, signed as it stands, or the key does not sign and nothing changes |
| DirectoryEffects.ProbeEffect | src/db.rs:3932-4045 | after a committed probe of a known node with a key that signs the route is what the probe found, the dead mark is set by a demotion and clear after a success, and exactly one event of the matching type, saying from what to what, was appended if route or mark called for it, none otherwise |
| DirectoryEffects.BeatEffect | src/db.rs:936-995 | a delta within what is left of the hour's 0.20 is credited in full, a larger one up to that, a negative one as it is; the score stays in [0, 1], and the window restarts exactly with a gain after 3600 seconds |
| DirectoryEffects.RepeatedBatchEffect | src/db.rs:927-934 | a metrics batch that was the last one counted only brings the node back to active |
| DirectoryEffects.HeartbeatEffect | src/db.rs:903-1018 | a committed heartbeat writes the node's row; a dormant node's also appends one REACTIVATE event that tells since when and how long it slept, or writes nothing when the key does not sign |
| DirectoryEffects.DecommissionEffect | src/db.rs:3145-3204 | exactly an active tenure that has not run out ends, its token becomes the tombstone, and one event names its owner |
| DirectoryRuns.StepKeepsGood | src/db.rs:29-84 | every kind of transaction that signs with the directory's own key, or with a malformed one, committed or not, keeps the log chained and every signature in it valid |
| DirectoryRuns.RunKeepsChain | src/db.rs:29-84 | over every run of appends, heartbeats, probes, decommissions, sweeps and restrictions, whoever signs, numbers stay gap-free from 1, each link is derived from the preceding signature, the head is the last event, and the log only grows |
| DirectoryRuns.RunKeepsGood | src/db.rs:3145-3273 | over every run that signs with the directory's own key, or with a malformed one, every signature in the log stays valid |
| DirectoryRuns.GoodLogVerdicts | ops/assess_prod_seed.py:101-137 | on a chained log whose signatures verify, unsigned events restarting the chain, the auditor verifies exactly the signed events |
| DirectoryRuns.CleanIffSignaturesOk | ops/assess_prod_seed.py:95-150 | on any chained log the auditor reports no chain failure and no invalid signature exactly when every signature in it verifies, and then as many verified events as are signed |
| DirectoryRuns.AuditOfAnyRun | ops/assess_prod_seed.py:95-150 | the audit of any run from an empty log, under whatever keys, is clean exactly when every signature in the log verifies |
| DirectoryRuns.AuditOfRun | ops/assess_prod_seed.py:95-150 | the audit of a run under the directory's own key from an empty log reports no chain failure and no invalid signature, and as many verified events as were signed |
| DirectoryRuns.RoutesAreRecorded | src/db.rs:3932-4045 | over every run of appends, heartbeats, probes, decommissions, sweeps and restrictions a node's route is what its last reachability event says, or what it was at the start, exactly unless that is open and a restriction, which writes no event, came since |
| DirectoryRuns.SpanAccount | src/db.rs:916-995 | over any span the credited reputation is covered by the windows opened in it and the gain stored now, which stays in [0, 0.20] |
| DirectoryRuns.VelocityBound | src/db.rs:916-995 | in any span of L seconds the positive effective deltas, and the rise of the score, are at most 0.20 times (floor(L/3600) + 2) |
| SeedAssessment.AssessSeed | ops/assess_prod_seed.py:101-185 | draining and auditing the log of any run from an empty directory, at any page size, sees all of it, counts its positions as `EventAudit` defines them and is clean exactly when every signature verifies, hence always under the directory's own key |
| SeedAssessment.RunIsServedWhole | src/federation_handlers.rs:32-58 | the log that any run leaves, whoever signs, is served whole from cursor 0 |
| CreditRepository.Repository.RecordCreditAwardOnce | src/db.rs:318-392 | one award attempt credits both balances and logs one row, or reports replay, unknown node, disagreement or failure and changes nothing |
| CreditRepository.Repository.DebitNodeOnce | src/db.rs:116-168 | a node debit takes the amount from both balances and logs it exactly when both cover it within a unit and agree |
| CreditRepository.Repository.QueryWallet | src/db.rs:179-200 | the wallet query lists each eligible node of the operator once, soonest live expiry first, nodes without one last, ties by id |
| CreditRepository.Repository.DebitOperatorWalletOnce | src/db.rs:170-284 | a wallet debit is the modelled step, its answer follows from the query's answer and the tables, its count is the number of rows written, and with the accounts in order it fails only for lack of funds or a database error |
| CreditRepository.Repository.ExpireIdleCreditOnce | src/db.rs:286-316 | the swap zeroes both balances and logs the debit only while the balance is still the one read |
| CreditRepository.Repository.MaybeAllocateFreeCredits | src/db.rs:4169-4274 | an allocation is granted exactly when the ledger balance is not positive and neither the node nor the address had one within six hours |
| CreditRepository.Repository.RecordCreditAward | src/db.rs:2450-2475 | a call makes up to three attempts, another one exactly after a transient failure; the answer is the one the last attempt deserves on the tables it finds, and an award or a replay means that the nonce is in the log |
| CreditRepository.Repository.DebitForConsumer | src/db.rs:2477-2546 | the payer is read once; each of up to three attempts acts on the wallet or node as it then is, and the answer, with the number of rows written, is the one the last attempt deserves |
| CreditRepository.Repository.ExpireIdleNodeCredits | src/db.rs:2548-2597 | every balance idle at the read is tried, whatever runs in between, and the totals are those of exactly the swaps that found the balance unchanged, each logged |
| CreditRepository.AfterIsRun | src/db.rs:2450-2546 | a call with its retries and interruptions is a run of transactions |
| CreditRepository.SweepIsRun | src/db.rs:2548-2597 | a whole sweep, with everything that interleaves, is a run of transactions |
| CreditEffects.AwardEffect | src/db.rs:318-392 | a committed award to a known node whose two balances agree within a unit, under a nonce the log does not have, adds to both and logs one row that expires in ninety days, and any other changes nothing |
| CreditEffects.AwardAnswers | src/db.rs:318-392 | an award that meets no fault answers unknown node, disagreement, replay or success exactly in those cases |
| CreditEffects.DebitEffect | src/db.rs:116-168 | a committed node debit takes the amount from both balances and logs it exactly when both cover it within a unit and agree within one |
| CreditEffects.ExpiryEffect | src/db.rs:286-316 | a committed expiry zeroes both balances and logs the debit exactly while the balance is the one read and the ledger agrees within a unit |
| CreditEffects.GrantEffect | src/db.rs:4169-4274 | a committed grant adds a hundred credits that expire in ninety days and stamps node and address, exactly when the ledger holds nothing and neither was served within six hours |
| CreditEffects.ListedExactly | src/db.rs:179-200 | the wallet query lists a node exactly when it is the operator's, not archived, has a positive balance, and has a credit without expiry, no timed credit, or a newest expiry still to come |
| CreditEffects.ListedInOrder | src/db.rs:179-200 | it lists balances as they stand, by the soonest expiry still to come, nodes without one last, ties by id |
| CreditEffects.AwardCanBeSpent | src/db.rs:170-392 | after a committed award to an operator's unarchived node, until it expires, a debit goes through exactly when the wallet covers it, and one up to the node's balance is covered |
| CreditEffects.WalletRowsMean | src/db.rs:210-268 | each row of a wallet debit is the listed node's own debit for the task, under the plain reason for the consumer itself and under one that names the consumer's first eight characters for any other node |
| CreditAccounting.StepKeepsAccounts | src/db.rs:116-392 | every transaction, committed or not, keeps each node's balance equal to its ledger balance and to recorded credits minus debits, none below minus one unit, no nonce credited twice, and balance 0 where there is no ledger row |
| CreditAccounting.RunKeepsAccounts | src/db.rs:2445-2597 | the same over every interleaving, with whatever aborts and retries |
| CreditAccounting.FreshIsAccounted | src/db.rs:2445-2597 | nodes without balance, ledger rows or transactions are a start whose accounts are in order |
| CreditAccounting.RunAppends | src/db.rs:116-392 | rows of the transaction log are never changed or removed |
| CreditAccounting.FreeCreditsAreSpaced | src/db.rs:4169-4274 | over any run and any clock, two free allocations to one node or from one address are at least six hours apart |
| CreditAccounting.WalletDebitIsAllOrNothing | src/db.rs:170-284 | the debit goes through exactly when the wallet holds the amount, one unit short at most; then rows follow the query's order, all but the last take a whole balance, they sum to the amount or to the wallet one unit short of it, no node goes below zero and the others are untouched |
| CreditAccounting.DrainShape | src/db.rs:210-268 | draining pending candidates never fails and writes one row per drained node in the query's order, all but the last for the whole balance, in all the amount or the wallet |
| CreditAccounting.WalletAnswerIsUnique | src/db.rs:179-200 | the wallet query has exactly one answer |
| HealthStore.Replica.UpsertHealthObservation | src/db.rs:3013-3039 | an observation is stored when it is the first or strictly newer, and otherwise the row stays |
| HealthStore.ReplayedRow | src/db.rs:3013-3039 | the stored row is the first received of the newest observations under its key |
| HealthStore.TableConverges | src/db.rs:3013-3039 | the table is the same for every order and repetition of a set of observations exactly when no evaluator's newest observations of a node disagree on the score |
| HealthScores.LabelThresholds | src/health.rs:128-135 | the label of a [0,1] score changes exactly at 0.845, 0.645 and 0.395 |
| HealthScores.Round3KeepsLabel | src/health.rs:162-164 | rounding to thousandths keeps the label exactly unless the score is less than half a thousandth below a bound |
| HealthScores.PercentileIsNearestRank | src/health.rs:267-275 | the percentile is a value of the list that at least p% are at most and less than p% are below |
| MeshHealth.ResolveNode | src/health.rs:283-344 | the node is resolved by quorum, majority bucket or freshest row, whichever winning bucket the hash map shows first |
| MeshHealth.FederatedMeshHealth | src/health.rs:348-407 | the aggregate is that of each node resolved once, whatever order the groups are walked in |
| HealthConvergence.MajorityIsUnique | src/health.rs:317-327 | with one row per evaluator at most one label bucket reaches evaluators/2 + 1 |
| HealthConvergence.MajorityPrevails | src/health.rs:317-337 | with a quorum a strict majority is reported uncontested with its rounded median, and under its own label exactly unless rounding lifts the median over a bound |
| HealthConvergence.MajorityScoreIsTheMedian | src/health.rs:317-337 | at least half of the majority's votes are at most its score and less than half are below |
| HealthConvergence.ResolutionMeans | src/health.rs:283-344 | below three evaluators a node has its newest row's score to the thousandth, unconfirmed; with a label that more than half vote for it has a majority; else its newest row's score, contested |
| HealthConvergence.MajorityInThousandthsPrevails | src/health.rs:317-337 | for scores in whole thousandths the majority label is reported whatever the other evaluators say |
| HealthConvergence.RoundingCanMoveTheLabel | src/health.rs:326-337 | three evaluators at 0.8449 call a node degraded and it is reported healthy |
| HealthConvergence.NodeForgetsOrder | src/health.rs:283-344 | a node resolves to one answer in every row order exactly when it has a confirmed majority or its newest rows agree to the thousandth |
| HealthConvergence.FederationForgetsOrder | src/health.rs:348-407 | the aggregate forgets the order of rows when every node does |
| HealthConvergence.TableForgetsOrder | src/health.rs:348-407 | every two listings of a table resolve every node alike exactly when each node has a confirmed majority or newest rows that agree to the thousandth |
| HealthConvergence.ReplicasAgree | src/health.rs:346-407 | replicas that received the same observations in any order, with any repeats, hold the same rows and report the same mesh health, when newest observations agree where they tie and every node forgets the order of its rows |
| HealthConvergence.ReplicasAgreeWithoutTies | src/health.rs:346-407 | the same when observations of one node at one time agree on its score |
| HealthConvergence.MeshHealthIsConsistent | src/health.rs:348-407 | the mesh score is one of its nodes' scores under that score's label, the distribution counts every known node once, and p10 is no better than the score |
| HealthConvergence.MeshFiguresMean | src/health.rs:348-407 | score and p10 are nearest-rank median and tenth percentile of the nodes' scores, the mean is theirs to the thousandth, and contested and unconfirmed count such nodes |
| HealthConvergence.ReportMeshHealth | src/db.rs:3041-3049 | listing the table in any order and aggregating it yields a health that the table reports |
| Operators.Registry.RotateOperatorIdentity | src/db.rs:3392-3493 | errors come in the code's order; a rotation retires the key, activates its successor, moves and counts its nodes and records both, or everything is rolled back |
| Operators.Registry.RevokeOperatorIdentity | src/db.rs:3495-3544 | a revocation retires an active key and distrusts and counts its nodes, or everything is rolled back |
| Operators.Registry.UpsertOperator | src/db.rs:3275-3320 | a first registration pins the profile and a later one changes the display name only |
| Operators.Registry.RegisterNode | src/node_lifecycle.rs:587-620 | a registration is refused exactly when the check reads the key as known and not active, not when the read fails; an accepted one writes the node after whatever other sessions commit in between, on the tables they leave |
| OperatorEffects.RotationEffect | src/db.rs:3392-3493 | a committed rotation goes through exactly from an active key to one not in use, both of 32 bytes; it retires the key with successor, epoch and reason, starts the successor under the same profile and writes the record of the key |
| OperatorEffects.RotationMovesNodes | src/db.rs:3450-3463 | exactly the key's nodes move to the successor, verified and without their manifest |
| OperatorEffects.EpochsGrow | src/db.rs:3446-3450 | a rotation's epoch exceeds the key's prior one short of saturation and is at least the one asked for |
| OperatorEffects.EpochIsFirst | src/db.rs:3446-3450 | no smaller epoch does both |
| OperatorEffects.RevocationEffect | src/db.rs:3495-3544 | a committed revocation of an active key of 32 bytes retires it and marks its record, whose epoch and successor stay |
| OperatorEffects.RevocationDistrustsNodes | src/db.rs:3495-3544 | exactly the key's nodes lose verification, tier and manifest |
| OperatorEffects.RegistrationEffect | src/db.rs:3275-3320 | the first registration of a key fixes its profile, a later one changes the name shown if it gives one |
| OperatorChains.StepKeepsChains | src/db.rs:3392-3544 | every step, the unconditional write of a node included, keeps successor chains ending and each node at, or moved on from, the key it was written under |
| OperatorChains.RunKeepsChains | src/db.rs:3392-3544 | in every run successor links from any identity reach one that was not rotated, and each node is where its last write left it, if that found the key rotated, and else where that key's chain ends |
| OperatorChains.NodeEndsItsChainIff | src/node_lifecycle.rs:587-620 | in every run a node is at the end of the chain of the key it was written under exactly when that key was not rotated at the write, however much earlier it was checked; in any case links from the node's key reach an end |
| OperatorChains.WrittenByLastBind | src/node_lifecycle.rs:587-620 | the key and status the two results speak of are those of the node's last committed write in the run |
| OperatorChains.RevokedNodesWereWrittenLate | src/db.rs:3495-3544 | in every run a verified node is under a revoked key exactly when its last write found the key revoked already |
| OperatorChains.RegistrationCanComeLate | src/node_lifecycle.rs:897-904 | a key that is active at the check and rotated before the write leaves the node behind on the rotated key |
| OperatorChains.PathIsUnique | src/db.rs:3392-3493 | from a key there is only one chain, when distinct keys have distinct fingerprints |
| OperatorChains.NoCycles | src/db.rs:3392-3493 | no chain comes back to a key it has left |
| OperatorChains.RunKeepsLinks | src/db.rs:3392-3544 | in every run no two identities share a successor, successors inherit what was pinned at first sight, and the public key records agree with the identities |
| OperatorChains.PathKeepsOrigin | src/db.rs:3413-3462 | every key of a chain carries the origin of its beginning |
| OperatorChains.RetirementIsFinal | src/db.rs:3392-3544 | a rotated or revoked identity never changes again but for its profile |
| Calendar.DayZero | src/directory_evidence.rs:274-287 | day 0 is the 1st of January 1970 |
| Calendar.DatesAreValid | src/directory_evidence.rs:274-287 | every day count yields a valid Gregorian date |
| Calendar.DatesFollow | src/directory_evidence.rs:274-287 | day n + 1 is the calendar successor of day n, for every n |
| Calendar.YearAndDay | src/directory_evidence.rs:274-287 | the year and day found are those whose closed-form day number is n |
| Calendar.DatesGrow | src/directory_evidence.rs:274-287 | later days have later dates |
| Timestamps.TimestampsSort | src/directory_evidence.rs:262-271 | from the epoch through the year 9999 timestamps sort as strings exactly like their times, to the second |
| Timestamps.TimestampsReadBack | src/directory_evidence.rs:262-271 | from the epoch through the year 9999 the fields between the marks of the format are the calendar date of the day and hours, minutes and seconds with 86400 * day + 3600 * h + 60 * mi + se the whole seconds of the time |
| Timestamps.FixedWidthExactly | src/directory_evidence.rs:262-271 | the text has the twenty characters of RFC 3339 exactly for times after -1000 ms and through the year 9999 |
| Timestamps.OrderEndsWithTheYear9999 | src/directory_evidence.rs:262-271 | any time on the first day of the year 10000 sorts before any on the last day of 9999 |
| Base64.Base64Decode | src/auth.rs:60-98 | the table-driven decoder returns the whole bytes of the six-bit groups of the non-pad characters, and fails when there are none |
| Base64.WordIsSum | src/auth.rs:70-95 | the word the decoder builds by shifts and "or" is the sum of the four sextets at their places |
| Base64.RoundTrip | src/auth.rs:60-98 | decoding the RFC 4648 section 4 encoding of any non-empty byte string, padded or not, returns that string |
| Base64.FailsExactlyBelowTwoLetters | src/auth.rs:60-98 | the decoder fails exactly below two non-pad characters, and otherwise n of them give floor(3n/4) bytes |
| Base64.EncodingsAreCanonical | src/auth.rs:60-98 | an unpadded text is the encoding of what it decodes to exactly when it uses the alphabet only and its bits make whole bytes |
| Fixtures.Walk.VerifyNested | scripts/check_release_compatibility.py:34-63 | the walk ends even on cyclic maps; on success every entry of what was newly seen holds as above and leads to something seen, and a fault is that of a reachable map |
| Fixtures.VerifyContract | scripts/check_release_compatibility.py:66-90 | a contract passes exactly when every fixture map reachable from it is an object whose entries each give 64 lower-case hex digits, name a readable file of the checkout and match its digest; otherwise the fault raised is one of a reachable map |
| Fixtures.OneFaultAtMost | scripts/check_release_compatibility.py:46-62 | an entry holds exactly if none of the five faults, each told from digest, name, file and content, is its, and it never has two |
| Fixtures.MapMeans | scripts/check_release_compatibility.py:41-45 | a file's map is what its JSON object has under "fixtures", if it has that |
| OutageOwner.Owner.ReadNext | scripts/operator_directory_outage.py:55-73 | exactly a reply of the schema for this step and action, under 32 hex digits and no others than before, is accepted, and it fixes the nonce |
| OutageOwner.Owner.Transition | scripts/operator_directory_outage.py:75-90 | a transition that succeeds inspected probe and application, carried out exactly its command, saw its effect and acknowledged it; whatever fails, a paused application stays marked as pending, and one found paused beforehand is left alone |
| OutageOwner.Owner.Recover | scripts/operator_directory_outage.py:116-122 | recovery clears the mark only after it inspected the application, unpaused it and saw it running, on a strict engine with no outstanding pause |
| OutageOwner.Owner.Run | scripts/operator_directory_outage.py:98-122 | whatever fails, and however late a timed-out command acts, on an engine that refuses to unpause a running container the run ends with the application running and nothing outstanding that could pause it, or raises with `pending` set; on any engine a normal return means one pause and one resume, acknowledged under one nonce, and it raises only after a failed call, an unacceptable request or once the deadline has passed; no round begins 1800 seconds or more after the start, nor one for the resume 150 seconds or more after the pause ended, in whose last round a normal return ends; the run always ends |
| ContainerEngine.UnpauseSettles | scripts/operator_directory_outage.py:116-122 | an answered unpause leaves nothing that can pause the container later exactly when no pause is outstanding, which a strict engine guarantees |
| ContainerEngine.UnpauseIsFinalIffStrict | scripts/operator_directory_outage.py:116-122 | an answered unpause always settles the container exactly on engines that refuse to unpause a running one |
| ContainerEngine.LaxEnginePausesAfterRecovery | scripts/operator_directory_outage.py:75-122 | on an engine that lets it through, a pause that timed out can act after the recovery has seen the application running |
| Ranking.SelectAndRank | src/discovery_policy.rs:32-90 | filtering, scoring, sorting and truncating compute the selection that the lemmas below are about |
| Ranking.SelectionForgetsOrder | src/discovery_policy.rs:32-90 | with distinct ids the result depends on the set of candidates only |
| Ranking.SelectionIsTheTop | src/discovery_policy.rs:77-90 | the result is strictly ordered by score descending and id, has the length that limit and candidates allow, holds admitted nodes under their own scores, and every candidate left out ranks after every one returned |
| Ranking.ScoresAreInUnit | src/behavior_contract.rs:19-57 | scores of in-range nodes lie in [0, 1] |
| Ranking.ScoresAreMonotone | src/behavior_contract.rs:19-57 | a node no less available, no more loaded, with no smaller share of free job slots, as reputed and as cheap, in the wanted region and with the wanted model, current SDK and public key if the other is, never scores less |
| Ranking.MeasuresWeigh | src/behavior_contract.rs:24-50 | availability, load, reputation and price move the score by 0.25, 0.20, 0.10 and 0.01 a credit with a model asked for, and by 0.35, 0.28, 0.10 and nothing without |
| Ranking.ChoicesWeigh | src/behavior_contract.rs:24-50 | an idle node is worth 0.15 or 0.18 more than a full one, the wanted region 0.10 or 0.09 |
| Ranking.BestScores | src/behavior_contract.rs:24-57 | the best node there can be scores 1, less 0.08 for an old SDK and 0.07 for a missing key |
| Ranking.AdmittedExactly | src/discovery_policy.rs:38-62 | the conditions under which a node may be listed at all |

## Left out

- Floating point: scores, reputation and prices are exact reals, so rounding to `f32` or
  `DECIMAL`, NaN and the order of additions are not modelled; ranks such as `0.1 * n` are exact.
- Integer widths: sequence numbers, counters and `u32` sample sizes are unbounded, but for the
  rotation epoch's saturation, the `u32` cast of labels and the `u64` cast of negative times.
- SQL: statements, locks and isolation are not modelled; a transaction is one atomic step, and
  the unique keys the code relies on are taken for granted. Text columns compare exactly, not
  under a collation.
- HTTP routing, Docker, subprocesses, path resolution and JSON parsing in the Python scripts:
  parameters or nondeterministic choices.
- Ed25519 (RFC 8032), SHA-256 and number formatting: uninterpreted; a JSON number is the token
  it prints as.
- The auditor's handling of events that are not objects or lack fields, its timings and lag.
- Heartbeat fields outside the budget and the chain: load, availability, active jobs, health
  models; `AUDIT_REPORT` rows numbered 0; pruning of heartbeat events.
- Mirroring writes that set only the node's balance or reputation (`set_credit_balance`,
  `set_reputation_score`): they sit outside the ledger's accounting.
- Data-subject actions that rewrite operator keys: they break the identity of rotation chains.
- `rename_operator`, `set_operator_recognition` and display-name claims: they do not touch the
  lifecycle.
- OutageOwner.Owner.Run: bounds when a round begins, not how long its calls take; pauses and
  unpauses by other parties are not modelled.
- `updated_at` columns everywhere, and the branch of a zero-amount node debit that depends on
  whether stamping one counts as a change is a parameter (`stampMoves`).
- `mesh_health`, `score_node` and the latency curve (`src/health.rs:68-211`): the same
  percentile and label functions over one directory's nodes.
- Cross-language equality of canonical JSON for numbers and for strings Python escapes differently.
- Registration, snapshot application on replicas, discovery responses, configuration, the command
  line, packaging and qualification scripts.

# Verified model of the KORION ledger

This project models the money core of the repository and proves what it keeps.

- **The in-memory ledger** (`MemorySpec`, `InMemoryLedger`, `MemoryInvariants`): accounts with a free and a
  locked balance, deposits, external credits, transfers, the withdrawal state machine with approvals, limits,
  network fee books and the outbox. `InMemoryLedger.Ledger` is a class with mutable tables; every method is proved
  to do what `MemorySpec` says of the whole state, and the invariants are proved over all runs of that specification.
- **The double-entry ledger** (`PostgresSpec`, `PostgresLedger`, `PostgresBooks`, `PostgresInvariants`,
  `OfflineInvariants`, `PostgresReplies`, `PostgresFees`, `PostgresLimits`): journals of postings, balances as folds over
  postings, cached rows, withdrawals, sweeps and the offline-pay protocol of lock, release, finalize, late receiver
  credit, compensate and reconcile. `PostgresLedger.Repository` works on mutable tables, one transaction a method.
- **Between the two**: `Refinement`. **One settlement over a run**: `SettlementSafety`. **What one
  call undoes of another**: `RoundTrips`. **Reconciliation**:
  `ReconciliationSafety` and, for the worker, `ReconciliationWorker`.
- **Around them**: the two sync loops (`CursorPaging`, `CreditSync`, `DepositSync`) and a cursor store that cuts times
  (`CursorStore`, `TruncatingSync`), the outbox store, worker and delivery protocol (`OutboxStore`, `OutboxWorker`,
  `OutboxDelivery`), fee snapshots (`FeeBooks`, `FeeSnapshots`), amount printers and parsers (`Money`, `Text`) and the
  bounded timeline (`Timeline`, over `StableSort`).

A run is any finite sequence of operations from the empty state; "in every reachable state" is a lemma about
all runs. Each locked section or database transaction is one atomic step.

## Conventions

- Ids drawn at random are positions in insertion order; instants are milliseconds since the epoch (row times of
  the sync sources may be any finer unit), days are UTC days.
- Amounts are natural numbers of units, 0 included, except the amount of an external credit, which the ledgers
  check; required approvals are at least one.
- Ledger account codes, reference types and currencies of journals are datatypes. An external credit is keyed by the
  pair (reference type, reference id).
- Failures of publishing, of the network and of other services are parameters (`faults`, `publication`, `ending`).

## Where the code differs from what one might expect

Each of these is a lemma below with its exact condition, and an input that meets it; `Witnesses` holds runs from the
empty state.

- A repeated transfer to oneself and a repeated withdrawal request above the single limit are duplicates for one
  ledger and refusals for the other (`Refinement.RefinementVisible`, `Witnesses.SelfTransferAnswersDiffer`,
  `Witnesses.LargeRepeatAnswersDiffer`).
- The in-memory ledger books external credits in any currency; the double-entry ledger takes any journal with the
  reference for a duplicate, also one of its own (`Refinement.CreditKeepsSimExactly`).
- A settlement given back with ADJUST and replayed with RELEASE still pays its receiver
  (`SettlementSafety.AdjustedReplayOverpays`), and so does a compensated settlement that is replayed
  (`RoundTrips.CompensatedReplay`, `SettlementSafety.CompensatedReplayPays`).
- Compensation and both reconciliations debit without a check; a negative offline-pending balance can make the
  locked-underflow refusal reachable (`OfflineInvariants.SafeRunsNeverNegative`, `PostgresReplies.CorruptedExactly`,
  `Witnesses.UnderflowReached`).
- A source row whose positive amount rounds to zero units stops the balance-credit sync for good
  (`CreditSync.DrainsExactly`, `CreditSync.BlockedForever`, `Witnesses.PayableRowStuck`).
- The cursor of the balance-credit sync is a time-zone column
  (`flyway/sql/V29__add_foxya_balance_credit_ledger_sync_cursor.sql:5`) read without a type parser. If it comes back cut to milliseconds, a full page within one millisecond is read again for
  good (`TruncatingSync.StoredDrainsExactly`, `TruncatingSync.HeldNeverPaid`, `Witnesses.ThirdRowNeverPaid`). The cursor
  of the token-deposit sync is text and comes back as saved.
- Of two token-deposit rows with one transaction hash only the first is booked (`DepositSync.SharedHashBooksFirstRowOnly`,
  `Witnesses.SharedHashLosesRow`).
- A row that becomes visible between the cursor and a row booked by a crashed cycle leaves a gap until the next cycle
  (`CreditSync.LateRowsBreakPrefixExactly`, `Witnesses.LateRowBreaksPrefix`).
- The reconciliation worker counts a user twice when its own audit write fails
  (`ReconciliationWorker.CountsAddUpExactly`, `Witnesses.UserCountedTwice`).
- With a limit above 200 the wallet timeline can be incomplete (`Timeline.ExactUpTo200`, `Timeline.LongHistoryCut`); the
  route takes at most 100 (`src/interfaces/http/schemas/wallet-schemas.ts:54`), so only a direct caller of the service
  can ask for more.
- With `maxAttempts` 0 an event is still attempted once (`OutboxDelivery.ZeroLimitStillAttempts`).

## Model

| member | source | states |
|---|---|---|
| Refinement.EveryRunSimulates | src/infrastructure/persistence/postgres/postgres-ledger-repository.ts:161-660 | after every run of deposits, completions, transfers, withdrawal steps and KORI credits under the caller's own reference types, the posting fold and the in-memory maps stand in simulation: available is `balance`, withdraw-pending is `lockedBalance`, equal transactions, deposits, withdrawals and approvals, the same known transfer keys and credit references |
| Refinement.RefinementVisible | src/infrastructure/persistence/postgres/postgres-ledger-repository.ts:825-1194 | what a caller sees after such a run: each user's projected row equals the in-memory account, withdrawals with approval counts are equal, and the next call is answered alike if and only if it is not one of two repeated calls (a repeated transfer key with sender = receiver, a repeated withdrawal key above the single limit) whose checks the two ledgers order differently |
| Refinement.StepSim | src/infrastructure/persistence/postgres/postgres-ledger-repository.ts:389-660 | one common operation from related states keeps the simulation, and the replies agree exactly outside those two families |
| Refinement.TransferSim | src/infrastructure/persistence/postgres/postgres-ledger-repository.ts:394-432 | a transfer keeps the simulation; answers agree unless the key is known and the two users are the same |
| Refinement.RequestSim | src/infrastructure/persistence/postgres/postgres-ledger-repository.ts:533-568 | a withdrawal request keeps the simulation; answers agree unless the key is known and the amount is above the single limit |
| Refinement.ConfirmSim | src/infrastructure/persistence/postgres/postgres-ledger-repository.ts:1009-1122 | confirming a broadcast withdrawal keeps balances, transaction status and withdrawal record equal, with and without a network fee |
| Refinement.CreditKeepsSimExactly | src/infrastructure/persistence/postgres/postgres-ledger-repository.ts:314-355 | a positive external credit keeps balances equal if and only if the two ledgers agree on whether it is new: memory looks at its own references only and ignores the currency, Postgres wants KORI and no journal of any kind under the reference |
| Refinement.ForeignCurrencyParts | src/ledger/in-memory-ledger.ts:246-286 | a concrete credit in another currency after which the two ledgers hold different balances |
| Refinement.OwnReferenceParts | src/infrastructure/persistence/postgres/postgres-ledger-repository.ts:325-343 | a concrete deposit followed by a credit under the deposit's own reference after which they differ |
| MemoryInvariants.EveryRun | src/ledger/in-memory-ledger.ts:169-651 | after every run: indexes point where they should, each user's locked balance is the sum of that user's active withdrawals, balances are not negative, total holdings are deposits plus credits minus completed withdrawals, single and daily limits hold for every user and day, approvals are distinct and counted, and each withdrawal's outbox log is a legal path of the state machine ending in its present state |
| MemoryInvariants.NeverCorrupted | src/ledger/in-memory-ledger.ts:298-302 | no call in any run is answered STATE_CORRUPTED: the underflow, missing-transaction and idempotency branches are unreachable |
| MemoryInvariants.RefusalIsAtomic | src/ledger/in-memory-ledger.ts:169-438 | a refused or duplicated call changes nothing but may open accounts that hold zero |
| MemoryInvariants.TerminalFrozen | src/ledger/in-memory-ledger.ts:557-651 | once COMPLETED or FAILED, the whole withdrawal record is the same after any further call |
| MemoryInvariants.LockedExplainedKept | src/ledger/in-memory-ledger.ts:387-405 | opening or moving a withdrawal changes the locked balance of its user by exactly what it changes the sum of active withdrawals, for every user |
| MemoryInvariants.ConservedKept | src/ledger/in-memory-ledger.ts:1326-1341 | holdings stay deposits plus credits minus paid-out withdrawals over every kind of step |
| MemoryInvariants.WithinLimitsKept | src/ledger/in-memory-ledger.ts:377-385 | the daily sum over active and completed withdrawals stays within the limit for every user and every day, also when withdrawals move between statuses |
| MemoryInvariants.DualControlKept | src/ledger/in-memory-ledger.ts:481-535 | approval count, distinct administrators and the required number for ADMIN_APPROVED, TX_BROADCASTED and COMPLETED survive every step |
| MemoryInvariants.AdvancedKeepsLog | src/ledger/in-memory-ledger.ts:440-651 | a withdrawal step appends at most one announcement, which is a legal move from the last one and describes the record after the step |
| MemoryInvariants.LogOfPayloads | src/ledger/in-memory-ledger.ts:1047-1213 | a withdrawal's log depends on payloads alone, so delivery bookkeeping cannot alter it |
| MemoryInvariants.ConfirmTransition | src/ledger/in-memory-ledger.ts:568-584 | under the invariant a confirmation never finds too little locked or no transaction, and is either no change or one legal move that pays out exactly the amount |
| MemoryInvariants.FailTransition | src/ledger/in-memory-ledger.ts:624-641 | the same for a failure, which gives the locked amount back |
| OutboxStore.StepKeepsPayloads | src/ledger/in-memory-ledger.ts:1047-1182 | claim, publish, reschedule, dead-letter, replay, recover and acknowledge keep every event's payload, order and number |
| OutboxStore.OldestIsQueuePrefix | src/ledger/in-memory-ledger.ts:1047-1062 | the events taken are distinct, match the filter, come in (created, insertion) order, are at most the limit, and every matching event left behind stands later in that order |
| OfflineInvariants.EveryRun | src/infrastructure/persistence/postgres/postgres-ledger-repository.ts:3017-3221 | after every run of ledger, offline-pay and sweep calls: the cached `accounts` row of every user equals the fold of its postings, a rebuild of all projections is the identity, every journal has equal debits and credits, the trial balance is zero in each currency, and withdraw-pending is the sum of active withdrawals |
| OfflineInvariants.StepKept | src/infrastructure/persistence/postgres/postgres-ledger-repository.ts:161-2836 | one call of any operation keeps those books, only adds journals, and keeps available and offline-pending balances non-negative if and only if the caller saw to the three debits the code does not check |
| OfflineInvariants.StepWrites | src/infrastructure/persistence/postgres/postgres-ledger-repository.ts:161-2836 | one call of any operation leaves the journals alone or appends exactly those named for it, refusals and duplicates included: no other journal is ever written |
| OfflineInvariants.SweepStep | src/infrastructure/persistence/postgres/postgres-ledger-repository.ts:1976-2043 | a sweep call touches no withdrawal and no purse and adds exactly one TRX journal, when it confirms a sweep that has a hash and a fee is given |
| OfflineInvariants.SafeRunsNeverNegative | src/infrastructure/persistence/postgres/postgres-ledger-repository.ts:1507-1520 | a run shows no negative available or offline-pending balance at any point if and only if every pending target was >= 0, every balance target was at least the locked total and every new ADJUST compensation was covered; withdraw-pending is never negative in any run |
| OfflineInvariants.UnderflowExactly | src/infrastructure/persistence/postgres/postgres-ledger-repository.ts:1024-1028 | the locked-underflow branch is taken for an active withdrawal exactly when the user's offline-pending balance is below zero by more than the user's other active withdrawals |
| OfflineInvariants.SafeRunsNeverUnderflow | src/infrastructure/persistence/postgres/postgres-ledger-repository.ts:1135-1139 | in a run whose callers saw to the unchecked debits the locked-underflow branches are unreachable |
| PostgresReplies.CorruptedExactly | src/infrastructure/persistence/postgres/postgres-ledger-repository.ts:1024-1028 | in every run, a call is answered STATE_CORRUPTED if and only if it confirms a broadcast or fails an active withdrawal whose user has offline-pending below zero by more than the user's other active withdrawals; missing rows and half transfers never occur |
| PostgresReplies.SafeRunsNeverCorrupted | src/infrastructure/persistence/postgres/postgres-ledger-repository.ts:408-432 | hence in a run whose callers saw to the unchecked debits no call of any kind is answered STATE_CORRUPTED |
| PostgresReplies.EndedFrozen | src/infrastructure/persistence/postgres/postgres-ledger-repository.ts:1009-1194 | a COMPLETED or FAILED row is the same after any further call of the double-entry ledger |
| PostgresLimits.EveryRun | src/infrastructure/persistence/postgres/postgres-ledger-repository.ts:533-976 | after every run of the double-entry ledger, offline-pay and sweep calls included: no request above the single limit is booked, the active and completed withdrawals of a user on a day stay within the daily limit, and approvals are distinct and enough for every approved, broadcast and completed withdrawal |
| PostgresFees.EveryRunFeesAgree | src/infrastructure/persistence/postgres/postgres-ledger-repository.ts:1009-2043 | after every run of ledger, offline-pay and sweep calls there is at most one network fee receipt a reference, each of a COMPLETED withdrawal or a confirmed sweep, and the receipts add up to the TRX booked as expense and taken from the two wallets that paid it |
| OfflineInvariants.RebuildChangesNothing | src/infrastructure/persistence/postgres/postgres-ledger-repository.ts:2605-2616 | when every row is the fold already, rebuilding all rows leaves the database as it is |
| OfflineInvariants.UncheckedKept | src/infrastructure/persistence/postgres/postgres-ledger-repository.ts:1437-1561 | compensation and the two reconciliations: books kept, and signs kept exactly under the caller's condition |
| OfflineInvariants.FinalizeStep | src/infrastructure/persistence/postgres/postgres-ledger-repository.ts:1196-1401 | a finalize call appends exactly the sender journal if it accepts and exactly the receiver journal if one is due, keeps the books and never takes a purse below zero |
| OfflineInvariants.ReconcilePendingStep | src/infrastructure/persistence/postgres/postgres-ledger-repository.ts:2763-2836 | a pending reconciliation adjusts if and only if the pending balance differs from the target, by one balanced journal over the difference |
| PostgresInvariants.FeeBound | src/infrastructure/persistence/postgres/postgres-ledger-repository.ts:3068-3074 | fee <= amount, fee < amount when there is an amount, and the fee is within half a unit of a tenth of a percent for KORI and of nothing for any other asset, a half counting upwards |
| PostgresInvariants.FeeIsDetermined | src/infrastructure/persistence/postgres/postgres-ledger-repository.ts:3068-3074 | no other number meets that bound: it determines the fee |
| PostgresInvariants.FeeOfParts | src/infrastructure/persistence/postgres/postgres-ledger-repository.ts:3068-3074 | the fee never shrinks with the amount, and splitting an amount in two changes the total fee by at most one unit |
| PostgresInvariants.SenderEffect | src/infrastructure/persistence/postgres/postgres-ledger-repository.ts:1284-1345 | the settlement journal balances; amount minus fee plus fee is the amount; RELEASE moves nothing but the sender's pending, the clearing and the fee account |
| PostgresInvariants.RequestStep | src/infrastructure/persistence/postgres/postgres-ledger-repository.ts:519-660 | a request reserves only what the fold shows available and leaves withdraw-pending explained by active withdrawals |
| PostgresInvariants.ConfirmStep | src/infrastructure/persistence/postgres/postgres-ledger-repository.ts:1009-1122 | a confirmation writes the payout journal and, with a fee, a second one in TRX; books and pending explanation survive |
| PostgresInvariants.FailStep | src/infrastructure/persistence/postgres/postgres-ledger-repository.ts:1124-1194 | a failure writes one journal back to available, which withdraw-pending covers |
| PostgresBooks.SyncRestores | src/infrastructure/persistence/postgres/postgres-ledger-repository.ts:3204-3221 | after a transaction has written postings of some users, synchronising those users makes every row the fold again |
| PostgresBooks.FootprintIsPosting | src/infrastructure/persistence/postgres/postgres-ledger-repository.ts:2640-2655 | a user has a ledger-account row if and only if some posting is on one of the user's accounts |
| PostgresBooks.CurrentIsProjected | src/infrastructure/persistence/postgres/postgres-ledger-repository.ts:3103-3145 | the balance a call decides on, fold or cached row, is the fold in every consistent state |
| PostgresBooks.BalancedTrial | src/infrastructure/persistence/postgres/postgres-ledger-repository.ts:3017-3066 | journals that balance one by one give a zero trial balance in each currency |
| SettlementSafety.SettlementEveryRun | src/infrastructure/persistence/postgres/postgres-ledger-repository.ts:1221-1350 | however finalize calls for one settlement are repeated and interleaved with anything else, the books hold at most one sender journal and after it at most one receiver journal, each as one of the calls asked (external credits do not forge the settlement's references) |
| SettlementSafety.SettlementConserved | src/infrastructure/persistence/postgres/postgres-ledger-repository.ts:2887-2942 | when the calls agree on asset, amount and RELEASE: the sender is debited the amount once, the fee is booked once, the clearing account holds amount - fee for the settlement until one receiver has got exactly that, and zero afterwards |
| SettlementSafety.AnsweredIsBooked | src/infrastructure/persistence/postgres/postgres-ledger-repository.ts:1240-1294 | a finalize call is answered without refusal if and only if the settlement is then in the books; the receiver is in them if and only if it was before or this call found it payable |
| SettlementSafety.PaidNets | src/infrastructure/persistence/postgres/postgres-ledger-repository.ts:2921-2942 | the clearing balance of a paid settlement returns to zero if and only if the paying call's credit is what the first call left there |
| SettlementSafety.AdjustedReplayOverpays | src/infrastructure/persistence/postgres/postgres-ledger-repository.ts:1240-1262 | after a lock was given back with ADJUST, a RELEASE replay still pays the receiver and takes the clearing account below zero, for all such pairs of calls |
| SettlementSafety.ReplayMayOverpay | src/infrastructure/persistence/postgres/postgres-ledger-repository.ts:1240-1262 | a concrete run from an empty database that does so |
| SettlementSafety.CompensatedReplayPays | src/infrastructure/persistence/postgres/postgres-ledger-repository.ts:1240-1262 | a concrete run from an empty database: settled, compensated, replayed; the sender has its amount back, the receiver is paid, the clearing account is short by the amount |
| RoundTrips.ReleaseUndoesLock | src/infrastructure/persistence/postgres/postgres-ledger-repository.ts:662-823 | after a lock, releasing the same amount succeeds if and only if the pending balance was not below zero before the lock, and then every account is what it was |
| RoundTrips.CompensationUndoesSenderOnly | src/infrastructure/persistence/postgres/postgres-ledger-repository.ts:1491-1520 | a settlement and its compensation put every account back except: the receiver keeps its credit, the fee stays booked, and the clearing account is short by exactly both |
| RoundTrips.CompensatedReplay | src/infrastructure/persistence/postgres/postgres-ledger-repository.ts:1240-1262 | finalize, compensate, replay, for all such calls: the replay writes a journal if and only if it asks for RELEASE with a receiver it can name and none was paid before, whatever was compensated; the clearing account ends short by the fee and every receiver credit |
| RoundTrips.CompensatesOnce | src/infrastructure/persistence/postgres/postgres-ledger-repository.ts:1452-1459 | a second compensation of a settlement, by whatever caller and amount, changes nothing |
| RoundTrips.FailUndoesRequest | src/ledger/in-memory-ledger.ts:617-651 | failing a withdrawal right after its request gives every user back all balances and daily sums; only the idempotency key stays used |
| ReconciliationSafety.ReconcileMeetsTarget | src/infrastructure/persistence/postgres/postgres-ledger-repository.ts:2693-2760 | `adjusted` means the liability now equals the target and nobody else moved; not adjusted means nothing was posted; a user with postings is only ever lowered |
| ReconciliationSafety.EveryRunRaisesFirst | src/infrastructure/persistence/postgres/postgres-ledger-repository.ts:2640-2760 | over any run an upward balance reconciliation of a user precedes every other posting to that user |
| ReconciliationSafety.RaisedOnce | src/infrastructure/persistence/postgres/postgres-ledger-repository.ts:2702-2711 | hence each user is raised at most once |
| ReconciliationWorker.EveryCycleSafe | src/application/services/offline-pay-ledger-reconciliation-service.ts:62-180 | from any reachable database a worker cycle leaves each user's liability where it was or takes it exactly to the canonical balance, by more than the tolerance, within the cap and upwards only without a single posting; users not chosen stay, existing users never rise |
| ReconciliationWorker.CycleIsRun | src/application/services/offline-pay-ledger-reconciliation-service.ts:62-180 | what a worker cycle does to the ledger is a run of balance reconciliations, so everything proved of all runs holds through any number of cycles |
| ReconciliationWorker.CyclesNeverRaiseAgain | src/application/services/offline-pay-ledger-reconciliation-service.ts:62-180 | hence also after a cycle each user is raised only before any other posting |
| ReconciliationWorker.UserReachesTarget | src/application/services/offline-pay-ledger-reconciliation-service.ts:69-118 | a user whose wallet could be read ends within the tolerance if and only if it was within it before, or the gap was within the cap and the sign rule allowed the move |
| ReconciliationWorker.CountsAddUpExactly | src/application/services/offline-pay-ledger-reconciliation-service.ts:52-190 | every chosen user is checked; adjusted + skipped + failed equals checked if and only if no audit write failed after its user was counted, and is larger otherwise |
| ReconciliationWorker.Worker.SelectBootstrapUsers | src/application/services/offline-pay-ledger-reconciliation-service.ts:33-46 | the loop returns the first newcomers among the candidates: not listed and without ledger footprint, at most `limit` (one when the limit is zero) |
| ReconciliationWorker.Worker.ReconcileUser | src/application/services/offline-pay-ledger-reconciliation-service.ts:56-180 | the decision per user in its order: tolerance, sign rule, cap, ledger call, with the counters each outcome and each failure touches |
| ReconciliationWorker.Worker.RunCycle | src/application/services/offline-pay-ledger-reconciliation-service.ts:23-191 | selection followed by the users one by one, each seeing the ledger the previous one left |
| CursorPaging.CycleMovesCursor | src/application/services/foxya-balance-credit-ledger-sync-service.ts:44-111 | a completed cycle moves the cursor over exactly the rows it processed, a crashed one not at all; a cursor that moves moves strictly forward |
| CursorPaging.ArrivalKeepsDone | src/infrastructure/integration/foxya-balance-credit-ledger-sync-source-repository.ts:41-46 | rows that arrive after the cursor leave the finished part of the table as it was |
| CursorPaging.StopsThere | src/application/services/foxya-balance-credit-ledger-sync-service.ts:94-104 | after a failing row no later row is looked at |
| CursorPaging.GrowthKeepsPrefixExactly | src/infrastructure/integration/foxya-balance-credit-ledger-sync-source-repository.ts:41-46 | when the table grows, the booked rows remain a prefix if and only if no new row stands before a booked one |
| CreditSync.EveryRun | src/application/services/foxya-balance-credit-ledger-sync-service.ts:35-122 | over any run of cycles with failing rows and crashes between any two rows, late rows, a cursor store that hands back an earlier cursor, and foreign ledger traffic: every row at or below the cursor is credited with its user, amount and time, nothing else bears the source's references, and no reference is credited twice |
| CreditSync.EveryRunCreditsPrefix | src/application/services/foxya-balance-credit-ledger-sync-service.ts:51-104 | the credited rows are a prefix of the time-ordered table after every step of a legal run, crashes included, if and only if every arrival in the run comes after the rows credited by then |
| CreditSync.LateRowsBreakPrefixExactly | src/infrastructure/integration/foxya-balance-credit-ledger-sync-source-repository.ts:41-46 | the exact condition: a newly visible row breaks the prefix if and only if it stands before a row already credited by a crashed cycle |
| CreditSync.CursorNeverGoesBack | src/application/services/foxya-balance-credit-ledger-sync-service.ts:106-118 | in every legal run the cursor stays or moves strictly forward, unless its store hands it back earlier than it was saved |
| CreditSync.CleanCycleProgress | src/application/services/foxya-balance-credit-ledger-sync-service.ts:51-104 | a failure-free cycle moves on by `limit` rows, or to the end, or to the first row the ledger refuses, whichever comes first |
| CreditSync.DrainsExactly | src/application/services/foxya-balance-credit-ledger-sync-service.ts:51-104 | over a store that hands the cursor back as saved, failure-free cycles drain the source if and only if no row above the cursor has an amount that rounds to zero units |
| TruncatingSync.StoredDrainsExactly | src/infrastructure/persistence/postgres/postgres-foxya-balance-credit-ledger-sync-cursor-repository.ts:13-31 | over a store that cuts the cursor to milliseconds, failure-free cycles drain the source from any reachable state if and only if no row has zero units and every full page from the cut cursor on takes the next cycle past its first row |
| TruncatingSync.HeldNeverPaid | src/infrastructure/persistence/postgres/postgres-foxya-balance-credit-ledger-sync-cursor-repository.ts:13-31 | behind a page that does not, no row is ever credited, however many failure-free cycles follow |
| TruncatingSync.StoredCycleIsRun | src/infrastructure/persistence/postgres/postgres-foxya-balance-credit-ledger-sync-cursor-repository.ts:13-31 | a cycle over that store is a step back of the cursor and an ordinary cycle, so what is proved of all runs holds for it |
| CursorStore.ReadsToEndExactly | src/infrastructure/persistence/postgres/postgres-foxya-balance-credit-ledger-sync-cursor-repository.ts:13-31 | for any table whose later rows never leave fewer rows behind: cycles reach the end if and only if every full page advances the cut cursor |
| CursorStore.AdvancesIsSparse | src/infrastructure/integration/foxya-balance-credit-ledger-sync-source-repository.ts:41-46 | when no row falls on a whole millisecond, that means no full page short of the end lies within one millisecond |
| CursorStore.OrderedIdsAreMonotone | src/infrastructure/integration/foxya-balance-credit-ledger-sync-source-repository.ts:41-46 | and when ids grow with time, a later saved row never leaves fewer rows behind |
| CreditSync.BlockedForever | src/infrastructure/integration/foxya-balance-credit-ledger-sync-source-repository.ts:36-41 | such a row is never credited and never passed, in any run: the query filters on the amount before it rounds to six decimals |
| CreditSync.NothingBehindBlocked | src/application/services/foxya-balance-credit-ledger-sync-service.ts:94-104 | when rows arrive in order, no row behind such a row is ever credited |
| CreditSync.DrainedPaysEveryone | src/application/services/foxya-balance-credit-ledger-sync-service.ts:63-73 | once drained, every user has got from the source exactly the sum of its rows |
| CreditSync.ProcessEffect | src/application/services/foxya-balance-credit-ledger-sync-service.ts:54-104 | a row does nothing to the credits or adds its own first credit; it fails only by a fault or a zero amount |
| CreditSync.SyncService.RunCycle | src/application/services/foxya-balance-credit-ledger-sync-service.ts:35-122 | the loop with its counters and early exit computes the ledger and cursor of the cycle; checked = synced + duplicated + skipped + failed, at most one failure, the cursor advances if and only if the cycle completes and some row went well |
| CreditSync.SyncService.ApplyCandidate | src/application/services/foxya-balance-credit-ledger-sync-service.ts:54-93 | one candidate: skipped, credited, duplicated or failed, with the ledger as the credit call leaves it |
| DepositSync.EveryRun | src/application/services/foxya-token-deposit-ledger-sync-service.ts:33-114 | over any run with faults before, between and after the two ledger calls, crashes and any other traffic: every row at or below the cursor has its hash recorded and COMPLETED, and no hash is booked twice |
| DepositSync.EachRowBookedOnce | src/application/services/foxya-token-deposit-ledger-sync-service.ts:52-66 | when the source owns its hashes, each such row has exactly one deposit, with its own user and amount |
| DepositSync.EveryRunBooksPrefix | src/application/services/foxya-token-deposit-ledger-sync-service.ts:39-104 | when the source owns its hashes, the booked rows are a prefix of the table after every step if and only if every arrival comes in order |
| DepositSync.AlwaysDrains | src/application/services/foxya-token-deposit-ledger-sync-service.ts:39-104 | failure-free cycles always drain: after as many cycles as there are rows all are recorded and COMPLETED |
| DepositSync.CursorNeverGoesBack | src/application/services/foxya-token-deposit-ledger-sync-service.ts:95-104 | in every legal run the cursor stays or moves strictly forward |
| DepositSync.SharedHashBooksFirstRowOnly | src/infrastructure/integration/foxya-token-deposit-ledger-sync-source-repository.ts:43-66 | of two rows with one hash the second is reported without failure but booked if and only if its user and amount are those of the first |
| DepositSync.ProcessEffect | src/application/services/foxya-token-deposit-ledger-sync-service.ts:42-92 | a row fails only by a fault; when it does not, its hash is COMPLETED; a new deposit is the row's own |
| DepositSync.SyncService.RunCycle | src/application/services/foxya-token-deposit-ledger-sync-service.ts:33-114 | the loop with apply and complete computes the ledger and cursor of the cycle, with consistent counters |
| DepositSync.SyncService.ApplyCandidate | src/application/services/foxya-token-deposit-ledger-sync-service.ts:42-92 | one candidate: applied, completed unless it is already, counted |
| OutboxDelivery.AttemptsBounded | src/ledger/in-memory-ledger.ts:1047-1182 | with one worker, operators replaying and acknowledging, arrivals and crashes in any order: attempts(e) <= maxAttempts + replays(e) + stale recoveries(e) in every reachable state (maxAttempts >= 1) |
| OutboxDelivery.DeadLetteredAfterMax | src/application/services/outbox-publisher-worker.ts:75-94 | an event never replayed nor recovered is dead-lettered with exactly maxAttempts attempts and pending only with fewer |
| OutboxDelivery.FailureDeadLettersAtMax | src/application/services/outbox-publisher-worker.ts:78-91 | when its publication fails, such an event goes to the dead letters on attempt number maxAttempts exactly, and is put back with the backoff delay before that |
| OutboxDelivery.ZeroLimitStillAttempts | src/application/services/outbox-publisher-worker.ts:75-91 | with maxAttempts 0 an event is still attempted once, so the bound needs the limit to be at least one |
| OutboxDelivery.CycleIsSteps | src/application/services/outbox-publisher-worker.ts:59-96 | when nothing is held, a whole worker cycle is a recovery, a claim and one settlement a claimed event of the delivery protocol, so the attempt bounds hold through any number of cycles |
| OutboxWorker.CycleCompletes | src/application/services/outbox-publisher-worker.ts:59-96 | a completed cycle claims the oldest available pending events as a stable prefix, once each, and leaves each published, dead-lettered at its last attempt, or pending after the backoff, by how its publication ended; no other event is touched except by the stale recovery |
| OutboxWorker.Worker.RunCycle | src/application/services/outbox-publisher-worker.ts:59-96 | the worker's loop over the mutable store computes the cycle, with its own clock reading and message for each event; a second cycle while one is running does nothing |
| FeeSnapshots.FeeBooksAgree | src/ledger/in-memory-ledger.ts:585-605 | in every reachable state every day's snapshot has zero gap and equal counts, and its withdrawal and sweep parts add up to the totals |
| FeeSnapshots.ListDailySnapshots | src/ledger/in-memory-ledger.ts:986-1045 | the two loops return the newest days, newest first, each with its exact sums: only days with a record are listed, a day left out is older than all of them, and when no day of a receipt (of a journal) is cut off the totals add up to all receipts (all journals) |
| FeeSnapshots.NewestDaysUnique | src/ledger/in-memory-ledger.ts:986-1045 | that description leaves no choice: two lists that meet it are equal |
| FeeSnapshots.EveryRunMatched | src/ledger/in-memory-ledger.ts:935-955 | receipts and fee journals correspond one to one, also when a confirmation records a fee again under the same key |
| Money.FormatRoundTrip | src/core/money.ts:20-39 | parsing the stored text of any integer number of units gives that integer, zero and negatives included |
| Money.RawRoundTrip | src/application/services/deposit-monitor-service.ts:20-26 | for every non-empty digit string, leading zeros included, the formatted raw amount parses to the number it denotes |
| Money.ParseAcceptsExactly | src/core/money.ts:28-39 | the parser accepts exactly: optional sign, digits, optional point with one to six decimals, surrounded by space |
| Money.ParseAmount | src/core/money.ts:28-39 | what it returns: whole units times the scale plus the fraction padded to six digits, with the sign of the text |
| Timeline.TimelineExact | src/application/services/wallet-service.ts:51-113 | for limit <= 200, merging three lists each cut to min(2 limit, 200) shows exactly the newest entries of the whole history, ties included |
| Timeline.ExactUpTo200 | src/application/services/wallet-service.ts:57 | the timeline is exact after every run if and only if the limit is at most 200 |
| Timeline.LongHistoryCut | src/application/services/wallet-service.ts:57-58 | for every greater limit, a run of that many deposits with distinct hashes of which the timeline shows 200 |
| StableSort.SortIsStable | src/application/services/wallet-service.ts:110-112 | the sort the readers rely on keeps the order of elements with equal keys |
| StableSort.SortIsSorted | src/application/services/wallet-service.ts:110-112 | and is an ordered permutation |
| Witnesses.UnderflowReached | src/infrastructure/persistence/postgres/postgres-ledger-repository.ts:1135-1139 | a run from an empty database, ten in, five reserved, a pending target of minus six, after which failing the withdrawal is refused STATE_CORRUPTED |
| Witnesses.SelfTransferAnswersDiffer | src/ledger/in-memory-ledger.ts:288-302 | a run after which a known transfer key used for a transfer to oneself is answered by one ledger and refused by the other |
| Witnesses.LargeRepeatAnswersDiffer | src/ledger/in-memory-ledger.ts:368-380 | a run after which a known withdrawal key with an amount above the single limit is answered by one ledger and refused by the other |
| Witnesses.PayableRowStuck | src/application/services/foxya-balance-credit-ledger-sync-service.ts:94-104 | a table with a zero-unit row in front: after any number of failure-free cycles the payable row behind it is not credited |
| Witnesses.ThirdRowNeverPaid | src/infrastructure/persistence/postgres/postgres-foxya-balance-credit-ledger-sync-cursor-repository.ts:13-31 | a legal run with three rows of one millisecond after which, with a limit of two and the cursor cut to milliseconds, any number of cycles leaves the third uncredited |
| Witnesses.LateRowBreaksPrefix | src/application/services/foxya-balance-credit-ledger-sync-service.ts:51-118 | a legal run, one crash and one late row, after which the credited rows are not a prefix |
| Witnesses.SharedHashLosesRow | src/application/services/foxya-token-deposit-ledger-sync-service.ts:39-104 | a legal run over two rows with one hash: both are passed without failure and the second row's user has no deposit |
| Witnesses.UserCountedTwice | src/application/services/offline-pay-ledger-reconciliation-service.ts:74-98 | a worker cycle over a reachable database that checks one user and counts two outcomes |
| InMemoryLedger.Ledger.constructor | src/ledger/in-memory-ledger.ts:53-83 | a new ledger is empty |
| InMemoryLedger.Ledger.GetAccount | src/ledger/in-memory-ledger.ts:85-89 | reading an account opens it with zero balances and changes nothing else |
| InMemoryLedger.Ledger.ApplyDeposit | src/ledger/in-memory-ledger.ts:169-230 | the known deposit for a known hash, otherwise one credited deposit, its transaction, its announcement and the raised balance |
| InMemoryLedger.Ledger.CompleteDeposit | src/ledger/in-memory-ledger.ts:232-244 | the deposit's status becomes COMPLETED; an unknown id is refused |
| InMemoryLedger.Ledger.ApplyExternalCredit | src/ledger/in-memory-ledger.ts:246-286 | a non-positive amount is refused, a known reference answered, a new one credited once |
| InMemoryLedger.Ledger.Transfer | src/ledger/in-memory-ledger.ts:288-352 | the recorded legs for a known key, refusals in the code's order, otherwise two legs and both balances moved |
| InMemoryLedger.Ledger.RequestWithdrawal | src/ledger/in-memory-ledger.ts:354-438 | known key first, then single limit, daily limit, balance; the amount moves from balance to locked and the request is announced |
| InMemoryLedger.Ledger.DailyRequestedAmount | src/ledger/in-memory-ledger.ts:1394-1403 | the loop adds exactly the user's active and completed withdrawals of that day |
| InMemoryLedger.Ledger.ConfirmWithdrawalExternalAuth | src/ledger/in-memory-ledger.ts:440-468 | from LEDGER_RESERVED to PENDING_ADMIN with the provider recorded; a repeat with the same pair is answered |
| InMemoryLedger.Ledger.MarkWithdrawalReviewRequired | src/ledger/in-memory-ledger.ts:470-479 | only a pending withdrawal is marked, without an announcement |
| InMemoryLedger.Ledger.ApproveWithdrawal | src/ledger/in-memory-ledger.ts:481-535 | one approval per administrator; the required one approves the withdrawal |
| InMemoryLedger.Ledger.BroadcastWithdrawal | src/ledger/in-memory-ledger.ts:537-555 | only an approved withdrawal gets its transaction hash |
| InMemoryLedger.Ledger.ConfirmWithdrawal | src/ledger/in-memory-ledger.ts:557-615 | the locked amount leaves, the transaction is confirmed, the fee recorded when there is one, the end announced |
| InMemoryLedger.Ledger.FailWithdrawal | src/ledger/in-memory-ledger.ts:617-651 | the locked amount goes back, the transaction and the withdrawal fail, the end is announced |
| InMemoryLedger.Ledger.ConfirmSweep | src/ledger/in-memory-ledger.ts:921-958 | an unknown sweep and one in another state are refused, each with its code; an open sweep is confirmed, answered, and its fee recorded once it has a hash |
| InMemoryLedger.Ledger.ClaimPendingOutboxEvents | src/ledger/in-memory-ledger.ts:1047-1062 | the oldest available pending events become processing with one more attempt, no other event changes |
| InMemoryLedger.Ledger.MarkOutboxEventPublished | src/ledger/in-memory-ledger.ts:1064-1076 | one event becomes published, the rest stay |
| InMemoryLedger.Ledger.RescheduleOutboxEvent | src/ledger/in-memory-ledger.ts:1078-1089 | one event goes back to pending at the given time |
| InMemoryLedger.Ledger.DeadLetterOutboxEvent | src/ledger/in-memory-ledger.ts:1091-1107 | one event becomes a dead letter |
| InMemoryLedger.Ledger.ReplayOutboxEvents | src/ledger/in-memory-ledger.ts:1135-1164 | exactly the selected events become pending again, and their number is returned |
| InMemoryLedger.Ledger.RecoverStaleProcessingOutboxEvents | src/ledger/in-memory-ledger.ts:1166-1182 | exactly the events processing for too long become pending again |
| InMemoryLedger.Ledger.AcknowledgeDeadLetterOutboxEvents | src/ledger/in-memory-ledger.ts:1184-1213 | exactly the selected unacknowledged dead letters get the acknowledgement with actor, note, category and incident |
| PostgresLedger.Repository.constructor | src/infrastructure/persistence/postgres/postgres-ledger-repository.ts:61-64 | the repository works on the database it is given, whatever that holds |
| PostgresLedger.Repository.InsertJournal | src/infrastructure/persistence/postgres/postgres-ledger-repository.ts:3017-3066 | one journal with its postings, and a ledger-account row for every account posted to; nothing checks that it balances |
| PostgresLedger.Repository.SyncUserAccountProjection | src/infrastructure/persistence/postgres/postgres-ledger-repository.ts:3204-3221 | exactly the rows of the listed users with postings become the fold, duplicates in the list notwithstanding |
| PostgresLedger.Repository.HydrateWithdrawal | src/infrastructure/persistence/postgres/postgres-ledger-repository.ts:3223-3226 | the stored row with its approvals counted |
| PostgresLedger.Repository.ApplyDeposit | src/infrastructure/persistence/postgres/postgres-ledger-repository.ts:161-275 | known hash answered, otherwise transaction, deposit, balanced journal, refreshed row and announcement |
| PostgresLedger.Repository.CompleteDeposit | src/infrastructure/persistence/postgres/postgres-ledger-repository.ts:277-302 | status becomes COMPLETED; unknown id refused |
| PostgresLedger.Repository.ApplyExternalCredit | src/infrastructure/persistence/postgres/postgres-ledger-repository.ts:304-387 | amount, currency and reference checked in that order; one journal for a new reference |
| PostgresLedger.Repository.Transfer | src/infrastructure/persistence/postgres/postgres-ledger-repository.ts:389-517 | same-user refusal first, then known key, then the fold decides; a refusal leaves no account row behind |
| PostgresLedger.Repository.RequestWithdrawal | src/infrastructure/persistence/postgres/postgres-ledger-repository.ts:519-660 | single limit first, then known key, balance, daily limit; a refusal leaves no account row behind |
| PostgresLedger.Repository.LockOfflinePayCollateral | src/infrastructure/persistence/postgres/postgres-ledger-repository.ts:662-742 | a known reference is a duplicate; otherwise available moves to offline-pending if the fold covers it |
| PostgresLedger.Repository.ReleaseOfflinePayCollateral | src/infrastructure/persistence/postgres/postgres-ledger-repository.ts:744-823 | the same back, if offline-pending covers it |
| PostgresLedger.Repository.ConfirmWithdrawalExternalAuth | src/infrastructure/persistence/postgres/postgres-ledger-repository.ts:825-867 | LEDGER_RESERVED to PENDING_ADMIN; a repeat with the same recorded pair is answered |
| PostgresLedger.Repository.MarkWithdrawalReviewRequired | src/infrastructure/persistence/postgres/postgres-ledger-repository.ts:869-896 | only a pending withdrawal is marked, with an announcement |
| PostgresLedger.Repository.ApproveWithdrawal | src/infrastructure/persistence/postgres/postgres-ledger-repository.ts:898-976 | one approval row per administrator, approval by count of rows |
| PostgresLedger.Repository.BroadcastWithdrawal | src/infrastructure/persistence/postgres/postgres-ledger-repository.ts:978-1007 | only an approved withdrawal gets its hash |
| PostgresLedger.Repository.ConfirmWithdrawal | src/infrastructure/persistence/postgres/postgres-ledger-repository.ts:1009-1122 | payout journal, optional fee receipt and TRX fee journal, refreshed row, announcement |
| PostgresLedger.Repository.PersistNetworkFeeReceipt | src/infrastructure/persistence/postgres/postgres-ledger-repository.ts:3446-3466 | the first receipt of a reference is stored, later ones are ignored |
| PostgresLedger.Repository.FailWithdrawal | src/infrastructure/persistence/postgres/postgres-ledger-repository.ts:1124-1194 | journal back to available, failed transaction and withdrawal, announcement |
| PostgresLedger.Repository.CreateSweepRecord | src/infrastructure/persistence/postgres/postgres-ledger-repository.ts:1804-1856 | the sweep known under a non-empty external reference is answered, otherwise a planned one is added |
| PostgresLedger.Repository.BookNetworkFee | src/infrastructure/persistence/postgres/postgres-ledger-repository.ts:2007-2035 | the first receipt of the reference is kept and the fee moves in TRX from the wallet to the expense account |
| PostgresLedger.Repository.ConfirmSweep | src/infrastructure/persistence/postgres/postgres-ledger-repository.ts:1976-2043 | an unknown sweep and one in another state are refused; an open one is confirmed and, with a hash and a fee, gets its receipt and TRX journal |
| PostgresLedger.Repository.FinalizeOfflinePaySettlement | src/infrastructure/persistence/postgres/postgres-ledger-repository.ts:1196-1401 | receiver resolved, duplicates still pay a late receiver, three refusals in order, sender journal, receiver journal, refreshed rows, answer from the fold |
| PostgresLedger.Repository.CalculateOfflinePaySettlementFee | src/infrastructure/persistence/postgres/postgres-ledger-repository.ts:3068-3082 | the one number within half a unit of the asset's basis points of the amount, halves upwards; below the amount unless that is zero |
| PostgresLedger.Repository.ResolveReceiverUserId | src/infrastructure/persistence/postgres/postgres-ledger-repository.ts:2852-2885 | the named receiver, or the owner of the active device; never the sender, never empty |
| PostgresLedger.Repository.AppendReceiverSettlementIfNeeded | src/infrastructure/persistence/postgres/postgres-ledger-repository.ts:2887-2942 | a receiver journal exactly when a receiver is due and none is booked |
| PostgresLedger.Repository.UpsertOfflinePayDevice | src/infrastructure/persistence/postgres/postgres-ledger-repository.ts:1403-1435 | the device row is replaced |
| PostgresLedger.Repository.CompensateOfflinePaySettlement | src/infrastructure/persistence/postgres/postgres-ledger-repository.ts:1437-1561 | once per settlement, the sender side is put back without a check |
| PostgresLedger.Repository.ReconcileOfflinePayUserBalance | src/infrastructure/persistence/postgres/postgres-ledger-repository.ts:2678-2761 | one journal over the difference unless it would raise a user with a footprint |
| PostgresLedger.Repository.ReconcileOfflinePayPendingBalance | src/infrastructure/persistence/postgres/postgres-ledger-repository.ts:2763-2836 | one journal over the difference |
| PostgresLedger.Repository.RebuildAccountProjections | src/infrastructure/persistence/postgres/postgres-ledger-repository.ts:2605-2616 | all rows refreshed one after the other, in any order |

## Left out

- SQL text, row and advisory locks and isolation: a transaction is one atomic step over maps and sequences, and a
  refusal puts the rows back.
- SQL LIKE wildcards and colons inside user ids: a user's footprint is looked up by the user's own three accounts.
- `type:id` as one concatenated credit key in memory: the pair is the key, so ids containing colons do not collide.
- HTTP routes, schemas, environment parsing, user interface, timers, alerts: plumbing around the services modelled.
- Blockchain gateways, readers, remote signers and the order of signer call and status check: foreign calls; what is
  stated is about the status the ledger records.
- HMAC, hashing, encryption and proof fingerprints: opaque; announcements are modelled without signature.
- Building an event contract is total: in `applyDeposit` it comes after the mutation, and a schema failure there is not
  part of this model.
- `parseKoriAmount`: binary floating point; the ledgers are modelled from its integer result on.
- Fee snapshots of the double-entry ledger: they mix units and depend on SQL casts; the receipts and TRX journals of
  withdrawals and sweeps are modelled.
- A `confirmSweep` of the double-entry ledger that dies half way: the code runs it without a transaction, the model as
  one step.
- The double-entry ledger's own outbox claims and retries: the worker is modelled over the in-memory store.
- The sync services over the double-entry ledger: they are modelled over the in-memory one; `Refinement` relates the
  credits and deposits of the two.
- Sweep calls other than `createSweepRecord` and `confirmSweep` of the double-entry ledger, and other than
  `confirmSweep` of the in-memory one, as methods: `FeeBooks` has them as steps of the runs; they are one-branch status
  moves.
- Compensation of fee or receiver legs: the code reverses the sender side only, and nothing is claimed about the
  clearing or revenue accounts after it.
- Wallet bindings, audit logs, jobs, event consumers, list and filter queries, risk fields, device data, client address,
  notes and `updatedAt`: carried along without influence on the properties.
- Upper case beyond ASCII: `Text.ToUpper` covers ASCII letters and the dotless i, the letters that can produce "KORI".
- Deposit monitor paging, sweep bot, resource delegation, activation grants, circuit breakers: driven by external
  services or one-branch facts.
- The order in which the database lists users to reconcile: any list is allowed.
- An exception inside the reconciliation worker's own catch block: it ends the cycle early, which leaves a shorter list
  of users.
- TruncatingSync.StoredDrainsExactly: assumes that a later saved row never leaves fewer rows behind, which holds when
  ids grow with time or no row falls on a whole millisecond.
- CreditSync.EveryRun: new rows are taken to lie after the cursor and rows are not edited or deleted; nobody else uses
  the source's reference type.
- Refinement.EveryRunSimulates: leaves out the offline-pay operations, which only one of the ledgers offers, and the
  content of outbox events (the double-entry ledger also announces a review mark).
- OutboxDelivery.AttemptsBounded: one worker, store calls do not fail.

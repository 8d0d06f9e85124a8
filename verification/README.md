# Trustless Commerce: a verified model

Dafny models of the parts of the commerce server, bundler and sweep node where an interleaving, a crash or a malformed
input could do harm, and proofs of what they keep. `dafny verify dfyconfig.toml` checks everything.

## What is modelled

**Leased work queues.** `UserOpQueue`, `InvoiceTable` and `RecoveryJobQueue` are the three tables that workers claim
rows from: an optimistic version, an expiring lease, a status. Each is a class whose methods are the database calls,
tied to a function on one row, about which lease safety is proved over all runs. `BundlerProtocol` puts any number of
bundler workers on one user operation: retries that adopt the version of a 409 answer, answers that get lost, leases
that expire, workers that crash, requeues, and the guessed version of the final report. A row that is once included is
never written again.

**Event log and disaster recovery.** `PersistLog` is the append-only log with its rotated segments, down to lines, file
names and their sorting. `InvoiceReplay` and `WalletReplay` fold the events of `InvoiceTable` and `WalletTable` back and
are proved against the live tables for every run; `DisasterRecovery` goes from end to end.

**Ingestion.** `Scanner` is the sweep node's log scanner, with a crash possible between any two writes; `SweepTicks`
lets the scans of several ticks interleave at every await. `TransferLedger` is the de-duplicating transfer table;
`WalletTransfers` makes drafts for it from user operations and from explorer rows; `ExplorerSync` is the three-page
tick with its cursor, `ExplorerTicks` and `ExplorerOrder` what becomes of it over many ticks.

**Recovery requests.** `RecoveryRequests` is the state machine over e-mail, guardian, operator and job reports.

**Admission.** `RateLimit` is the token bucket over reals and a millisecond clock; `NonceWindow` the timestamp window
with one-time nonces, and the message that is signed.

**Codecs and amounts.** `Es256` parses raw and DER signatures and lowers s; `UrlEncoded` is the form-urlencoded text of
section 5 of the WHATWG URL Standard with its UTF-8; `PayLink` encodes and decodes pay links over it; `Amounts` prints
and reads decimal amounts; `FeeBatch` sets the fee check against executing the batch. `Base`, `Text` and `Decimal` are
shared vocabulary, `Lease` what two queues have in common.

## What turned out not to hold

Each is a lemma, with the condition under which the code does what it is for.

- A DER signature of exactly 64 bytes is taken for a raw one by both parsers, and is then never read right
  (`Es256.BothFormsParseIff`, `Es256.EncoderParses`, `Es256.SixtyFourExists`).
- Ticks of the sweep node start from a timer, without waiting for the one before. Two that overlap can write an earlier
  log of an invoice over its last one and then crash, with the cursor past both; no later tick reads them again. It
  takes an invoice with two logs (`SweepTicks.OverlappingTicksLoseALog`, `SweepTicks.EveryRunIsGoodIff`), and does not
  happen as long as no tick starts before the one before it has ended (`SweepTicks.TicksInTurnAreGood`).
- An error report that is the first to call an invoice swept sets `sweptAt` but appends no event; if later events are
  `invoice.paid`, a replay has no sweep time (`InvoiceReplay.SweptAtKeptIff`, `InvoiceReplay.SweptAtCanBeLost`).
- An invoice whose creation was committed but not appended, because the process stopped in between, is lost to every
  later replay, whatever is appended for it afterwards (`InvoiceReplay.CrashBeforeAppend`).
- A lease keeps out sweep reports that are signed by another; an unsigned one passes
  (`InvoiceTable.UnsignedSweepPassesTheLease`).
- What identifies a ledger row does not name the wallet. Two equal transfers of one transaction (token, amount,
  direction, counterparty) share one row, within a batch (`WalletTransfers.EachTransferHasItsRowIff`) and as the explorer
  lists them (`ExplorerTicks.FreeHistoryIsRecorded`). If they go to two wallets of the server, only the first one synced
  gets a row, and the other never sees its payment (`TransferLedger.OwnRowIff`, `WalletTransfers.TwoPayeesShareARow`).
  A transfer to the wallet itself gets two rows, one in and one out (`WalletTransfers.OriginsAgreeIff`).
- Drafts of a user operation are numbered within the batch, not by chain log position. Such a number can coincide with
  another transfer's position; then an upsert throws on the unique index or merges into the other transfer's row
  (`TransferLedger.ThrowsIff`, `TransferLedger.EitherOrderIff`, `TransferLedger.BatchNumberingClashes`).
- Log positions are unique across wallets: when one wallet of the server pays another, payer's and payee's view share a
  position, and the second to arrive gets no row (`WalletTransfers.TwoWalletsShareAPosition`).
- The explorer sync stands still for good when one block alone fills its three pages
  (`ExplorerSync.TransferSync.StuckIff`, `ExplorerTicks.StuckForGood`), and also at a row whose upsert throws, as long
  as nobody else writes to the ledger and each transaction's rows are listed in log order
  (`ExplorerTicks.ThrowingRowStopsForGood`, `ExplorerOrder.OutOfOrderCanRecover`). Free positions and no such block
  make it hand over everything (`ExplorerTicks.FreeHistoryIsRecorded`).
- The operator's "initiated" handler does not look at the status: outside the list it shows, it revives cancelled,
  rejected and archived requests and puts unverified ones on chain (`RecoveryRequests.StepKeepsIff`,
  `RecoveryRequests.UnlistedOperatorRevives`).
- Two bundlers under one address can overwrite an included row (`BundlerProtocol.SharedAddressLosesInclusion`,
  `BundlerProtocol.InclusionIsFinalIffDistinct`).
- Where two routes of different rates share a rate-limit key, a rejected call of one can cost a call of the other its
  admission (`RateLimit.TwoRatesLeaveATrace`, `RateLimit.RejectionUnnoticedIff`, `RateLimit.FaucetInterferesIff`).
- A recovery track without a worker id passes any lease (`RecoveryJobQueue.AnonymousTrackPassesTheLease`).
- A new account with an empty identity id keeps it in the table, while a replay drops it
  (`WalletReplay.CreatedIdentityKeptIff`). Credential ids can differ between table and replay: the table keeps an
  account's or a device's first one, of which the events know nothing, and a method's later ones append no event
  (`WalletReplay.AccountCredentialKeptIff`, `WalletReplay.DeviceCredentialKeptIff`,
  `WalletReplay.MethodCredentialKeptIff`). Device and entity keys collide when a part contains a bar
  (`WalletReplay.BarsCollide`, `WalletReplay.EntityBarsCollide`).
- Segment 1000000 sorts before segment 999999 (`PersistLog.NamesInOrderIff`).
- With overlap 0 the scanner never reads its start block (`SweepTicks.StartBlockIsReadIff`).
- A nonce lifetime below twice the skew would admit replays; the shipped constants meet the bound with nothing to spare
  (`NonceWindow.NoReplay`, `NonceWindow.ShortLifetimeReplays`).
- A fractional slippage is rounded by a pay link, and a non-finite one is dropped (`PayLink.LinkReadsBackIff`).

## Assumptions

SQLite calls are atomic steps. Times are integers. One HTTP attempt of a worker is executed before the worker sees its
answer or its failure. The receiver's logs below the confirmed head, and the explorer's results, are fixed ordered
histories of which a query sees a part. `Scanner` takes one scan after the other, that is, no tick of the sweep node
starts before the one before it has ended; `SweepTicks` does without. Clocks of `RateLimit` and `NonceWindow` do not
go back, and one request reads one clock value. `JSON.stringify` gives one line without outer white space; gzip is
undone by gunzip. ABI decoding is given: call data is a transfer or something else. Calls to other contracts do not
move the fee token, and calls on the fee token are only transfers. Normalising a pay link's address is idempotent and
gives a list entry. Pay-link integers read back from their text.

## Model

| member | source | states |
|---|---|---|
| UserOpQueue.UserOpTable.CreateWalletUserOp | commerce/server/db.ts:2042-2077 | creating keeps an existing row of the same hash and otherwise opens a pending one at version 1 |
| UserOpQueue.UserOpTable.RequeueWalletUserOp | commerce/server/db.ts:2576-2627 | only a rejected or failed row returns to pending, one version up, without claim, hash, reason or gas |
| UserOpQueue.UserOpTable.ClaimWalletUserOp | commerce/server/db.ts:2629-2663 | a claim succeeds exactly at the expected version on a pending or claimed row that is free, its own or expired |
| UserOpQueue.UserOpTable.TrackWalletUserOp | commerce/server/db.ts:2665-2707 | a track is refused at another version or under another's claim; a terminal status drops the claim |
| UserOpQueue.VersionGrows | commerce/server/db.ts:2576-2707 | no run of calls lowers a row's version |
| UserOpQueue.OneWinnerPerVersion | commerce/server/db.ts:2629-2707 | a successful versioned write raises the version by one, so of all holders of one version at most one succeeds |
| UserOpQueue.LeaseExcludesOthers | commerce/server/db.ts:2629-2707 | a held row is unchanged by any run of other bundlers' claims before expiry, their tracks, and requeues |
| UserOpQueue.TakeoverIffExpired | commerce/server/db.ts:2629-2663 | another bundler that knows the version takes a claimed row over exactly if the lease has expired; no other version works |
| UserOpQueue.ClaimGrantsLease | commerce/server/db.ts:2629-2707 | for `leaseMs` from the claim's own time no run of other bundlers takes a claimed row away, and after that time, and only then, another bundler that knows the version does |
| UserOpQueue.RefusedIff | commerce/server/db.ts:2665-2707 | at the current version a claim is refused exactly if the row is past claiming or another's lease on it lasts, a named bundler's track exactly if another holds the row, and a requeue exactly if the row is neither rejected nor failed |
| UserOpQueue.ColumnsAreLastSaid | commerce/server/db.ts:2576-2707 | after every run each column holds what the last successful call that says something about it said |
| UserOpQueue.CreatedColumns | commerce/server/db.ts:2042-2077 | a new row is at version 1, and after any run from it its columns are what was last said, or else pending, unclaimed, without hash, and as created |
| BundlerProtocol.KnowledgeSurvives | commerce/bundler/worker.ts:212-331 | what a worker knows about its version survives every write another worker can make |
| BundlerProtocol.RequestIsGood | commerce/bundler/worker.ts:276-331 | no request of a worker in a reachable state writes over an included row, or includes another worker's claim |
| BundlerProtocol.DigestIsSafe | commerce/bundler/worker.ts:276-331 | every answer (done, 409 with the current row, 404) leaves the worker with knowledge true of the row that the call left |
| BundlerProtocol.LostAnswerIsSafe | commerce/bundler/worker.ts:276-331 | what a worker knew stays true when its own call was executed and the answer lost |
| BundlerProtocol.StepKeepsInv | commerce/bundler/worker.ts:129-331 | every step of the system keeps the invariant, and none changes an included row |
| BundlerProtocol.RunKeepsInv | commerce/bundler/worker.ts:129-331 | the invariant holds in every reachable state of any number of workers |
| BundlerProtocol.IncludedIsFinal | commerce/bundler/worker.ts:212-331 | once included, a user operation keeps status and transaction hash for the rest of every run |
| BundlerProtocol.EveryTrackIsVersioned | commerce/bundler/worker.ts:304-331 | every track a worker sends carries an expected version, also after retries |
| BundlerProtocol.RetriedClaimIsDoneIff | commerce/bundler/worker.ts:276-302 | a worker whose claim got a 409 and has a retry left: if nobody writes the row in between, its next answered attempt claims it, at the row's own version, exactly if the row is then free for it |
| BundlerProtocol.RetriedTrackIsDoneIff | commerce/bundler/worker.ts:304-331 | the same for its reports: the next one is done, with the status it reports, exactly if no other worker holds the row |
| BundlerProtocol.ErrorsUseUpAttempts | commerce/bundler/worker.ts:276-331 | server errors use up attempts and change nothing else about a worker |
| BundlerProtocol.ThrowingEndsTheWork | commerce/bundler/worker.ts:276-331 | a request that throws ends the processing of the operation |
| BundlerProtocol.DeliversTheOutcome | commerce/bundler/worker.ts:212-249 | an idle worker with a retry and a free row, undisturbed and answered, leaves the row included or failed as the chain said, with hash and gas, unclaimed, three versions up |
| BundlerProtocol.DeliversTheRefusal | commerce/bundler/worker.ts:129-211 | a worker that refuses an operation leaves it rejected with its reason, unless another holds the row |
| BundlerProtocol.SharedAddressLosesInclusion | commerce/bundler/worker.ts:212-331 | any two workers under one non-empty address, with a retry each, have a run in which an included row becomes failed |
| BundlerProtocol.InclusionIsFinalIffDistinct | commerce/bundler/worker.ts:129-331 | in every run of an initial system whose workers have addresses and a retry, inclusion is final exactly if no two workers share an address |
| InvoiceTable.InvoiceDb.CreateInvoice | commerce/server/db.ts:336-461 | a repeated idempotency key answers with the earlier invoice and changes nothing; otherwise an unpaid row at version 1, its creation event and the key; a known id or a missing seed changes nothing |
| InvoiceTable.InvoiceDb.ClaimInvoice | commerce/server/db.ts:560-601 | a claim succeeds exactly at the current version of a claimable row and appends nothing |
| InvoiceTable.InvoiceDb.TrackInvoice | commerce/server/db.ts:603-699 | a track's row and the event it appends, with every refusal |
| InvoiceTable.RowsPersist | commerce/server/db.ts:336-699 | rows stay, their versions never fall, and terms and creation time never change |
| InvoiceTable.OneWinnerPerVersion | commerce/server/db.ts:560-699 | of all sweepers that hold one version at most one writes, and its write spends the version |
| InvoiceTable.LeaseExcludesOthers | commerce/server/db.ts:560-699 | until a lease expires no run of others takes the claim or marks the invoice swept, whatever payment reports anyone sends in between |
| InvoiceTable.UnsignedSweepPassesTheLease | commerce/server/db.ts:603-650 | at a right or absent version, a sweep report on a leased invoice is accepted exactly if it is unsigned or signed by the holder |
| InvoiceTable.SweepRefusedIffLeased | commerce/server/db.ts:603-650 | a signed sweep at the current version is refused exactly when another's lease has time left |
| InvoiceTable.ClaimGrantsLease | commerce/server/db.ts:560-601 | for `leaseMs` from the claim's own time no run of others takes the claim or marks the invoice swept; after that time, and only then, another sweeper takes it over |
| InvoiceTable.SweepRefusedForTheLease | commerce/server/db.ts:603-650 | in the same runs another's signed sweep at the current version is refused exactly as long as the lease lasts |
| InvoiceTable.CreatedIff | commerce/server/db.ts:336-461 | a new invoice is made exactly if it has a seed and its id is no invoice's and no invoice's address; a report for just such an id finds nothing |
| InvoiceTable.ColumnsAreLastSaid | commerce/server/db.ts:336-699 | after every run the amounts, the gas, the sweep transaction, the status, the claim, the terms and the update time are what the last successful operation that says something about them said, amounts 0 if none did; the times of payment and sweep are those of the first successful reports of them |
| RecoveryJobQueue.RecoveryJobTable.ClaimWalletRecoveryJob | commerce/server/db.ts:3056-3090 | the claim of a recovery job and the table it leaves |
| RecoveryJobQueue.RecoveryJobTable.TrackWalletRecoveryJob | commerce/server/db.ts:3092-3147 | the track of a recovery job and the table it leaves |
| RecoveryJobQueue.OneWinnerPerVersion | commerce/server/db.ts:3056-3147 | at most one of the holders of a version succeeds |
| RecoveryJobQueue.LeaseExcludesOthers | commerce/server/db.ts:3056-3147 | a held job is unchanged by any run of other named workers before expiry |
| RecoveryJobQueue.ClaimGrantsLease | commerce/server/db.ts:3056-3147 | for `leaseMs` from the claim's own time no run of other named workers takes it away; after that time, and only then, another worker takes it over |
| RecoveryJobQueue.ColumnsAreLastSaid | commerce/server/db.ts:3056-3147 | after every run each column holds what the last successful call that says something about it said; a return to pending drops the claim |
| RecoveryJobQueue.AnonymousTrackPassesTheLease | commerce/server/db.ts:3092-3147 | a track without a worker id is accepted whoever holds the job |
| InvoiceReplay.InvoicePersistState.ApplyInvoicePersistEvent | commerce/server/invoice-persist-replay.ts:72-143 | one event's effect on the replayed invoices, in place |
| InvoiceReplay.InvoicePersistState.ReplayInvoicePersistState | commerce/server/invoice-persist-replay.ts:145-152 | the loop computes the fold of all events |
| InvoiceReplay.AbsentFieldsKeep | commerce/server/invoice-persist-replay.ts:104-143 | payloads with absent fields: an absent amount keeps the folded one, an absent time of payment keeps the folded one or else is the event's, an absent time of sweep is the event's |
| InvoiceReplay.StrayEventsAreIgnored | commerce/server/invoice-persist-replay.ts:72-143 | events without an id, or of an invoice that no event created, change nothing |
| InvoiceReplay.EmissionMatches | commerce/server/db.ts:603-699 | right after an operation that appends, the folded invoice equals the row in every replayed field; the sweep transaction and time follow the row at a swept event and stand still at any other |
| InvoiceReplay.ReplayIsTheLastPersistedRow | commerce/server/invoice-persist-replay.ts:72-152 | after every run, whichever appends were lost, the fold shows each invoice it knows as its row stood at its last persisted event, with the sweep transaction and time as of its last swept event |
| InvoiceReplay.CrashBeforeAppend | commerce/server/db.ts:603-699 | in runs that stop between commit and append any number of times and go on, an invoice is in the replay exactly if its creation event was not lost, now and for good, and then as at its last surviving event |
| InvoiceReplay.ReportKeepsSweptAtIff | commerce/server/db.ts:603-699 | one report keeps replay and row agreed on `sweptAt` exactly when it is not an error report that is the first to say swept |
| InvoiceReplay.SweptAtKeptIff | commerce/server/invoice-persist-replay.ts:72-152 | after every run, whichever appends were lost, the replayed sweep time is that of the row at its last persisted event exactly if a swept event was appended for the invoice or that row has no sweep time |
| InvoiceReplay.SweptAtCanBeLost | commerce/server/invoice-persist-replay.ts:118-143 | such a report and then a clean paid report leave a row with a sweep time and a replay without one |
| InvoiceReplay.CleanRunsKeepSweptAt | commerce/server/invoice-persist-replay.ts:72-152 | in runs without such reports the replay has every sweep time of the table |
| InvoiceReplay.RestorePersistedInvoice | commerce/server/db.ts:705-829 | restoring one invoice overwrites the row's fields, clears the claim and raises an existing version |
| InvoiceReplay.ApplyInvoicePersistStateToDb | commerce/server/invoice-persist-replay.ts:154-204 | the loop restores every replayed invoice once, keeps other rows, and appends nothing |
| InvoiceReplay.FoldStatuses | commerce/server/invoice-persist-replay.ts:72-152 | a fold holds only awaiting, paid, partly paid or swept invoices, all with a creation time |
| InvoiceReplay.RestoreReproduces | commerce/server/invoice-persist-replay.ts:154-204 | restoring a folded log into an empty table gives exactly its invoices, field for field |
| InvoiceReplay.RestoreTwice | commerce/server/db.ts:705-829 | restoring again changes versions and update times only |
| InvoiceReplay.RestoredIsClaimable | commerce/server/db.ts:560-601 | after a restore any sweeper can claim an invoice at its current version exactly if it is not swept |
| InvoiceReplay.DisasterRecovery | commerce/server/invoice-persist-replay.ts:206-212 | run, losing any appends, lose the database, replay: exactly the invoices whose creation event survived come back, each field for field as at its last persisted event, with the sweep fields of its last swept event, unclaimed at version 1; all of them if no append was lost |
| WalletTable.WalletDb.UpsertWalletAccount | commerce/server/db.ts:1443-1513 | the account's row and the event of an upsert, with the keep-the-old-credential rule |
| WalletTable.WalletDb.MarkWalletDeployed | commerce/server/db.ts:1880-1910 | a chain is appended once, with its event |
| WalletTable.WalletDb.UpsertWalletDevice | commerce/server/db.ts:1912-1955 | the device's row and its event |
| WalletTable.WalletDb.DeleteWalletDevice | commerce/server/db.ts:1957-1969 | the device goes, with its event |
| WalletTable.WalletDb.InsertIdentityMethod | commerce/server/db.ts:1672-1716 | a new method is inserted with its event; a known one only gains a credential id, silently |
| WalletTable.WalletDb.DeleteIdentityMethod | commerce/server/db.ts:1718-1732 | a known method goes with its event |
| WalletTable.AccountColumns | commerce/server/db.ts:1443-1513 | after every run an account exists exactly if it was upserted, with the terms of its first upsert, the first credential id that was not blank and the last identity that was not blank |
| WalletTable.DeployedChains | commerce/server/db.ts:1880-1910 | after every run an account's chains are exactly those marked since it exists, each once |
| WalletTable.DeviceColumns | commerce/server/db.ts:1912-1969 | after every run a device is there exactly if it was upserted since it was last deleted, with its last label and the first credential id, not blank, since then |
| WalletTable.MethodColumns | commerce/server/db.ts:1672-1732 | after every run a method is there exactly if it was inserted since it was last deleted, with the keys of the first insert and the last credential id since then |
| WalletReplay.WalletPersistState.ApplyWalletPersistEvent | commerce/server/wallet-persist-replay.ts:97-241 | one event's effect on the replayed accounts, devices and methods, in place |
| WalletReplay.WalletPersistState.ReplayWalletPersistState | commerce/server/wallet-persist-replay.ts:243-250 | the loop computes the fold of all events |
| WalletReplay.DeviceKeyInjective | commerce/server/wallet-persist-replay.ts:81-83 | device keys are equal only for the same device, if no part contains a bar |
| WalletReplay.BarsCollide | commerce/server/wallet-persist-replay.ts:81-83 | a device shares its key with another one exactly if one of its parts contains a bar |
| WalletReplay.EntityBarsCollide | commerce/server/wallet-persist-replay.ts:85-91 | an entity, or a key of one, shares its key with another one exactly if its wallet contains a bar, or its identifier one with nothing but lower case before it |
| WalletReplay.StepAgrees | commerce/server/wallet-persist-replay.ts:97-241 | one write and its event keep replay and tables in agreement |
| WalletReplay.ReplayAgreesWithTables | commerce/server/wallet-persist-replay.ts:97-250 | after every run replay and tables agree on accounts with chains in order, devices with labels, methods with key material |
| WalletReplay.CreatedIdentityKeptIff | commerce/server/wallet-persist-replay.ts:138-151 | a new account's identity survives the replay exactly when it is not the empty text |
| WalletReplay.NewRowReplayedIff | commerce/server/wallet-persist-replay.ts:138-241 | a new account, device or method gets into the replay exactly if no part that identifies it is empty |
| WalletReplay.AccountCredentialKeptIff | commerce/server/db.ts:1464-1510 | an upsert of a known account keeps table and replay agreed on its credential id exactly if it brings none or the stored one, or if it is the first one exactly when there is no new identity |
| WalletReplay.DeviceCredentialKeptIff | commerce/server/db.ts:1912-1955 | the replay shows the credential id of a device's last upsert; the table has that one exactly if the device is new, had it, or had none and now gets one |
| WalletReplay.MethodCredentialKeptIff | commerce/server/db.ts:1672-1716 | an insert of a known method keeps table and replay agreed on its credential id exactly if it brings none or the stored one |
| PersistLog.LinesReadBack | commerce/server/persist-log.ts:136-146 | splitting, trimming and dropping blanks undoes writing events line by line |
| PersistLog.NumberedNames | commerce/server/persist-log.ts:113 | zero-padded names sort by number up to 999999 |
| PersistLog.NamesInOrderIff | commerce/server/persist-log.ts:113-135 | the names of k segments sort by number exactly if k is at most 999999 |
| PersistLog.SortedNames | commerce/server/persist-log.ts:128-135 | sorting any listing of the names puts the segments in the order they were sealed |
| PersistLog.Stream.LastSegment | commerce/server/persist-log.ts:109-112 | the loop over the directory finds the number of segments |
| PersistLog.Stream.Seal | commerce/server/persist-log.ts:103-120 | sealing loses and reorders nothing, makes the active events the next segment, and empties the active file |
| PersistLog.Stream.AppendSync | commerce/server/persist-log.ts:55-101 | an append adds exactly its event at the end; the active file is sealed exactly if it then has 8 MiB or is a minute old, so that it is below 8 MiB after every append |
| PersistLog.Stream.IterPersistEvents | commerce/server/persist-log.ts:123-152 | reading yields every appended event once and in order |
| Scanner.GetLogsIsTheRange | node/sweep-node.ts:237-246 | a chunk's query returns exactly the history's logs in its block range |
| Scanner.PassHoldsLastLogs | node/cache.ts:176-201 | an in-order pass leaves for each invoice its last log |
| Scanner.RescanKeeps | node/sweep-node.ts:228-283 | re-reading logs over a safe table never puts a row before its invoice's last log |
| Scanner.RescanIsExact | node/sweep-node.ts:228-283 | a rescan that reaches a head not below earlier ones leaves exactly one in-order pass over all logs |
| Scanner.SweepNode.ReconcilePaid | node/sweep-node.ts:145-205 | a reconciled placeholder never replaces a row and keeps the table safe |
| Scanner.SweepNode.UpsertPaidLogs | node/sweep-node.ts:246-275 | a crash between any two logs of a chunk leaves a safe table |
| Scanner.SweepNode.ScanChunk | node/sweep-node.ts:237-282 | a chunk that ends has written its logs and moved the cursor; one that does not leaves a safe table |
| Scanner.SweepNode.ScanEvmPaidLogs | node/sweep-node.ts:228-283 | a scan always leaves a safe table; a completed one has added one in-order pass from its restart point to the head, and at a non-decreasing head leaves exactly the pass over everything |
| Scanner.SweepNode.Life | node/sweep-node.ts:228-283 | after any number of crashing scans, one after the other, a completed one at the highest head leaves exactly the pass |
| SweepTicks.StepKeepsInv | node/sweep-node.ts:228-283 | no step of any number of interleaved scans breaks the invariant, unless it writes a log back over a later one of its invoice |
| SweepTicks.TicksInTurnAreGood | node/sweep-node.ts:83-102 | as long as no tick starts before the one before it has ended, every state of every run may be picked up after a crash, and a scan that is over left exactly the pass |
| SweepTicks.WholeTick | node/sweep-node.ts:228-283 | a tick that nothing interrupts has a run of steps that adds one pass from the restart point to the head and moves the cursor there |
| SweepTicks.OverlappingTicksLoseALog | node/sweep-node.ts:83-102 | for any two logs of one invoice two overlapping ticks can leave the earlier one's row with the cursor past both; if the later is the invoice's last, no number of later ticks repairs it |
| SweepTicks.EveryRunIsGoodIff | node/sweep-node.ts:83-283 | every state of every run is good, overlapping ticks included, exactly if no invoice has two logs from the start block on |
| SweepTicks.StartBlockIsReadIff | node/sweep-node.ts:228-236 | however many ticks there are, an invoice whose only log is in the start block gets its row exactly if the overlap is at least 1 |
| TransferLedger.TransferTable.UpsertWalletTransfer | commerce/server/db.ts:2394-2471 | the upsert and its table, including the refusal by the unique index |
| TransferLedger.SameTransferIff | commerce/server/db.ts:2401-2410 | two drafts are one transfer exactly if chain, transaction, token, amount, direction and counterparty agree, hexadecimal parts in any capitals |
| TransferLedger.SourceAfter | commerce/server/db.ts:2427-2445 | a merged row keeps a source of the server's own and takes the draft's in place of the explorer's |
| TransferLedger.RowsAreOpened | commerce/server/db.ts:2394-2471 | after every run each row has wallet, transfer, symbol, decimals and time of a draft of the run |
| TransferLedger.UpsertKeepsUnique | commerce/server/db.ts:2394-2471 | one row a transfer and one a position; positions never fall, managed sources and links never change |
| TransferLedger.UpsertIsIdempotent | commerce/server/db.ts:2394-2471 | the second of two equal upserts changes nothing |
| TransferLedger.RunKeepsOneRowPerTransfer | commerce/server/db.ts:2394-2471 | the same over every run of drafts, throwing ones included |
| TransferLedger.ThrowsIff | commerce/server/db.ts:1337-1338 | an upsert throws exactly if its transfer has a row below the draft's position and another transfer's row is at that position |
| TransferLedger.PositionsAfter | commerce/server/db.ts:2404-2447 | after an upsert every earlier row has its key, and its position unless it is the draft's own and rises; a new row is the draft's, at its position |
| TransferLedger.OwnRowIff | commerce/server/db.ts:2404-2421 | after an upsert the wallet has a row of its own for the transfer exactly if it had one, or if no wallet had one and the position was free |
| TransferLedger.SecondOfOneKeyIsLost | commerce/server/db.ts:2404-2421 | of two wallets with transfers of one key only the first to arrive gets a row, the other one none for good |
| TransferLedger.EitherOrder | commerce/server/db.ts:2421-2447 | a managed and an explorer draft leave the same positions, source and links in either order, if both positions are free |
| TransferLedger.EitherOrderIff | commerce/server/db.ts:2421-2447 | for a new transfer the order is immaterial exactly if both positions are free |
| TransferLedger.BatchNumberingClashes | commerce/shared/wallet-transfers.ts:34-61 | two transfers of a batch numbered 0 and 1, and the explorer's row of the first at position 1, which is refused |
| TransferLedger.SecondAtPositionIsLost | commerce/server/db.ts:1337-1338 | of two transfers that share a position only the first to arrive gets a row |
| WalletTransfers.OutgoingTransfersFromUserOp | commerce/shared/wallet-transfers.ts:24-62 | the loop drafts the batch's stable-token transfers other than the bundler's fee, in order and numbered from zero |
| WalletTransfers.ReportedIff | commerce/shared/wallet-transfers.ts:24-62 | reported are the transfers of tracked tokens, but for those of the fee token to the beneficiary |
| WalletTransfers.BatchDraftsTell | commerce/shared/wallet-transfers.ts:24-62 | every draft of a batch names its wallet, its operation and a tracked token with that token's symbol and decimals, and no block yet |
| WalletTransfers.ExplorerDraftTells | commerce/server/wallet-transfer-sync.ts:278-328 | an explorer row gives a draft exactly if it is a transfer of a tracked token to or from the wallet and not its fee; which row field each column of the draft is |
| WalletTransfers.RecordAddsTheDifferent | commerce/server/wallet-transfer-sync.ts:68-86 | recording a batch throws exactly if one of its drafts is stopped, and adds a row for each key that a draft opens; in a table without rows of the transaction it never throws, and these are the different transfers |
| WalletTransfers.EachTransferHasItsRowIff | commerce/server/wallet-transfer-sync.ts:68-86 | in any table, each reported transfer ends up with a row of its own exactly if no two reported calls have the same target, amount and recipient, and each had its row or was new; in a table without rows of the transaction each is new |
| WalletTransfers.RecordIntoAnyTable | commerce/server/wallet-transfer-sync.ts:68-86 | into any table, recording any batch throws exactly if one of its drafts is stopped, and otherwise leaves the wallet with a transfer's row exactly if it had it or if one of the drafts opened it |
| WalletTransfers.OriginsAgreeIff | commerce/server/wallet-transfer-sync.ts:278-328 | the explorer's draft of what a call emitted exists exactly if the call is reported, and is the same transfer exactly if the wallet does not pay itself |
| WalletTransfers.TwoWalletsShareAPosition | commerce/server/wallet-transfer-sync.ts:278-328 | of the payer's and the payee's view of one payment between two wallets of the server, only the one that arrives first gets a row |
| WalletTransfers.TwoPayeesShareARow | commerce/server/wallet-transfer-sync.ts:278-328 | of two wallets that one payer pays the same amount in one transaction, only the one that is synced first ever gets a row |
| ExplorerSync.PageContinues | commerce/server/wallet-transfer-sync.ts:242-258 | a page of what the explorer knows continues the history at its offset, up to where the knowledge ends |
| ExplorerSync.AcceptedOwnRowIff | commerce/server/db.ts:2394-2471 | with an upserted draft the wallet got a row of its own exactly if it had one, or if no wallet had one and the position was free; and it keeps what it got |
| ExplorerSync.TransferSync.HandPage | commerce/server/wallet-transfer-sync.ts:183-203 | the row loop drafts and upserts every row in order, or stops at the first upsert that throws; the position only advances, to the last row's block |
| ExplorerSync.TransferSync.SyncPage | commerce/server/wallet-transfer-sync.ts:153-205 | a refused or failing page hands over nothing more; a full one exactly its rows; a short one reaches the end of what is known |
| ExplorerSync.TransferSync.TouchSync | commerce/server/wallet-transfer-sync.ts:213-226 | touching keeps the cursor's position |
| ExplorerSync.TransferSync.SyncWalletTransfers | commerce/server/wallet-transfer-sync.ts:128-211 | under every failure and with other writers in between, the cursor never goes back and every row of a lower block was itself handed over: it asked for nothing, or its own draft was upserted without throwing; undisturbed, a tick is clean exactly if no upsert of its window throws |
| ExplorerSync.TransferSync.StuckIff | commerce/server/wallet-transfer-sync.ts:151-211 | an error-free tick leaves rows behind without advancing exactly if the cursor's block fills all three pages |
| ExplorerSync.TransferSync.TickOnce | commerce/server/wallet-transfer-sync.ts:128-211 | an undisturbed tick does what the fold of the upserts of its window does, whatever the explorer knows by then |
| ExplorerSync.TransferSync.CatchUp | commerce/server/wallet-transfer-sync.ts:128-211 | undisturbed ticks do what the fold of their upserts does; if no block fills three pages and no upsert of their windows throws, more ticks than the history has rows have handed over all of it |
| ExplorerTicks.StuckForGood | commerce/server/wallet-transfer-sync.ts:151-211 | once the cursor's block fills all three pages, every later tick sees the same rows and the cursor stays, however the history grows |
| ExplorerTicks.ThrowsAgain | commerce/server/wallet-transfer-sync.ts:183-192 | rows, listed in log order, whose handing over threw throw again whenever they, and perhaps more, are handed over again |
| ExplorerTicks.ThrowingRowStopsForGood | commerce/server/wallet-transfer-sync.ts:151-211 | once a tick met a row that throws, every later undisturbed tick throws and the cursor stands still, however the history grows |
| ExplorerOrder.OutOfOrderCanRecover | commerce/server/wallet-transfer-sync.ts:183-203 | with a transaction's rows out of order, one transfer listed twice, handing them over throws the first time and not the second |
| ExplorerTicks.FreeHistoryIsRecorded | commerce/server/wallet-transfer-sync.ts:128-211 | if the positions of the wallet's transfers are free and no block fills three pages, every tick is clean, and more ticks than the history has rows record all of it: a transfer's row is the wallet's own exactly if no other wallet had one of its key, and each transfer has a row to itself exactly if besides no two are alike |
| RecoveryRequests.RecoveryDesk.UpdateWalletRecoveryRequest | commerce/server/db.ts:3444-3481 | absent columns keep what is stored |
| RecoveryRequests.RecoveryDesk.CreateRecoveryRequest | commerce/server/wallet-hosted-recovery.ts:635-660 | an unverified e-mail waits for verification, any other request for the guardian |
| RecoveryRequests.RecoveryDesk.VerifyRecoveryEmail | commerce/server/wallet-hosted-recovery.ts:855-901 | answers ok exactly to a valid code for a request that waits for its e-mail, and the table it leaves |
| RecoveryRequests.RecoveryDesk.CancelRecoveryRequest | commerce/server/wallet-hosted-recovery.ts:903-996 | cancels exactly an undecided, queued or on-chain request whose challenge is signed; a queued or on-chain one gets a cancel job in place of its job |
| RecoveryRequests.RecoveryDesk.ApproveRequest | commerce/server/wallet-hosted-recovery.ts:1174-1223 | queues exactly a request that waits for the guardian, with settled e-mail and no manual owner, with a fresh initiate job and the guardian on record |
| RecoveryRequests.RecoveryDesk.RejectRequest | commerce/server/wallet-hosted-recovery.ts:1225-1246 | rejects exactly undecided requests |
| RecoveryRequests.RecoveryDesk.OperatorRestoreInitiated | commerce/server/identity-routes.ts:862-890 | the operator's step puts any request of an identity wallet on chain with a fresh execute job |
| RecoveryRequests.RecoveryDesk.SyncRequestFromJob | commerce/server/wallet-hosted-recovery.ts:1311-1332 | an included job moves the request linked to it, by the job's kind |
| RecoveryRequests.StepKeepsIff | commerce/server/identity-routes.ts:818-890 | a step keeps links, authorisation and final states exactly if the operator acts on a listed request |
| RecoveryRequests.RunKeeps | commerce/server/wallet-hosted-recovery.ts:855-1332 | over every run cancelled, rejected and archived are final, requests only move forward, a job belongs to one request, and nothing is queued or on chain without guardian and settled e-mail |
| RecoveryRequests.CreatedWaits | commerce/server/wallet-hosted-recovery.ts:635-660 | a new request waits for its e-mail exactly if it has one that is not verified |
| RecoveryRequests.ValidCodeBringsToGuardian | commerce/server/wallet-hosted-recovery.ts:855-901 | a valid code brings a request to the guardian, with the time of verification, and makes the next approval succeed exactly if the new owner is not manual |
| RecoveryRequests.ApprovalQueuesIff | commerce/server/wallet-hosted-recovery.ts:1174-1223 | in every reachable state an approval queues a request exactly if it waits for the guardian and its new owner is not manual |
| RecoveryRequests.InclusionMoves | commerce/server/wallet-hosted-recovery.ts:1311-1332 | inclusion of a request's own job: the initiate job puts it on chain, the execute job archives it |
| RecoveryRequests.IncludedJobDecides | commerce/server/wallet-hosted-recovery.ts:1311-1332 | in any state an included job decides the status of the first request linked to it |
| RecoveryRequests.OperatorPutsOnChain | commerce/server/identity-routes.ts:862-890 | the operator's step puts a listed request of an identity wallet, and of no other, on chain with an execute job |
| RecoveryRequests.CodeToArchive | commerce/server/wallet-hosted-recovery.ts:855-1332 | from every reachable state code, approval, the initiate job's inclusion, the operator's step and the execute job's inclusion archive a request; a manual owner's stops at the approval |
| RecoveryRequests.StatusChangesIff | commerce/server/wallet-hosted-recovery.ts:855-1332 | which steps change a request's status, and to what |
| RecoveryRequests.StatusLeftOnlyBy | commerce/server/wallet-hosted-recovery.ts:855-1332 | over every run in which the operator acts on listed requests only, a request has the status it had or one to which a step meant for it moved it |
| RecoveryRequests.LateReportsMissCancelled | commerce/server/wallet-hosted-recovery.ts:981-992 | after a cancellation the job the request was queued for cannot reach it, whatever happens in between |
| RecoveryRequests.UnlistedOperatorRevives | commerce/server/identity-routes.ts:862-890 | runs in which the operator's step revives a cancelled request and puts an unverified one on chain |
| RateLimit.RateLimiter.TakeToken | commerce/server/rate-limit.ts:30-52 | a call's answer and the bucket it leaves; a rate of zero or less admits everything and stores nothing |
| RateLimit.WindowBound | commerce/server/rate-limit.ts:38-51 | in every window of every run the admitted calls number at most the capacity plus the window's refill, also when routes of different rates share a key |
| RateLimit.AdmittedIff | commerce/server/rate-limit.ts:38-51 | a call to a key is admitted exactly if no stretch of calls that ends in it would admit more than the capacity at its start and the refill since, whatever the rates and capacities |
| RateLimit.SteadyIsAdmitted | commerce/server/rate-limit.ts:38-51 | calls between any two of which a token is refilled are all admitted |
| RateLimit.BurstIsExact | commerce/server/rate-limit.ts:35-51 | of calls of one instant a new key admits exactly the burst, or the rate if there is none, rounded down, but at least one |
| RateLimit.RemainingIsExact | commerce/server/rate-limit.ts:48-51 | `remaining` is exactly how many more calls of that instant are admitted |
| RateLimit.WaitIsExact | commerce/server/rate-limit.ts:42-46 | after a rejection a next call, of whatever rate and capacity, is admitted exactly if it waits for the missing tokens; at the rejected call's rate that is the advertised time |
| RateLimit.RejectedCallsLeaveNoTrace | commerce/server/rate-limit.ts:38-51 | deleting all rejected calls of a run of one rate, capacities varying, changes no other call's admission, in the run or after it |
| RateLimit.RejectionUnnoticedIff | commerce/server/rate-limit.ts:38-51 | a rejection goes unnoticed by all later calls of a rate exactly if it had that rate, or came at the bucket's own time |
| RateLimit.TwoRatesLeaveATrace | commerce/server/rate-limit.ts:86-131 | for any two rates on one key, the lower below 1000 a second, there is a bucket from which a rejected call of the lower costs a call of the higher its admission |
| RateLimit.FaucetInterferesIff | commerce/server/rate-limit.ts:86-131 | the faucet and the create routes, which share a key, can cost each other calls exactly if the create rate is below 1 or above 5 |
| RateLimit.KeysAreIndependent | commerce/server/rate-limit.ts:13-51 | each key's bucket is what its own calls make of it |
| NonceWindow.BundlerGate.ConsumeBundlerNonce | commerce/server/db.ts:2744-2755 | expired nonces go, and an unspent one is stored with its lifetime |
| NonceWindow.BundlerGate.RequireBundler | commerce/server/bundler-auth.ts:13-48 | the order of the checks and the nonce table each outcome leaves |
| NonceWindow.NonceStays | commerce/server/db.ts:2744-2755 | nothing that arrives before its expiry removes or shortens a stored nonce |
| NonceWindow.NoReplay | commerce/server/bundler-auth.ts:28-35 | with a lifetime of at least twice the skew no signed request is accepted twice, whatever else arrives |
| NonceWindow.ShortLifetimeReplays | commerce/server/bundler-auth.ts:28-35 | with any shorter lifetime there is a run that accepts one twice |
| NonceWindow.ShippedWindowHasNoReplay | commerce/server/bundler-auth.ts:6-7 | the shipped constants, five and ten minutes, admit no replay |
| NonceWindow.GrantedIff | commerce/server/bundler-auth.ts:13-48 | over every run from the empty table each verdict: granted exactly if registered, signed, in its window, and the nonce not spent by an earlier arrival within the lifetime; which of the four denials otherwise |
| NonceWindow.UnsignedSpends | commerce/server/bundler-auth.ts:36-46 | an arrival with a bad signature spends its nonce all the same |
| NonceWindow.MessageDeterminesRequest | commerce/server/bundler-auth.ts:54-69 | one signed message belongs to one method, path, body hash, timestamp and nonce |
| Es256.BigIntToBytes32 | commerce/shared/webauthn-signature.ts:93-101 | the loop gives the 32 bytes of the value modulo 2^256, also for negative values |
| Es256.Pad32InPlace | commerce/shared/webauthn-signature.ts:103-109 | copying to the end of a zeroed buffer is left-padding; 33 bytes with a leading zero lose that zero, and any other over-long input throws |
| Es256.ParseEs256 | commerce/shared/webauthn-verify.ts:144-166 | the verifier's parser, with every way to reject |
| Es256.ParseEs256Signature | commerce/shared/webauthn-signature.ts:68-91 | the encoder's parser: the same with s lowered |
| Es256.DerFields | commerce/shared/webauthn-verify.ts:151-165 | the DER branch reads r and s of every DER signature as 32 bytes |
| Es256.DerAcceptsIff | commerce/shared/webauthn-verify.ts:144-166 | the DER branch gives two values exactly to the bytes with tag, any length, an integer in full and a second tag, whose two integers fit and have these values; bytes missing from the second integer or following it do not matter |
| Es256.SixtyFourIsMisread | commerce/shared/webauthn-verify.ts:145-150 | no DER form of 64 bytes is read right |
| Es256.SixtyFourStaysMisread | commerce/shared/webauthn-signature.ts:68-91 | lowering the s of a misread DER form never repairs it |
| Es256.BothFormsParseIff | commerce/shared/webauthn-verify.ts:144-174 | for all r and s the raw form gives their 32 bytes, and the DER form gives the same exactly if it is not 64 bytes long |
| Es256.SixtyFourExists | commerce/shared/webauthn-verify.ts:145 | a signature whose DER form is 64 bytes long |
| Es256.LowSIsMin | commerce/shared/webauthn-signature.ts:45-91 | the lowered s is the lesser of s and n - s, at most (n - 1) / 2 and never zero |
| Es256.EncoderParses | commerce/shared/webauthn-signature.ts:68-91 | the encoder gives r and the lesser of s and n - s from the raw form of either twin, and from the DER form exactly if that is not 64 bytes long |
| UrlEncoded.Utf8ReadsBack | commerce/shared/invoice.ts:14-20 | decoding UTF-8 undoes encoding it, for every string |
| UrlEncoded.ByteText | commerce/shared/invoice.ts:88-112 | which bytes stand for themselves in form-urlencoded text, space as plus, and the others as a percent sign and two upper-case digits |
| UrlEncoded.HexReadsEitherCase | commerce/shared/invoice.ts:14-20 | percent-decoding reads hexadecimal digits in either case |
| UrlEncoded.GetAfterSet | commerce/shared/invoice.ts:88-112 | `get` after `set` gives the value set, or what was there under another name |
| UrlEncoded.TextReadsBack | commerce/shared/invoice.ts:14-112 | every list of parameters reads back from its text |
| PayLink.EncodePayLink | commerce/shared/invoice.ts:88-112 | the stepwise filling of the parameters and their text |
| PayLink.GetByText | commerce/shared/invoice.ts:189-200 | looking a parameter up by its text finds what looking up its name finds |
| PayLink.RefusedByText | commerce/shared/invoice.ts:35-40 | a link is refused for its mode exactly if that is none of the three, and else for its price exactly if that is blank |
| PayLink.TextsByText | commerce/shared/invoice.ts:35-80 | which parameter each text field of a decoded link is read from; an alias counts only where the name itself is absent or blank |
| PayLink.ChangedByText | commerce/shared/invoice.ts:14-80 | the same for the fields whose case is changed, the slippage and the lists |
| PayLink.TextsOfNames | commerce/shared/invoice.ts:35-84 | the texts of the parameter names |
| PayLink.ListReadsBack | commerce/shared/invoice.ts:182-187 | joining and splitting a list of trimmed entries without commas gives it back, the empty list included |
| PayLink.DecodedListsAreTidy | commerce/shared/invoice.ts:21-47 | decoded lists have trimmed entries without commas, normalised addresses and upper-case tokens |
| PayLink.Defaults | commerce/shared/invoice.ts:11-47 | a link without chains, tokens, mode or partial flag means USDC on chain 11155111, crypto only, paid at once |
| PayLink.EncodedLooks | commerce/shared/invoice.ts:88-112 | encoding writes each field under its name and nothing else |
| PayLink.EncodedDecodes | commerce/shared/invoice.ts:14-112 | tidy fields come back without the seed and with the slippage rounded |
| PayLink.LinkReadsBackIff | commerce/shared/invoice.ts:14-112 | for all fields decoding can produce, the link decodes to the same fields without the seed exactly if the slippage is absent or an integer |
| FeeBatch.TotalOut | commerce/bundler/worker.ts:156-166 | the loop adds the fee and every further transfer of the fee token |
| FeeBatch.AcceptedIff | commerce/shared/userop-fee.ts:83-114 | a batch is accepted exactly if its first call moves at least the minimum of the fee token to the beneficiary; the other calls are the wallet's own |
| FeeBatch.RefusedBecause | commerce/shared/userop-fee.ts:83-114 | which reason a refused batch is given |
| FeeBatch.TotalIsAllSent | commerce/shared/userop-fee.ts:83-114 | for an accepted batch that is the sum of all its fee-token transfers, and the beneficiary gets at least the minimum |
| FeeBatch.CoveredBatchExecutes | commerce/bundler/worker.ts:156-175 | a wallet that has the total pays every transfer in order, and every account ends with what it had, less sent, plus received |
| FeeBatch.ExecutedBatchWasCovered | commerce/bundler/worker.ts:167-175 | a batch that executes without paying the wallet itself was covered |
| FeeBatch.AcceptedBatchIsSolvent | commerce/bundler/worker.ts:129-175 | an accepted batch from a covered wallet never overdraws it and pays the beneficiary its minimum |
| FeeBatch.BalanceTestIsExact | commerce/bundler/worker.ts:167-175 | for a wallet that does not pay itself the balance test holds exactly if the batch executes |
| FeeBatch.SentIsReportedPlusFees | commerce/shared/wallet-transfers.ts:24-62 | the fee token sent is the sum of the reported outgoing transfers and what went to the beneficiary |
| FeeBatch.FeeTokenIsTracked | commerce/server/wallet-transfer-sync.ts:49-66 | a configured fee token is always among the tracked stables |
| Amounts.FormatParses | commerce/shared/userop.ts:386-409 | reading what was formatted gives the amount back, for all amounts and decimals |
| Amounts.ParsedValueIsExact | commerce/shared/userop.ts:398-409 | the value read is the digits without the point, scaled by the places not given |
| Amounts.FormatIsCanonical | commerce/shared/userop.ts:386-392 | formatted text has no superfluous zeros or spaces |
| Amounts.FormatUndoesParseIff | commerce/shared/userop.ts:386-409 | formatting what was read gives the text back exactly if it has no superfluous zeros or spaces |

## Left out

- BundlerProtocol.IncludedIsFinal: assumes distinct bundler addresses, and no attempt executed after its worker has moved on; one user operation, as rows do not interact.
- InvoiceReplay.ReplayIsTheLastPersistedRow: terms are compared as a whole; their normalisation at creation and event-history rows are not modelled.
- WalletReplay.ReplayAgreesWithTables: for non-empty identifiers, device-key parts without bars, and identity ids that are not the empty text; credential ids are not part of the agreement, as live rules and events differ there, which three lemmas make exact; entities and entity keys but for their keys, emails and identities are left out.
- PersistLog.Stream.AppendSync: up to 999999 segments; a crash inside sealing, precision loss of `Number` on longer names, and file-system errors are not modelled.
- Scanner.SweepNode.ScanEvmPaidLogs: overlap and chunk at least 1, and no reorganisation below the confirmed head.
- Scanner.SweepNode.Life: one scan after the other; scans that interleave are in `SweepTicks`, on values, as a class cannot be suspended at an await.
- Scanner.SweepNode.UpsertPaidLogs: chain and token metadata of a paid row other than block, index, token, amount, forwarder and hash.
- ExplorerSync.TransferSync.SyncWalletTransfers: one wallet and chain; the module-level queue, the in-flight set and the fetch interval are not modelled, and non-numeric block numbers do not occur.
- ExplorerTicks.ThrowingRowStopsForGood: the explorer lists the rows of one transaction in the order of their log positions; without that order it is false, by `ExplorerOrder.OutOfOrderCanRecover`.
- TransferLedger.EitherOrderIff: for drafts of which the explorer's has the higher block, as drafts of the server have block 0.
- WalletTransfers.OriginsAgreeIff: addresses of 20 bytes in hexadecimal; ICAP addresses and `createdAt` are not modelled.
- RecoveryRequests.RunKeeps: the one-time code, the WebAuthn challenge and assertion, and the lookup of identity wallets are flags; `operatorPayload`, device registration and identity-method indexing are left out.
- RateLimit.WindowBound: tokens are reals instead of doubles; a clock that goes back is not modelled.
- NonceWindow.NoReplay: keccak, signature recovery and the registration table are given by the request.
- Es256.BothFormsParseIff: base64 and hexadecimal wrapping, client data and ABI encoding of the assertion.
- FeeBatch.AcceptedBatchIsSolvent: calls to other contracts neither revert nor move the fee token; gas, prefund and `validateSendUserOp` are left out.
- FeeBatch.FeeTokenIsTracked: the fee symbol is taken as already trimmed and in upper case.
- PayLink.LinkReadsBackIff: upper and lower case change ASCII letters only; `Number` and `String` are given on integers; `normalizePayLinkFields` and invoice resume links are left out.
- Amounts.FormatParses: non-negative amounts.
- BundlerWorker as a class: the worker is a state machine, because its runs interleave with others at every await.
- Chain RPC, HTTP routing, cookies, captcha, email sending, OAuth, faucet, deploy scripts and UI: input and output.
- Tron and Solana sweeping, `checkAndSweep`, `syncInvoices` and the sweep-attempt table: network calls with little logic of their own.
- Restoring wallets into a database, row mappers, schema migration, configuration, `resolveRateLimit`, `packUint128Pair`, `estimateUserOpPrefund` and the batch builders: easy members.

# Verified model of the SmartMonitor backend

A Dafny model of the stateful parts of a backend that serves connected energy
meters: the transfer of a device from one owner to the next, the recovery of
measurements buffered by a device, the daily summaries derived from stored
measurements, the energy arithmetic of the history, and five small stores whose
answers depend on time. `dafny verify dfyconfig.toml` checks the project.

## How it is built

Rows and messages are datatypes. What the program updates in place is a class;
each of its methods is proved equal to a function on the old contents, and the
laws are lemmas about those functions, about every run of them, or about ghost
logs that remember everything that ever happened. What each answer means is
stated once more without those functions, from the rows, the readings or the
calls of the run alone (`TransferProvenance`, `TransferAnswers`,
`TransferWindows`, `HistoryOrigins`, `SummaryPlain`, `ConsumptionPlain`,
`ClaimProofLaws`, `AlarmRows`).

| files | what they hold |
|---|---|
| `TransferModel`, `TransferTables` | one device's rows; every transaction of the ownership transfer, as a function and as a method |
| `TransferSafety`, `TransferArchive` | the invariant of every run, the law of ownership, the former owners' archive and who can read what |
| `TransferProvenance`, `TransferAnswers` | where every transfer of a run comes from; when each call is accepted and what it writes, from the rows alone |
| `TransferWindows` | what the history routes grant and list, instant by instant |
| `TransferCalls`, `TransferRuns` | what the guard, attestations and receipts are worth to their callers; runs that reach the protocol's edges |
| `DailySummary`, `History`, `HistoryStore` | readings, calendar days, daily aggregates, the import of recovered pages, the services that write them |
| `HistorySystem`, `HistoryImport`, `HistoryWriters`, `HistorySteps`, `HistoryOrigins`, `HistoryLaws`, `HistoryRuns` | runs of device, network, recovery worker, live storage, summariser and retention together, where every stored value comes from, what runs guarantee, and the service spoiling a summary |
| `Recovery`, `RecoveryQueue` | one bounded recovery run against a device, repeated runs, and the queue of devices |
| `SummaryPlain` | what a daily summary says, in terms of the day's readings |
| `Consumption`, `ConsumptionLaws`, `ConsumptionPlain`, `EnergyAgreement`, `Resolution` | energy of a period, how it splits and adds up, its agreement with the daily summary, the choice of a resolution |
| `Spans`, `RateLimiter`, `ClaimProofStore`, `ClaimProofLaws`, `EmailVerification` | limits over time, and what a claim proof may do at an instant |
| `Alarms`, `AlarmLaws`, `AlarmRows`, `LiveState` | alarm occurrences and the rows behind them, live values |

Instants are integers, in microseconds, the precision of a stored timestamp;
`RateLimiter` and `EmailVerification` use real seconds. Counter values are
reals, and a value that is missing or not finite is a case of its own.

## What was found

- The archive's chain check holds in every run only because time moves strictly
  between committed transactions. `stage_verified_transfer` takes its timestamp
  before it waits for the device row, and never compares it with the last
  cutover: a transfer staged with any stamp ends in an "inconsistent" archive
  exactly when the stamp is no later than that cutover
  (`StaleStampBreaksTheArchive`). `StaleStampRun` is such a run: two requests
  each wait for their lock until another call has committed.
- A worker's receipt is judged against the time at which that worker began. At
  the commit it is at most two minutes old exactly when the worker began no more
  than two minutes before (`ReceiptIsFreshIff`), and no age is refused
  (`ReceiptOfAnyAgeIsAccepted`).
- A reading of the first epoch dated before the device was created is stored and
  shown, and no route shows it after the first transfer (`EarlyReadingIsOrphaned`);
  dated between creation and storage it stays reachable
  (`WellDatedReadingsAreReachable`).
- A live reading stored for an earlier day leaves that day's summary wrong
  exactly when the day had one (`LateLiveReadingAgreesIff`). It happens when an
  import has summarised the day before a delayed message of it arrives
  (`LateReadingSpoilsItsSummary`).
- Cutting a period can count more than the whole: the first difference after a
  decrease is excluded inside a period, but not across its start
  (`CutNeverCountsLess`).
- `docs/SM-035_MODELE_DONNEES_AGREGATION.md` line 35 calls the daily end value
  the last one; the code keeps the greatest, and it also accepts negative
  values, which the detailed history rejects. The model follows the code.
- Before a reserved claim proof expires, and unless its holder releases or
  commits it, a second reservation of it is possible exactly when the device had
  another proof admitted and then the first one again (`SecondReservationIff`;
  `ReregisteredProofIsReservedAgain` is such a run). The holder itself can commit
  exactly as long as no other proof was admitted (`HolderCanCommitIff`).
- A snapshot of alarms that reports an activation already closed or superseded
  is rejected as a whole (`RejectedIff`).
- Both fixed windows of the e-mail verification let nine events into one span of
  their own length, not five. Nine wrong codes and nine messages are reached
  (`NineFailuresAreReached`, `NineMessagesAreReached`); a span holds more than
  five only if a new window starts inside it, after one that reaches into it
  (`MoreThanFiveNeedsNewWindow`).
- Periods of more than 14 400 and up to 17 700 seconds, and those of up to 3540,
  have no resolution giving 60 to 120 points (`FittingResolutionExists`); the
  worst case is 148 points (`OneHundredFortyEightIsReached`).

## Model

| member | source | states |
|---|---|---|
| TransferTables.Tables.IssueChallenge | app/device_transfer_store.py:65-113 | a challenge is recorded exactly when the device exists, nothing is pending, no challenge is live and the id and digest are new; every refusal, with its reason, leaves the rows unchanged |
| TransferAnswers.IssueIsAcceptedIff | app/device_transfer_store.py:65-113 | in every reachable state a challenge is issued if and only if nothing is pending, every unspent challenge is two minutes old and its name and digest are new; it then lives two minutes and nothing else changes |
| TransferTables.Tables.Stage | app/device_transfer_store.py:116-252 | one transaction consumes the challenge, adds the pending transfer with its one-minute delay and notifies the owner, or refuses for the first failing check and writes nothing; what an accepted request had to prove is EveryTransferWasProven and RequestIsAcceptedIff |
| TransferProvenance.EveryTransferWasProven | app/device_transfer_store.py:176-245 | in every run each transfer row comes from exactly one accepted request, whose reset proof was valid for a challenge issued by an earlier call with the same digest, to anyone or to the same recipient, less than two minutes before; the row has that request's recipient, challenge, generation and time, and the owner of that moment; and every accepted request has its row |
| TransferProvenance.RequestIsAcceptedIff | app/device_transfer_store.py:136-216 | after any run a request is accepted if and only if it is proven by the calls of the run, and the rows have no pending transfer, only lower generations, no use of its challenge, and a verified recipient who is not the owner |
| TransferProvenance.ChallengeIsUsedOnce | app/device_transfer_store.py:176-245 | in every run two accepted requests never name the same challenge |
| TransferAnswers.RequestWrites | app/device_transfer_store.py:218-245 | an accepted request adds one pending row due a minute later, spends its challenge, notifies the owner, and changes nothing else |
| TransferTables.Tables.Complete | app/device_transfer_finalizer.py:60-221 | the switch happens only after delay, receipt, live verification, owner and recipient checks in that order; the retry of a completed transfer succeeds without writing |
| TransferAnswers.SwitchHappensIff | app/device_transfer_finalizer.py:98-156 | in every reachable state the finalizer changes the rows if and only if the last row has been pending for its minute, its receipt is of the device as routed now, not blank and at most two minutes old, the broker confirms and the recipient may own; and then it switches the owner |
| TransferAnswers.RetryIsAcceptedIff | app/device_transfer_finalizer.py:98-117 | a completed transfer is answered again without a write, and accepted exactly while its recipient owns the device and its former owner has no access |
| TransferTables.Tables.SwitchOwner | app/device_transfer_finalizer.py:157-221 | memberships become the new owner alone, device and channel names and alarm rules go, the row is completed and both accounts are notified, all at once |
| TransferCalls.TicketDetectsChange | app/device_transfer_broker_worker.py:57-113 | an attestation is never early, and its ticket is refused as changed exactly when the pending row, the device or its routing identity are no longer what the worker saw |
| TransferTables.Tables.BeginAttestation | app/device_transfer_broker_worker.py:57-95 | the unlocked half reads only, and refuses for the first failing check; when it yields a ticket is AttestationIff |
| TransferAnswers.AttestationIff | app/device_transfer_broker_worker.py:57-95 | a worker gets a ticket if and only if the row has been pending for its minute, the device is routed and the broker's answer is one trimmed line of at most 128 characters; the ticket has the rows' identities, that answer and the worker's start |
| TransferCalls.AttestedTicketCommits | app/device_transfer_broker_worker.py:57-128 | on the rows its worker saw, a ticket switches the owner exactly when the broker still verifies, the new owner is eligible and the reference is unused: delay and receipt never fail |
| TransferCalls.ReceiptIsFreshIff | app/device_transfer_broker_worker.py:114-125 | behind a switch, the receipt is at most two minutes old at the commit if and only if the worker began at most two minutes before |
| TransferRuns.ReceiptOfAnyAgeIsAccepted | app/device_transfer_finalizer.py:118-156 | for every age there is a run whose last step switches the owner on a receipt of that age |
| TransferTables.Tables.CommitAttestation | app/device_transfer_broker_worker.py:96-128 | the locked half rechecks the ticket against current rows; a refused completion takes the receipt back with it |
| TransferAnswers.CommitWrites | app/device_transfer_broker_worker.py:96-128 | an accepted commit leaves the ticket's receipt, dated when its worker began, and dates the switch by it |
| TransferTables.Tables.Claim | app/devices.py:795-1072 | a claim makes the caller owner of a free device, refreshes his own, adds missing channels, and is refused during a transfer or to anyone else |
| TransferAnswers.ClaimIsAcceptedIff | app/devices.py:795-1072 | in every reachable state a claim is accepted if and only if the account is verified, the routing identity is free, and the device is new or the caller's own outside a transfer |
| TransferAnswers.ClaimWrites | app/devices.py:930-1072 | an accepted claim makes the caller owner, keeps every other member, every name and the creation date, and leaves the four channels present |
| TransferTables.Tables.Invite | app/devices.py:1246-1335 | only the owner the transfer guard lets through invites an eligible account that is not yet a member, up to ten |
| TransferAnswers.InviteIsAcceptedIff | app/devices.py:1246-1335 | in every reachable state an invitation is accepted if and only if it comes from the present owner outside a transfer, for a verified account that is no member, with fewer than ten invited; it adds that member and changes nothing else |
| TransferTables.Tables.Dismiss | app/devices.py:1342-1384 | only that owner removes an invited member, and never an owner |
| TransferAnswers.DismissIsAcceptedIff | app/devices.py:1342-1384 | a dismissal is accepted if and only if it comes from the present owner outside a transfer, for an invited member; it removes that member and nothing else |
| TransferTables.Tables.ResolveEpoch | app/measurement_ownership.py:37-82 | the epoch of a new reading is the latest completed transfer and the present owner, and there is none during a transfer |
| TransferTables.Tables.Store | app/measurement_ownership.py:85-118 | a reading is stored once with its owner and epoch, never dated before the cutover that began the epoch |
| TransferAnswers.StoreIsAcceptedIff | app/measurement_ownership.py:37-118 | in every reachable state a reading is stored if and only if the device is active and outside a transfer, the channel known, and its date free and no earlier than any cutover; it is attributed to the present owner and the last transfer |
| TransferCalls.AccessIsExact | app/device_transfer_guard.py:47-79 | in every reachable state the guard lets nobody through during a transfer, and after one exactly the present owner |
| TransferCalls.OwnerPassesUnlessFrozen | app/device_transfer_guard.py:62-79 | the owner is stopped by a pending transfer and by nothing else |
| TransferCalls.MembersStayWithinLimit | app/devices.py:1296-1335 | in every run a device has at most ten invited members |
| TransferSafety.EveryRunIsSafe | app/device_transfer_store.py:136-245 | the invariant of chain, ownership, challenges and attributions holds after every run of transactions, with any interleaving of workers |
| TransferSafety.AtMostOneOfEach | app/device_transfer_store.py:75-100 | at any time one owner, at most one pending transfer, the last row, and at most one challenge alive at any later instant |
| TransferSafety.StagedRowsAreDistinct | app/device_transfer_store.py:176-245 | reset generations and request times strictly increase in staging order, and no challenge backs two transfers |
| TransferSafety.RefusalChangesNothing | app/device_transfer_finalizer.py:98-117 | every refused call, and every retry of a completed transfer, leaves all rows as they were; the rollback that achieves it is the contract of TransferTables.Tables.CommitAttestation |
| TransferSafety.OwnershipLaw | app/device_transfer_finalizer.py:95-221 | no step moves ownership except a lawful completion: of the pending transfer, at its deadline or later, with a receipt dated between the request and the worker's clock and at most two minutes old then |
| TransferSafety.SwitchesAreCompletions | app/device_transfer_broker_worker.py:57-128 | over any run owners change exactly as often as transfers complete, so each transfer switches at most once, and completed rows are never rewritten |
| TransferArchive.CompletedOwnershipEpochs | app/device_transfer_archive.py:55-97 | the loop accepts exactly the chains in which each row follows the one before, and returns each epoch from the last cutover to the next request |
| TransferArchive.FormerOwnerWindow | app/device_transfer_archive.py:100-122 | the loop over the epochs returns the one overlap of the period with the caller's epochs, or no archive when there is none or more than one; what that overlap is, is FormerWindowIsExact |
| TransferWindows.FormerWindowIsExact | app/device_transfer_archive.py:100-122 | in every reachable state and for every period, a window is granted if and only if exactly one past ownership of the caller shares an instant with the period; its instants are exactly the shared ones and it names that ownership's transfer; otherwise there is no archive |
| TransferWindows.TwoPastOwnershipsAreRefused | app/device_transfer_archive.py:119-121 | a period that shares instants with two past ownerships of the caller is refused |
| TransferWindows.CurrentPeriodIsExact | app/device_transfer_guard.py:82-124 | a present member is granted exactly the instants of the period after every cutover and before a pending request, if there are any, and after a transfer only if he is the owner |
| TransferArchive.ListArchives | app/device_transfer_archive.py:123-175 | the caller's own past epochs, with the channels that hold readings of each, latest end first |
| TransferWindows.ArchiveListIsExact | app/device_transfer_archive.py:123-175 | every past ownership of the caller is listed once, with its bounds and exactly the channels that hold readings of it, in strictly decreasing order of end, and nothing else is listed |
| TransferArchive.ArchiveNeverInconsistent | app/device_transfer_archive.py:74-97 | after every run the archive is served if some transfer completed and absent otherwise; the inconsistent answer is unreachable |
| TransferArchive.ChainEndsAtTheOwner | app/device_transfer_archive.py:92-97 | the present owner is the new owner of the last completed transfer, through a freeze too |
| TransferArchive.ConsistentIffRequestedLater | app/device_transfer_archive.py:80-91 | one more completed row keeps the chain consistent if and only if its request comes strictly after the last cutover |
| TransferArchive.StaleStampBreaksTheArchive | app/device_transfer_store.py:135-160 | staged with any stamp that staging accepts, attested and committed, a transfer makes the archive answer "inconsistent" if and only if its stamp is no later than the last cutover |
| TransferRuns.StaleStampRun | app/device_transfer_store.py:135-160 | seven accepted calls, committed one after another and two of them stamped before they waited, end in an inconsistent archive |
| TransferArchive.InstantHasOneEpoch | app/device_transfer_archive.py:74-97 | windows of different epochs share no instant, nor do windows and the freezes between them |
| TransferArchive.FreezesAreDisjoint | app/device_transfer_guard.py:22-31 | no instant lies in the freezes of two transfers, the one still pending included |
| TransferArchive.ListedPeriodIsGranted | app/device_transfer_archive.py:123-175 | each listed archive period, asked for as listed, is granted as listed |
| TransferArchive.CurrentRouteIsExact | app/devices.py:1673-1741 | the history route shows its caller exactly his readings of the current epoch that lie in its window |
| TransferArchive.ArchiveRouteIsExact | app/device_transfer_archive.py:189-241 | the archive route shows its caller exactly his readings of past epochs that lie in their windows |
| TransferArchive.ExactlyOneRoute | app/device_transfer_guard.py:82-124 | a reading in its epoch's window is reachable by its owner through exactly one of the two routes, and by nobody else |
| TransferArchive.WellDatedReadingsAreReachable | app/measurement_ownership.py:85-95 | a reading dated between the device's creation and its storage always lies in its window, so it is never orphaned |
| TransferRuns.EarlyReadingIsOrphaned | app/measurement_ownership.py:85-95 | a reading dated before its device is stored and shown to its owner, and no route shows it to anyone once the device changed hands |
| HistoryStore.Repository.PersistPage | app/local_history_recovery.py:196-373 | a page is stored whole or not at all; a known sequence adds nothing, a new one adds its ledger row, one reading per channel unless that date has one, and rebuilds the completed days it touches; the count returned is that of the ledger's new rows |
| HistoryOrigins.PageIsStoredVerbatim | app/local_history_recovery.py:303-341 | after an accepted page, each new record has for each of its channels a reading of its date with its energy, power, voltage, current, frequency and power factor, unless a reading or an earlier new record had that date; what was stored is unchanged, and nothing else is stored |
| HistoryOrigins.EveryReadingHasAnOrigin | app/local_history_recovery.py:303-341 | in every run each stored reading is, value by value, that of a live message of the run or of a ledger row |
| HistoryStore.Repository.PersistLive | app/mqtt_client.py:1225-1400 | a live reading is skipped, a duplicate or saved; a saved one triggers the daily check once per local day |
| HistoryStore.Repository.CheckDay | app/mqtt_client.py:1345-1440 | on the first reading of a day every earlier day with readings gets its summary, then old rows go |
| HistoryStore.Repository.SummarizeCompletedDays | app/power_daily_summary.py:259-374 | existing summaries stay, and exactly the past days with readings and no summary get one, equal to the aggregate of their readings, whose figures StoredSummaryIsTrue states |
| HistoryStore.Repository.RebuildCompletedDay | app/power_daily_summary.py:377-422 | a completed day's summary is replaced by the aggregate of its readings, or removed if none is left; other days are unchanged |
| HistoryStore.Repository.Cleanup | app/data_retention.py:20-90 | exactly the readings of the last 90 days and the summaries of the last 365 local days remain, unchanged and in order |
| History.ReplayChangesNothing | app/local_history_recovery.py:303-327 | persisting again a page already persisted, on any later day, changes no row at all |
| History.ImportFillsTheLedger | app/local_history_recovery.py:303-327 | after an import every record of it is in the ledger, earlier rows are unchanged, and nothing else was added |
| HistoryLaws.RecoveryLosesNothing | app/local_history_recovery.py:556-603 | in every run, whatever is lost, repeated or stopped, a record the device has discarded is in the ledger unchanged, with a stored reading for each of its channels until retention reaches it; that reading has the record's values, unless a live message or another record supplied the reading of that date |
| HistoryLaws.LedgerHoldsOnlyRecords | app/local_history_recovery.py:303-327 | in every run each ledger row is the one record of the device with that number |
| HistoryLaws.RunForgetsNothing | app/local_history_recovery.py:556-603 | along any run ledger rows are never changed or removed, and the device's acknowledged number never goes back |
| HistoryLaws.SummariesMatchTheirReadings | app/power_daily_summary.py:259-422 | in every run of live stores, imports, summarising and retention, a stored summary of a day no deletion reached is the aggregate of its stored readings |
| HistoryLaws.StoredSummaryIsTrue | app/power_daily_summary.py:65-256 | in every run a stored summary of an untouched day gives the number of its stored readings, their first and last dates, for each metric the attained bounds and the mean of its finite values if there are any, and the first and greatest energy values, their difference known exactly when a later value reaches the first |
| HistoryLaws.WalkLeavesNoGap | app/power_daily_summary.py:259-374 | in every run, a walk of the summariser that reached the day it began on leaves no earlier day with readings unsummarised, whatever was stored, imported and deleted between its steps |
| HistoryLaws.DayCheckIsComplete | app/power_daily_summary.py:259-374 | after a daily check that nothing interrupts, agreement still holds and no past day with readings lacks a summary |
| HistoryLaws.LateLiveReadingAgreesIff | app/mqtt_client.py:1285-1330 | a live reading keeps its day's agreement if and only if that day has no summary yet |
| HistoryRuns.LateReadingSpoilsItsSummary | app/mqtt_client.py:1275-1345 | a record is imported the day after, a live reading of the same day arrives later and is saved, and the stored summary is no longer that of the day's readings |
| History.SummariesOutliveReadings | app/data_retention.py:36-66 | retention never deletes the summary of a day whose readings it keeps whole, clock changes included |
| HistorySystem.PageIsGapless | app/local_history_recovery.py:556-603 | a page of the device leaves out no record between its cursor and its last number |
| Recovery.ParseHistoryPage | app/local_history_recovery.py:79-141 | accepts exactly the replies that hold at most two numbered records rising strictly from the cursor, a cursor at the last of them and honest flags, and returns those records |
| Recovery.Recover | app/local_history_recovery.py:556-620 | whatever is lost, only stored records are discarded and cursors strictly rise; when nothing is lost the run discards the storable backlog up to 512 records, and succeeds exactly when that empties the device |
| Recovery.RecoverRepeatedly | app/local_history_recovery.py:517-620 | whatever finite number of commands fail, repeated runs empty any storable backlog, every record stored and every cursor above the one before, in at most one run per block of 512 and one per fault |
| Recovery.RunsNeeded | app/local_history_recovery.py:40-40 | the number of runs is the least whose 512-record capacity covers the backlog |
| Recovery.WholeBacklogIsStorable | app/local_history_recovery.py:556-603 | a backlog of storable records is storable to its end, page by page |
| RecoveryQueue.Coordinator.Schedule | app/local_history_recovery.py:427-515 | a device is queued exactly when its report is readable and new, it is neither waiting nor running nor paused, and the queue has room |
| RecoveryQueue.Coordinator.TakeNext | app/local_history_recovery.py:517-531 | the oldest request runs, still counted as pending, so that no device runs twice at once |
| RecoveryQueue.Coordinator.Finish | app/local_history_recovery.py:531-554 | success records the marker and lifts the pause, failure pauses the device for 30 seconds |
| DailySummary.EnergySummary | app/power_daily_summary.py:113-156 | start is the first finite value, end the greatest, consumption their difference once two values were accepted, and drops below an earlier value are counted |
| SummaryPlain.SummaryMeans | app/power_daily_summary.py:65-256 | what the aggregate of any day says, metric by metric, in terms of the day's readings alone |
| SummaryPlain.EnergyDescribes | app/power_daily_summary.py:113-156 | with drops or without, the consumption is the greatest value minus the first, and it is known if and only if some later value is no lower than the first |
| DailySummary.AverageIsBetween | app/power_daily_summary.py:90-110 | the average of a day lies between its minimum and its maximum |
| DailySummary.InsertBetween | app/power_daily_summary.py:303-325 | a new reading changes only the days, or any other range, that contain its date |
| DailySummary.PurgeBetween | app/data_retention.py:48-57 | deleting before a cutoff leaves every range from the cutoff on as it was |
| Consumption.ConsumptionBuckets | app/energy_consumption.py:7-67 | a bucket is opened exactly for each grid point of the resolution whose span has a sample; every bucket equals the sum of its trusted deltas, partial flags mark exactly the buckets with a flawed sample or the late end, and the period flag says whether any is |
| Consumption.BucketContains | app/energy_consumption.py:31-33 | a sample lies inside the bucket it is assigned to |
| Consumption.BucketIsTheSpan | app/energy_consumption.py:26-35 | a sample's bucket is the only start, a whole number of resolutions after the period's, whose span contains it |
| Consumption.BucketsAreTheGrid | app/energy_consumption.py:26-35 | the buckets of a period are exactly the grid points whose span has a sample of it |
| ConsumptionLaws.BucketsSumToTotal | app/history_service.py:477-490 | the known buckets add up to the declarative sum of continuous, non-decreasing deltas not preceded by a decrease |
| ConsumptionPlain.BucketTotalIsRises | app/energy_consumption.py:36-60 | a bucket's energy is the sum, over the readings in its span, of the rise from the reading before, when both are numbers, not negative, close enough and not preceded by a fall |
| ConsumptionPlain.CompleteIff | app/energy_consumption.py:36-67 | a period is unflagged if and only if it has readings, each rises from the one before or the baseline, and the last is close enough to its end |
| ConsumptionLaws.KnownIffCounted | app/energy_consumption.py:34-35 | a bucket is known exactly when one of its samples brings a trusted delta, and then it is not negative |
| ConsumptionLaws.SameForEveryResolution | app/history_service.py:468-490 | the total of a period is the same for every resolution |
| ConsumptionLaws.CompletePeriodIsExact | app/energy_consumption.py:36-67 | a period not flagged partial equals its last reading minus the baseline |
| ConsumptionLaws.CutNeverCountsLess | app/history_service.py:452-477 | cut anywhere, the parts count at least the whole, exactly the same unless the last reading before the cut is a decrease, and then exceed it by at most the first delta after the cut |
| EnergyAgreement.DetailedIsAtMostDaily | app/power_daily_summary.py:113-156 | on a day whose valid readings never decrease, the detailed total without baseline is at most the daily consumption |
| EnergyAgreement.UnbrokenDayAgrees | app/power_daily_summary.py:113-156 | with at least two readings, none missing and no gap beyond the limit, the two are equal |
| Resolution.ChooseHistoryResolutionSeconds | app/history_service.py:32-85 | the chosen resolution is closest to the target, then finest, among those in range, or among all when none is |
| Resolution.FittingResolutionExists | app/measurement_contract.py:36-49 | some resolution gives 60 to 120 points if and only if the span is in (3540 s, 14 400 s] or (17 700 s, 120 days] |
| Resolution.ChoiceFitsIff | app/history_service.py:66-85 | the choice gives 60 to 120 points exactly for those spans |
| Resolution.NeverMoreThan148 | app/history_service.py:32-85 | for spans up to 90 days and targets of 60 to 120, at most 148 points |
| Resolution.OneHundredFortyEightIsReached | app/history_service.py:32-85 | 17 700 seconds with a target of 120 give 148 points |
| RateLimiter.InMemoryRateLimiter.Check | app/rate_limit.py:23-67 | admits exactly when fewer than `limit` of all admissions ever made fall in the window, keeps exactly those, and on refusal returns the least whole number of seconds after which the key is admitted |
| RateLimiter.InMemoryRateLimiter.CleanupIfNeeded | app/rate_limit.py:69-98 | the sweep never removes an admission still in a window |
| RateLimiter.Decide | app/rate_limit.py:40-67 | the decision taken on the pruned deque is the one the full history calls for |
| RateLimiter.Prune | app/rate_limit.py:45-49 | removing from the front leaves exactly the admissions after the cutoff |
| RateLimiter.RefusedWhileFull | app/rate_limit.py:51-60 | a full window refuses after d seconds if and only if its oldest admission is still inside |
| RateLimiter.NoWindowExceedsTheLimit | app/rate_limit.py:23-67 | no half-open span of the window's length ever holds more than `limit` admissions of a key |
| Spans.NoSpanHoldsMore | app/rate_limit.py:40-67 | entries n apart that are at least a width apart in time never crowd more than n into a span of that width |
| ClaimProofStore.ProofStore.RegisterProof | app/claim_proof_store.py:59-94 | a proof is registered exactly when it was not committed within the TTL and is not reserved now; it replaces any other proof of the device |
| ClaimProofStore.ProofStore.ReserveProof | app/claim_proof_store.py:96-146 | a well-formed nonce reserves the unexpired proof of that digest, when no reservation of it is alive; when that is, in terms of the calls made, is ReservedIff |
| ClaimProofStore.ProofStore.ReleaseProof | app/claim_proof_store.py:148-164 | only the current holder frees a proof |
| ClaimProofStore.ProofStore.CommitProof | app/claim_proof_store.py:166-190 | only the current holder consumes an unexpired proof, once |
| ClaimProofLaws.ReservedIff | app/claim_proof_store.py:40-146 | after any run a nonce can be reserved at an instant if and only if it is well formed, the device's last admitted proof was admitted less than 120 seconds before and has its digest, and that proof was neither committed nor reserved without release since |
| ClaimProofLaws.CommittedIff | app/claim_proof_store.py:40-190 | after any run a reservation commits if and only if the device's last admitted proof was admitted less than 120 seconds before, was not committed since, and that reservation holds it |
| ClaimProofLaws.AdmittedIff | app/claim_proof_store.py:59-94 | after any run a proof is admitted if and only if its device committed none of its digest within 120 seconds and does not hold it reserved |
| ClaimProofLaws.ReservationNeedsRegistration | app/claim_proof_store.py:96-146 | a reservation succeeds only if some earlier call admitted a proof of that digest, less than 120 seconds before and with no other admitted since |
| ClaimProofStore.CommitsAreApart | app/claim_proof_store.py:166-190 | in every run no reservation commits twice, and two commits of one device's proof are at least the TTL apart |
| ClaimProofStore.SecondReservationIff | app/claim_proof_store.py:59-190 | before a reserved proof expires, and unless its holder releases or commits it, a second reservation of it is possible if and only if the device had another proof admitted and then this one again |
| ClaimProofStore.HolderCanCommitIff | app/claim_proof_store.py:59-190 | under the same conditions the holder can commit if and only if no other proof of the device was admitted |
| ClaimProofStore.ReservationIsExclusive | app/claim_proof_store.py:96-146 | until the proof is admitted again after another, no nonce of it reserves it |
| ClaimProofStore.ReregisteredProofIsReservedAgain | app/claim_proof_store.py:77-94 | from an empty store: a proof is reserved and held, the device registers another and the first again, and the first can be reserved by someone else |
| Alarms.AlarmTable.IngestSnapshot | app/alarm_service.py:53-216 | the rows, events and count of changes after a snapshot, or nothing at all when it is rejected |
| Alarms.AlarmTable.ApplyItem | app/alarm_service.py:105-189 | one reported alarm refreshes, supersedes, opens or clears the open occurrence of its key |
| Alarms.EveryRunIsBalanced | app/alarm_service.py:85-216 | in every run a key has at most one open occurrence, an activation is recorded once, and activated events minus cleared events equal the open occurrences |
| AlarmLaws.OpenAreExactlyReported | app/alarm_service.py:85-214 | after a complete ready snapshot with distinct keys the open keys are exactly those reported active, a count of zero keeping the key's prior status |
| AlarmLaws.IncompleteNeverClosesAbsent | app/alarm_service.py:191-214 | a snapshot that is not ready or not fully readable changes no row of a key it does not name |
| AlarmLaws.RejectedIff | app/alarm_service.py:106-160 | a snapshot with distinct keys is rejected if and only if an item reports an activation already recorded that is not the open one |
| AlarmLaws.RepeatedSnapshotAddsNoEvent | app/alarm_service.py:62-62 | repeating any accepted snapshot adds no event, duplicates of a key included |
| AlarmLaws.ItemOpens | app/alarm_service.py:106-189 | whether a key is open after its item depends only on the item and on whether it was open before |
| AlarmRows.OccurrencesAreKept | app/alarm_service.py:105-214 | an occurrence keeps for good the key, severity, boot, count and time that opened it, and once cleared everything; a new one has those of an item of the snapshot |
| AlarmRows.OnlyItemDecides | app/alarm_service.py:105-189 | the only item for a key refreshes the open row with its value and threshold, leaves it, or clears it with its count, and opens a row of its own fields for a new activation; each event and its reason is recorded |
| AlarmRows.MissingIsClosed | app/alarm_service.py:191-214 | a complete snapshot closes the open row of every key it does not name, without a count, and records why |
| AlarmRows.AnswerCountsChanges | app/alarm_service.py:85-216 | the number returned is that of the events recorded, a supersession counting once |
| EmailVerification.Account.Register | app/auth.py:250-368 | registration counts as the first message, and leaves nothing behind when it cannot be delivered |
| EmailVerification.Account.VerifyEmail | app/auth.py:375-456 | a code is accepted if and only if the account is unverified and unlocked, it is the code of the latest message, and that message is less than ten minutes old; a code compared and wrong is counted, the right one verifies the account |
| EmailVerification.Account.RecordFailure | app/auth.py:140-180 | a failure opens a window or joins it, and the fifth locks until the window ends |
| EmailVerification.Account.ResendVerification | app/auth.py:463-610 | a message goes out exactly when the cooldown and the window allow it and it can be delivered |
| EmailVerification.FailureIsCounted | app/auth.py:140-180 | counter and lock always describe the failures counted since the window began, whatever the history |
| EmailVerification.SendIsCounted | app/auth.py:496-575 | the send counter always describes the messages sent since its window began |
| EmailVerification.TenSpanAWindow | app/email_verification.py:14-17 | of any ten consecutive events the last comes a whole window or more after the first |
| EmailVerification.AccountLimits | app/auth.py:140-180 | whatever the interleaving, a half-open 15-minute span holds at most nine counted failures, a 60-minute span at most nine messages, and messages are at least 60 seconds apart |
| EmailVerification.MoreThanFiveNeedsNewWindow | app/auth.py:140-180 | a span holds more than five events only if a window starts inside it, after one that reaches into it |
| EmailVerification.NineFailuresAreReached | app/auth.py:375-456 | ten wrong codes, all compared with an unexpired code of an unlocked account, nine of them within 15 minutes |
| EmailVerification.NineMessagesAreReached | app/auth.py:463-610 | nine messages, each allowed by cooldown and window, within 60 minutes |
| LiveState.DeviceLiveStateStore.Update | app/device_live_state.py:443-687 | each field shows the latest non-null value of the device's whole history if it is at most 15 seconds old, and is absent otherwise; a block is forced stale exactly when one of its values comes from an earlier message, with the age of the oldest |
| LiveState.Retain | app/device_live_state.py:60-94 | a present value is shown and remembered, an absent one falls back on a remembered value up to 15 seconds old and is otherwise forgotten |
| LiveState.RetainBlock | app/device_live_state.py:96-150 | every field of a block is handled, no other field is touched, and the age reported is that of the oldest value taken from the cache |
| LiveState.RetainedIsShown | app/device_live_state.py:60-94 | what the cache yields is what the whole history calls for |
| LiveState.ShownIff | app/device_live_state.py:60-94 | a field shows the value of the last message that gave one if and only if that message is at most 15 seconds old |

## Left out

Assumptions of the results above:

- Ownership transfer is modelled with its staging flag on, history recovery with it off: with the flag on, `persist_page` refuses every page.
- Committed transactions of a device carry strictly increasing times; attestations may be arbitrarily old. What happens otherwise is `StaleStampBreaksTheArchive`.
- Transactions commit on the local day, and at the time, that they read. A page committed after midnight that was classified before it behaves like a late live reading (`LateLiveReadingAgreesIff`).
- The stores that read their clock before taking their lock are given a clock that does not go back.
- Each rate-limited key is always checked with the same limit and window, as its callers do.
- Reservation ids are new each time. SHA-256, keyed digests and the transfer proof's tag are opaque functions or verdicts.
- Sequences of a device's records strictly increase for its whole life; a factory reset of its buffer is not part of this model.

Not modelled:

- Several devices sharing tables, foreign keys and user deletion: the rows are those of one device, and a clash with another device's routing identity is an input of the claim.
- MQTT transport, threads, HTTP routing and rate-limit wiring, request and response schemas, notice texts, cause codes, logging.
- The transfer API's own checks before the store is called, and expiry notices.
- Float rounding (`round(..., 12)`, `fsum`), NaN beyond "not finite", JSON serialisability of a record, text normalisation outside ASCII.
- Averages, minima and maxima of the detailed history and the daily-history builder: weighted means over rows already proved.
- The single allowed daily resolution, `choose_daily_resolution_days`, which always answers one day.
- The alarm snapshot signature cache of the MQTT client, alarm acknowledgement, the alarm-rule recovery service, and the early return for a payload without items or with an invalid boot count.
- The copies of the first channel's values at the top of a live snapshot, and the normalisation of its texts, alarms and daily counter.
- The reload of a channel's last stored date after a restart, which can only skip more live readings.
- A daily check that fails midway, which leaves its date unchecked and is tried again at the next saved reading.
- An e-mail that is delivered but whose transaction then fails to commit is not counted as sent.
- The password, session and token routes of the authentication module.
- Command policies, role tables, settings, migrations and tools.

Where a contract is narrower than it might look:

- HistoryLaws.DayCheckIsComplete: it takes the daily check as one step; `WalkLeavesNoGap` is the statement for a check whose steps interleave with other writers.
- Recovery.Recover: the device answers honestly; replies may be lost but not forged, a forged one being the business of `ParseHistoryPage`.
- HistoryLaws.SummariesMatchTheirReadings: nothing is claimed for a day already partly purged, which a late record rebuilds from its surviving readings only.
- Alarms.AlarmTable.IngestSnapshot: the order in which missing rules are closed is that of the rows; the query it models leaves it open.
- AlarmLaws.RejectedIff: snapshots naming a key twice are excluded; their rejection depends on the order of the items.

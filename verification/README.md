# FW Gatekeeper: a verified model

FW Gatekeeper is an offline-first attendance system.  Kiosks recognize workers at the door, log
scans in SQLite, replicate a roster of face templates from a Convex server, and upload their
evidence over a lossy link.  The server pairs scans into shifts, derives exceptions and briefings,
and shows whether every kiosk has applied every purge of biometric data.

This project models the parts of that system whose correctness does not show from reading one
function, and proves what they are for.  `dafny verify dfyconfig.toml` checks everything.

- **Shift inference** (`ShiftPairing`, `ShiftProperties`, `ShiftVoids`, `ShiftExits`).  The
  single-pass automaton and the two linear sweeps compute exactly a declarative pairing.  Shifts
  never overlap, a three-date window judges a date as the whole history does, which punches are called
  for review is said in terms of the history, and the one-tap void and the one-tap exit at the
  scheduled end disturb no other punch, neither in the window nor in the whole history.
- **Roster replication** (`RosterServer`, `RosterProtocol`, `RosterProofs`, `RosterProgress`,
  `RosterRequests`, `RosterSessions`).  A state machine of worker writes, backfill, receipts, live
  paging, local application, lost responses, retries and acknowledgements.  In every interleaving a
  kiosk's reported sequence certifies what it stores, and from every reachable state an undisturbed
  sync or two leave exactly the templates on it that the last requests about each worker call for.  A
  sync that fails still makes its revocations.
- **Kiosk log store** (`KioskLog`, `KioskPruning`, `KioskClock`, `KioskHistory`, `PruneSweep`,
  `EpochMigration`).  Each scan is answered by the person's last event, so entries and exits alternate,
  also across a deletion and a return.  Pruning is invisible to that, a sweep removes exactly what may
  go, and reads stay exact while the epoch column is being filled.
- **Photo journal** (`PhotoJournal`).  Files plus a database, with a crash or a power loss between
  any two steps; what a publication, a removal and a recovery leave behind.
- **Evidence upload** (`Upload`, `Ingest`, `UploadIsolation`, `UploadProtocol`,
  `IngestHistory`, `UploadHistory`).  Bisection under a
  request budget, idempotent ingest, why the one works against the other, and exactly-once
  delivery over a link that loses, delays and repeats.
- **Time and derived views** (`FactoryZone`, `Calendar`, `SortKeys`, `EffectiveAttendance`,
  `EffectiveReads`, `CorrectionLog`, `WorkerReads`, `CorrectionEffects`, `Schedules`, `Briefing`,
  `BriefingMeaning`, `ShiftDay`).  Date keys, wall-time resolution, order-preserving keys, one bounded
  scan that equals per-date reads in every reachable state, corrections that change exactly what they
  name and can be undone, and two builders that agree and judge each worker by its punches.
- **Sessions** (`Sessions`, `SessionHistory`) and the **blink-verified scan loop** (`BlinkScan`, `BlinkOutcome`).

Tables are maps or sequences of rows, and each server mutation or SQLite transaction is one atomic
step.  Where the source updates state, a class does so with methods proved equal to the
specification functions that the lemmas are about.  Digests are taken to be injective.  The factory
zone is an abstract offset function with the assumptions of `FactoryZone.Regular`; two lemmas show
that they admit a skipped and a repeated hour.

## What holds only under a condition

- Overlong exits and repeated scans, unlike paired and plausible punches, do depend on the
  three-date window.  `WindowCutsOverlong` and `WindowCutsRepetitions` say exactly when;
  `OverlongIsNotLocal` and `RepetitionIsNotLocal` are histories where they differ.
- A void offered from the window leaves the pairing of the whole history alone, but one punch can
  change there: an exit right behind a removed exit that was itself at least two dates behind its
  entry becomes overlong in its place (`WindowedVoidKeepsHistory`, `TakesItsPlace`,
  with the history of `VoidCanMakeOverlong`).
- The one-tap exit at the scheduled end closes the open punch exactly if it is sorted behind it and
  comes within 16 hours of the run's first entry (`AddedExitCloses`).  It comes after the entry exactly
  unless the wall shows the scheduled end both before and after the entry
  (`ScheduledEndFollowsEntry`).  Such a day exists (`ExitCanPrecedeEntry`); what the exit changes then,
  as at any other place, is in `InsertedExitMeans`.
- Shifting a date is exact exactly if its year is not one of the first hundred, which the platform's
  calendar counts from 1900 (`ShiftIsExactIff`).  A list of dates is consecutive exactly if its start
  is not in those years or is also its end (`ListFactoryLocalDateKeys`).
- The account's revocation cutoff can move back.  A step lowers it exactly if it disables the active
  account while both the clock and the newest session are behind the cutoff (`CutoffLowersIff`), and
  along a history the cutoff never decreases exactly if no step of it is such a disable
  (`CutoffNeverDropsIff`).  Revocation is permanent all the same, because every cutoff covers the
  sessions that are still there.
- Each date of a range read equals the date's own read, as the comment above it says
  (`convex/attendance.ts:73-81`), whenever the range can be read.  It can be read exactly if each of
  its dates can.  Only a correction with two reversals stands in the way, and `reverse` never makes
  one: in every reachable state every date and every range can be read (`EveryReadSucceeds`).
  Reversal rows written in any other way could still make both reads fail.
- A kiosk's batch is rejected exactly if some event names an unknown worker, or carries a note that
  the table or an earlier event of the batch contradicts.  So bisection isolates exactly the bad
  rows if rows with the same evidence agree on their notes.  Other clients may upload meanwhile.  A
  worker hired meanwhile makes exactly those rows good that lacked only this worker, and the bad rows
  stay the same exactly if no hire helps one (`OnlyHiresMatter`, `BadnessStaysIff`).  In any case
  every row is settled for what it is, at no higher cost (`BatchIsSettledRightly`).
- A full batch with up to six bad rows fits the 64-request budget of a cycle, and seven can exceed
  it (`SevenBadRowsCanExceed`).  The bound behind that is sharper than 1 + 2k * ceil(log2 n), which
  is proved from it.
- A department row of the briefing is one department's with one schedule unless a name has a colon:
  `RowsCoincideIff` says which names share a row, and `RowsCanCoincide` shows two that do.
- A purge from before the sequence counter is certified only by a full download
  (`NoLegacyPurgedTemplateRemains`).

## Model

| member | source | states |
|---|---|---|
| FactoryZone.TwoDatesApart | convex/localDate.ts:113-128 | instants two factory dates apart are more than 23 hours apart, whatever the offset does |
| FactoryZone.SpringForwardIsRegular | convex/recognitionTimestamp.ts:14-25 | the zone assumptions admit a skipped hour, which no instant shows |
| FactoryZone.FallBackIsRegular | convex/recognitionTimestamp.ts:14-25 | the zone assumptions admit a repeated hour, each second of which is shown twice |
| ShiftPairing.StableSortOrders | convex/attendanceShifts.ts:44-45 | sorting orders the punches by exact instant and loses or invents none |
| ShiftPairing.SweepIns | convex/attendanceShifts.ts:52-59 | the forward sweep finds a clock-in exactly if some clock-out lies 0 to 16 hours after it |
| ShiftPairing.SweepOuts | convex/attendanceShifts.ts:60-67 | the backward sweep finds a clock-out exactly if some clock-in lies 0 to 16 hours before it |
| ShiftPairing.Automaton | convex/attendanceShifts.ts:68-87 | the pass over open clock-ins marks exactly the punches of the runs that a plausible clock-out closes, the overlong exits, and each repeated scan with its predecessor |
| ShiftPairing.PairShiftEvents | convex/attendanceShifts.ts:36-89 | all five results equal their declarative meaning on the chronologically sorted punches |
| ShiftPairing.PairingMeans | convex/attendanceShifts.ts:36-89 | each result, read punch by punch, is its declarative predicate, in both directions |
| ShiftProperties.PairedIsPlausible | convex/attendanceShifts.ts:46-88 | every paired punch has a plausible opposite punch |
| ShiftProperties.ShiftsAreDisjoint | convex/attendanceShifts.ts:68-87 | of two inferred shifts the later opens after the earlier has closed |
| ShiftProperties.ShiftStartsOnOneDate | convex/attendanceShifts.ts:72-86 | a shift's clock-ins share one factory date, and no punch counts in two shifts |
| ShiftProperties.ClosedTimeIsBounded | convex/attendanceShifts.ts:68-87 | the inferred hours sum to at most the time from the first to the last punch |
| ShiftProperties.WindowLocality | convex/shiftExceptions.ts:447-508 | pairing the dates D-1 to D+1 judges the punches of D as pairing the whole history: paired entries, paired exits and plausibility |
| ShiftProperties.WindowCutsRepetitions | convex/shiftExceptions.ts:481-508 | a repeated scan is seen through the window exactly if its predecessor lies in it |
| ShiftProperties.WindowCutsOverlong | convex/shiftExceptions.ts:481-508 | an overlong exit is seen through the window exactly if its entry lies in it |
| ShiftProperties.OverlongIsNotLocal | convex/shiftExceptions.ts:481-508 | a history that the pairing can be given, in which an exit is overlong only as a whole |
| ShiftProperties.RepetitionIsNotLocal | convex/shiftExceptions.ts:481-508 | a history in which a repetition shows only in the whole history |
| ShiftVoids.OfferedIsLoose | convex/shiftExceptions.ts:659-672 | a punch offered for voiding neither opens nor closes a run, and has no plausible opposite |
| ShiftVoids.AdviceMeans | convex/shiftExceptions.ts:659-672 | a punch of the date gets the exception exactly if it repeats its predecessor, is an overlong exit, or is the date's first and an unpaired clock-out; its removal is offered exactly if it also is a scan, is not overlong, has no plausible opposite and repeats no punch of another date |
| ShiftVoids.VoidKeepsOtherPunches | convex/shiftExceptions.ts:659-672 | removing a punch that is offered for voiding and pairing again leaves every other punch paired, plausible and overlong as it was |
| ShiftVoids.WindowedVoidKeepsHistory | convex/shiftExceptions.ts:659-672 | a void offered from the window also leaves the pairing and plausibility of the whole history as they were, and its overlong exits except one right behind a removed far exit, which becomes overlong |
| ShiftExits.OfferedIsLeftOpen | convex/shiftExceptions.ts:607-613 | a punch offered an exit is the last of its date, a clock-in without plausible exit in the whole history |
| ShiftExits.MissingExitMeans | convex/shiftExceptions.ts:607-655 | a date's last punch gets the exception exactly if it is an unpaired clock-in whose scheduled end has passed; the exit is offered exactly if also no exit is plausible, the entry precedes the end, and the shift ends that day or began more than 16 hours ago |
| ShiftExits.AdviceIsOffer | convex/shiftExceptions.ts:607-655 | what the program offers is the exit that the results below are about |
| ShiftVoids.VoidCanMakeOverlong | convex/shiftExceptions.ts:659-672 | a history in which such a void is offered and makes the next exit overlong |
| ShiftExits.AddedExitCloses | convex/shiftExceptions.ts:278-292 | wherever the added exit is sorted, it closes the open punch exactly if that is behind it and within 16 hours of the run's first entry; sorted behind it, it closes the whole run or is overlong |
| ShiftExits.AddedExitKeepsOthers | convex/shiftExceptions.ts:278-292 | sorted behind the punch, the exit leaves all punches outside the run paired or unpaired; only an exit right behind it stops being overlong; a clock-in becomes plausible only through it |
| ShiftExits.InsertedExitMeans | convex/shiftExceptions.ts:278-292 | an exit at any place of any history: a run that it cuts is judged in two parts, an exit right behind it has nothing to close, and everything else is judged as before |
| ShiftExits.ExitFindsPlace | convex/attendanceShifts.ts:44-45 | sorting puts an added exit at one place and keeps the other punches in order |
| ShiftExits.ScheduledEndFollowsEntry | convex/shiftExceptions.ts:119-128 | an end later on the wall than the entry is later in time exactly unless the wall shows it both before and after the entry |
| ShiftExits.ExitCanPrecedeEntry | convex/shiftExceptions.ts:119-128 | on a day with a repeated hour the scheduled end resolves to an instant before the entry |
| ShiftExits.EarlyExitLeavesOpen | convex/shiftExceptions.ts:278-292 | an exit that lands before the entry leaves it unpaired |
| RosterServer.RetriedAckIsNoop | convex/kiosks.ts:325-350 | a retried acknowledgement is answered like the first and changes nothing |
| RosterServer.AckNeverLowers | convex/kiosks.ts:339-346 | no acknowledgement lowers a reported sequence or touches another kiosk |
| RosterServer.FreshReceiptClearsPurges | convex/kiosks.ts:306-350 | acknowledging a receipt issued after every purge clears the pending purge |
| RosterServer.RosterStore.Write | convex/rosterSequence.ts:16-30 | one write takes the next sequence, stamps its row with it and records a purge, or fails without effect |
| RosterServer.RosterStore.BackfillRosterSequences | convex/workers.ts:495-513 | one backfill batch stamps up to 100 rows in order, all or none |
| RosterServer.RosterStore.Issue | convex/kiosks.ts:306-323 | a receipt carries the counter, and a pending one is handed out again |
| RosterServer.RosterStore.Ack | convex/kiosks.ts:325-350 | an acknowledgement applies the receipt's sequence, keeps the maximum and deletes the receipt |
| RosterProofs.CommitAllIsStampAll | convex/workers.ts:495-513 | in the state machine a backfill batch is that many ordinary writes |
| RosterProofs.UpdatedPageIsComplete | convex/workers.ts:515-555 | a page of changed workers holds every worker between its cursor and its last row |
| RosterProofs.LegacyPageIsComplete | convex/workers.ts:515-555 | a page of unsequenced workers skips none |
| RosterProofs.PagingIsComplete | convex/workers.ts:515-555 | paging while writers commit returns some version of every worker whose sequence lay in (since, s] when the receipt was issued |
| RosterProofs.RunKeepsInv | pi-kiosk/sync.py:517-724 | every interleaving of writes, backfill, receipts, pages, applies, losses, restarts and acknowledgements keeps the replication invariant |
| RosterProofs.RosterCertification | convex/kiosks.ts:306-350 | a kiosk that reports s holds, for each worker, a version at least as new as its last write up to s, and stores exactly what that version says |
| RosterProofs.NoPurgedTemplateRemains | convex/kiosks.ts:40-41 | when no purge is shown as pending, no template from before a purge of that worker remains on the kiosk |
| RosterProofs.NoLegacyPurgedTemplateRemains | convex/kiosks.ts:105-113 | the same for purges from before the sequence counter, with threshold zero |
| RosterProgress.RunKeepsOrder | convex/kiosks.ts:306-350 | every run keeps at most one pending receipt per kiosk and never reissues an acknowledged one |
| RosterProgress.UndisturbedSyncCompletes | pi-kiosk/sync.py:517-724 | from any reachable state an undisturbed sync completes within bounds on pages and steps: its receipt is acknowledged at its sequence or later, and none stays pending |
| RosterProgress.SyncConverges | pi-kiosk/sync.py:517-724 | with no earlier receipt pending it leaves exactly the server's templates on the kiosk, reports the counter, and clears every pending purge |
| RosterProgress.TwoSyncsConverge | pi-kiosk/sync.py:517-724 | after any run, two undisturbed syncs do |
| RosterRequests.ServerFollowsRequests | convex/workers.ts:342-428 | while the sequence has room, every worker is active, and has a template, exactly as the last request that says so says, a removal and a purge included |
| RosterRequests.PagesFollowRequests | convex/workers.ts:515-555 | a row that the server hands out shows a template exactly if those requests leave the worker active and with one |
| RosterRequests.RemovedIsGone | convex/workers.ts:409-428 | once a kiosk has reported a sequence at or after a removal, it stores no template of the worker until a request activates the worker again, whatever else happens |
| RosterRequests.SyncsFollowRequests | pi-kiosk/sync.py:517-724 | after any requests, two undisturbed syncs leave on the kiosk exactly the templates of the workers that the last requests left active and with a template |
| RosterSessions.StartsFrom | convex/kiosks.ts:306-323 | a sync starts exactly for a kiosk with a credential, and continues from the reported sequence exactly unless a full one is forced, nothing was reported, or a receipt without a sequence is pending |
| RosterSessions.IssueIsRepeated | convex/kiosks.ts:306-323 | a kiosk that asks again because the answer was lost starts the very sync it would have started |
| RosterSessions.AcknowledgedIsApplied | pi-kiosk/sync.py:695-724 | a kiosk takes a receipt as acknowledged only when the server has applied it as the latest one, and only with a credential |
| RosterSessions.RunKeepsCredential | convex/kiosks.ts:306-350 | over every run a kiosk is answered by the last step that gave or took its credential |
| RosterSessions.RunKeepsIncremental | convex/workers.ts:515-555 | in every reachable state a sync that continues from a sequence has read only rows written after it, and rows that carry none |
| RosterSessions.FailedSyncRevokes | pi-kiosk/sync.py:517-572 | a sync whose revocation fails, or whose response names a worker twice, makes all its other revocations, adds no template, acknowledges nothing and ends |
| RosterSessions.ErrorKeepsRevoking | pi-kiosk/sync.py:517-547 | an error in one revocation does not keep the later ones from being made |
| KioskLog.KioskStore.Enroll | pi-kiosk/database.py:635-696 | enrollment updates the row found by identity or name, or inserts one under an id never used before |
| KioskLog.KioskStore.Delete | pi-kiosk/database.py:532-546 | deleting a worker first freezes its identity onto its events |
| KioskLog.KioskStore.Log | pi-kiosk/database.py:1260-1319 | a scan is logged with the inferred direction and the worker's identity |
| KioskLog.KioskStore.RejectLog | pi-kiosk/database.py:1556-1564 | only an unsynced row is quarantined, which retention then keeps |
| KioskPruning.IdentityIsKept | pi-kiosk/database.py:532-608 | per local id the identity snapshots go from empty to one fixed server id in insertion order, whatever the operation |
| KioskPruning.LastAttendanceAgrees | pi-kiosk/database.py:1393-1429 | pruned and unpruned logs agree on the last event, found by local id or by identity |
| KioskPruning.OperationsAgree | pi-kiosk/database.py:1232-1290 | each operation answers alike over the pruned and the unpruned log and keeps them related |
| KioskPruning.PruningIsInvisible | pi-kiosk/database.py:1857-1872 | over every run of scans, syncs, rejections, deletes, restores and prunes, each answer equals the one over the never-pruned log |
| KioskClock.NextAnswer | pi-kiosk/database.py:1232-1258 | in every run with pruning, a scan, debounce check or last action is answered by the person's last event alone, whatever happens in between, also if the row is deleted and returns under another local id: on an automatic kiosk an exit is inferred exactly behind an entry at most the stale hours before, else an entry; other kiosks record their own direction |
| KioskClock.FirstAnswer | pi-kiosk/database.py:1232-1258 | the first scan of a newcomer is an entry on an automatic kiosk |
| KioskClock.ScansAlternate | pi-kiosk/database.py:1232-1258 | one person's readable scans on automatic kiosks, each within the stale window of the one before, are recorded alternately as entry and exit |
| KioskClock.ReturnComesNext | pi-kiosk/database.py:532-608 | an enrolled worker who gets an identity, is deleted and returns under a new local id scans next behind the event of the old id |
| KioskClock.RecordedRow | pi-kiosk/database.py:1260-1319 | an answered scan adds one unsynced row with the answer's direction, the scan's time and the worker's identity, and nothing else |
| KioskHistory.DeletableIff | pi-kiosk/database.py:1857-1872 | a row may be pruned exactly if it is synced, older than the cutoff and not quarantined, and its worker has both an event recorded later and one of a later instant |
| KioskHistory.EventIsKept | pi-kiosk/database.py:1519-1598 | over every run a recorded event stays until a sweep may and does take it; until then it is synced exactly if an upload marked it, stands quarantined exactly if it was quarantined unsynced and not released since, and has the time of its last release |
| PruneSweep.SplitQueryIsOneRange | pi-kiosk/database.py:1839-1852 | the two queries, ties then later epochs, return one lexicographic range after the cursor |
| PruneSweep.RetentionStore.PruneSyncedHistory | pi-kiosk/database.py:1828-1879 | one call deletes what may go among the next 100 rows and moves the durable cursor |
| PruneSweep.CursorAdvances | pi-kiosk/database.py:1872-1879 | the cursor moves strictly forward while rows are left |
| PruneSweep.ProtectionIsStable | pi-kiosk/database.py:1857-1872 | pruning never changes which rows are protected |
| PruneSweep.DeletableIsStable | pi-kiosk/database.py:1857-1872 | pruning never makes another row deletable or protected |
| PruneSweep.CallMakesProgress | pi-kiosk/database.py:1828-1879 | a call clears its page and leaves a smaller range |
| PruneSweep.SweepClears | pi-kiosk/database.py:1828-1879 | ceil(n/100) calls leave no deletable row in the cursor's range |
| PruneSweep.FreshSweepIsExact | pi-kiosk/database.py:1828-1879 | from a fresh cursor, ceil(n/100) calls remove exactly the deletable rows |
| EpochMigration.CollectIsToday | pi-kiosk/database.py:1438-1480 | cached rows and fallback rows together are each row of the day once |
| EpochMigration.NewestDescends | pi-kiosk/database.py:1470-1480 | the listing is strictly descending in (epoch, id) |
| EpochMigration.NewestShowsAll | pi-kiosk/database.py:1470-1480 | the listing leaves out no row that the limit allows |
| EpochMigration.ReadsAreExact | pi-kiosk/database.py:1438-1480 | at every point of the migration, even with progress read earlier, the listing equals filtering all rows by their parsed instants |
| EpochMigration.CompletionIsExact | pi-kiosk/database.py:149-174 | on completion every row's cache equals its parse |
| EpochMigration.EpochStore.Migrate | pi-kiosk/database.py:149-174 | the batch loop fills every cache, keeps every row and ends |
| PhotoJournal.PhotosAreCrashSafe | pi-kiosk/database.py:986-1038 | with a crash or power loss between any two steps every file is referenced or journaled and every referenced file exists |
| PhotoJournal.OnlyUnreferencedFilesGo | pi-kiosk/database.py:915-962 | of the journal's steps only recovery unlinks, and only journaled files that no row uses |
| PhotoJournal.CleanRecoveryLeavesNoStrays | pi-kiosk/database.py:915-962 | a recovery without errors leaves no unreferenced file, on disk or to come back after a power loss |
| PhotoJournal.PublicationTakesEffect | pi-kiosk/database.py:986-1038 | an undisturbed publication makes exactly the new photos durable and the row's |
| PhotoJournal.RecoverySettles | pi-kiosk/database.py:915-962 | a recovery without errors, visiting the entries in any order, keeps the rows and leaves exactly their photos, on disk and durably, with an empty journal |
| PhotoJournal.RemovalTakesEffect | pi-kiosk/database.py:802-828 | an undisturbed removal of a synced worker ends without the row and without any photo of it, its identity file included, that no other row uses; all other rows keep theirs |
| PhotoJournal.LocalRemovalTakesEffect | pi-kiosk/database.py:1041-1075 | the same for a local worker |
| PhotoJournal.ReplacementTakesEffect | pi-kiosk/database.py:986-1038 | a publication and the recovery behind it leave exactly the photos of the updated rows: those that the row had before are gone unless another row uses them |
| PhotoJournal.RestartSettles | pi-kiosk/database.py:915-962 | wherever the process died, a restart with an undisturbed recovery keeps the rows and leaves exactly their photos |
| PhotoJournal.AbortSettles | pi-kiosk/database.py:986-1038 | a publication that fails halfway is undone: its new photos go and the rows are as they were |
| PhotoJournal.NoPhotoIsLostFromTheStart | pi-kiosk/database.py:915-1038 | from an empty store on, every file is referenced or journaled, every referenced file is there, and a clean recovery leaves no others |
| PhotoJournal.RemoveKeepsInv | pi-kiosk/database.py:802-828 | removing a synced or a local worker journals its photos before the row goes |
| PhotoJournal.PhotoStore.RecoverPhotoCleanup | pi-kiosk/database.py:915-962 | recovery visits every entry despite errors, keeps referenced files, and clears the rest when nothing fails |
| Upload.UploadSettlesPrefix | pi-kiosk/sync.py:160-204 | on True every row of the batch is settled once, in order; otherwise a prefix is, and the rest is untouched |
| Upload.AskedCounts | pi-kiosk/sync.py:160-224 | the listed requests are as many as the upload counts |
| Upload.AcknowledgementCounts | pi-kiosk/sync.py:205-224 | a stated count acknowledges requests of just that many rows, a malformed one none, and without one the inserts must not exceed the rows |
| Upload.SettledForAReason | pi-kiosk/sync.py:160-224 | a row is synced only because a request that was sent with it was acknowledged in full, and quarantined only because one was refused for its claim or for this row alone |
| Upload.IsolationIsExact | pi-kiosk/sync.py:194-204 | with enough budget exactly the bad rows are quarantined at an exact cost; with less the budget is spent and the upload gives up |
| Upload.RequestsAtMostTwicePerSplit | pi-kiosk/sync.py:194-204 | one request and two more for each batch that has to be split |
| Upload.RequestBound | pi-kiosk/sync.py:194-204 | at most 1 + 2k * ceil(log2 n) requests for n rows of which k are bad |
| Upload.UploadResolves | pi-kiosk/sync.py:160-204 | with budget for the bad rows everything is settled, also if some of them turn good along the way |
| Upload.LevelsIsLogarithm | pi-kiosk/sync.py:201-204 | the depth of the bisection is the base-two logarithm, rounded up |
| Upload.SixBadRowsFitTheBudget | pi-kiosk/sync.py:106-109 | a 100-row batch with up to six bad rows fits the 64-request budget |
| Upload.SevenBadRowsCanExceed | pi-kiosk/sync.py:106-109 | seven bad rows at certain places of a 100-row batch cost 71 requests, so the upload gives up |
| Upload.Uploader.UploadAttendance | pi-kiosk/sync.py:160-204 | the recursion in place, with its budget, settles the queue and sends the requests as specified |
| Ingest.InsertKeepsTable | convex/attendance.ts:232-262 | at most one row per kiosk and key, a row without a key is alone in its evidence group, and rows are only ever filled in |
| Ingest.InsertStores | convex/attendance.ts:232-262 | an accepted event is stored, and an insertion adds its row and nothing else |
| Ingest.ReplayIsNoop | convex/attendance.ts:232-262 | a stored event is accepted again and changes nothing |
| Ingest.BatchKeepsTable | convex/attendance.ts:285-310 | an accepted batch loses and rewrites nothing and counts its insertions exactly |
| Ingest.BatchStoresAll | convex/attendance.ts:285-310 | an accepted batch stores every one of its events |
| Ingest.BatchInventsNothing | convex/attendance.ts:285-310 | every added row carries the evidence of an event of the batch |
| Ingest.BulkMeans | convex/attendance.ts:285-310 | an acknowledgement counts and stores the whole batch, a rejection changes nothing, and receipts are held only for stored batches |
| Ingest.RetryIsIdempotent | convex/attendance.ts:285-310 | whatever happens in between, an acknowledged batch is acknowledged again without effect |
| IngestHistory.ReceiptsAreAcknowledged | convex/attendance.ts:285-310 | a receipt is kept for exactly the checkpointed batches that were acknowledged |
| IngestHistory.AcknowledgedStaysSo | convex/attendance.ts:285-310 | a checkpointed batch that was acknowledged once is acknowledged from then on as stored already |
| IngestHistory.WorkersFollowHires | convex/attendance.ts:232-240 | the workers that events are checked against are the first ones and those hired since |
| Ingest.KioskEventRejectedIff | convex/attendance.ts:224-262 | a kiosk's event is rejected exactly if its worker is unknown or its note contradicts the row that already holds it |
| Ingest.InsertElsewhere | convex/attendance.ts:224-262 | an insertion about another scan, by whatever client, leaves it as it was whether this event's note is contradicted |
| Ingest.InsertClashes | convex/attendance.ts:224-262 | after an insertion another event's note is contradicted exactly if it was before or the inserted event contradicts it |
| Ingest.KioskBatchRejectedIff | convex/attendance.ts:285-310 | a kiosk's batch is rejected exactly if an event names an unknown worker, or has a note that the table or an earlier event of the batch contradicts |
| UploadIsolation.OwnRequestsAreHarmless | pi-kiosk/sync.py:160-204 | the upload's own requests, in any grouping, are among the traffic that the server may take in |
| UploadIsolation.OtherClientsAreHarmless | convex/attendance.ts:224-262 | a truthful batch about other kiosks' scans contradicts none of these rows |
| UploadIsolation.TrafficKeepsBadness | convex/attendance.ts:224-310 | any number of such batches, of batches of these rows, and of hires leaves it as it was whose notes the table contradicts |
| UploadIsolation.OnlyHiresMatter | convex/attendance.ts:224-310 | at every request the bad rows are those that the first table and the workers of that moment make bad |
| UploadIsolation.BadnessStaysIff | convex/attendance.ts:224-310 | the bad rows stay the same all the time exactly if no worker of an uncontradicted row is hired |
| UploadIsolation.ServerIsReliable | pi-kiosk/sync.py:194-204 | while its table grows under all clients, the server rejects a request of these rows exactly if one of them is bad on its own |
| UploadIsolation.BadRowsAreIsolated | pi-kiosk/sync.py:160-204 | against this server a batch with up to six bad rows ends with exactly these quarantined and the others synced |
| UploadIsolation.BatchIsSettledRightly | pi-kiosk/sync.py:160-204 | also while workers are hired such a batch is settled whole within the budget and at no higher cost; the request that settled a row found it bad if it quarantined it, and if it synced it the row is good from then on |
| Ingest.AttendanceStore.InsertAttendanceEvent | convex/attendance.ts:232-262 | the insertion in place equals its specification |
| Ingest.AttendanceStore.BulkCreateFromHttp | convex/attendance.ts:285-310 | the batch in place is all or nothing |
| UploadProtocol.RunKeepsInv | pi-kiosk/sync.py:160-279 | every run of scans, sends, late and repeated processing, lost and late replies, releases and prunes keeps the delivery invariant |
| UploadProtocol.ExactlyOnce | pi-kiosk/sync.py:160-224 | a synced or pruned row is on the server exactly once, and every scan ever recorded is there, in the log, or was lost by the kiosk itself |
| UploadProtocol.ExactlyOnceFromTheStart | pi-kiosk/sync.py:160-224 | from a new kiosk on, every scan it did not lose is in its log or delivered once, what counts as synced is delivered once, and the queue counters add up |
| UploadHistory.RecordedIsDelivered | pi-kiosk/sync.py:160-224 | from a new kiosk on, unless a step loses its row a recorded scan stays in the log or is pruned as it was recorded, with the first identity matched for its worker, and once synced or pruned the server has it once with just this evidence |
| UploadHistory.RequestsAreOneClaim | pi-kiosk/sync.py:225-279 | over every run a request names different rows, at least one, all of one kiosk claim |
| UploadHistory.NothingIsSentMeanwhile | pi-kiosk/sync.py:160-204 | while the kiosk waits for an answer it sends nothing else |
| UploadHistory.ClaimCanBeSent | pi-kiosk/sync.py:242-279 | otherwise any rows of one claim that wait for upload can be sent, in their order |
| UploadHistory.GivenUpIsSentAgain | pi-kiosk/sync.py:160-180 | a request without an answer can be given up and sent again just as it was |
| UploadHistory.DeniedClaimIsQuarantined | pi-kiosk/sync.py:160-204 | a refused claim quarantines every row of the request and changes nothing else |
| UploadHistory.RejectedIsNotSent | pi-kiosk/database.py:1493-1517 | a quarantined row is in no later request until it is released |
| UploadHistory.ReleaseNeedsRow | pi-kiosk/database.py:1574-1598 | releasing a rejection takes effect exactly if its row is still there |
| UploadHistory.PrunedIff | pi-kiosk/database.py:1857-1872 | in a reachable state exactly the synced rows can be pruned, each alone |
| UploadHistory.ServerSeesTraffic | convex/attendance.ts:285-310 | the protocol's server is the ingest under other clients' requests and the uploads as often as they arrive |
| UploadProtocol.UploadCompletes | pi-kiosk/sync.py:160-204 | over a working link exactly the sent rows become synced; a rejected single row is quarantined, and release undoes that |
| UploadProtocol.CountsAdd | pi-kiosk/database.py:1529-1553 | the counters add up exactly if active rejections are of unsynced or missing rows |
| UploadProtocol.QueueIsRetryableAndRejected | pi-kiosk/database.py:1529-1564 | in every reachable state queued = retryable + actively rejected |
| Calendar.ShiftAddsDays | convex/localDate.ts:48-54 | stepping through the calendar moves exactly that many days of a closed-form day count, across months and leap years |
| Calendar.ShiftIsExactIff | convex/localDate.ts:48-54 | the program's shift is that exactly if the year is not one of the first hundred, which count from 1900 |
| Calendar.ShiftsCancel | convex/localDate.ts:155-161 | shifts compose, so previous and next undo each other |
| Calendar.DayNumberOrders | convex/localDate.ts:17-40 | the day count orders and identifies valid dates |
| Calendar.KeyOrder | convex/localDate.ts:164-172 | date keys compare as strings exactly as their dates |
| Calendar.ParseRoundTrip | convex/localDate.ts:21-40 | a string is a valid key exactly if it is the key of the date it parses to |
| Calendar.ListFactoryLocalDateKeys | convex/localDate.ts:164-171 | refused exactly if the end is before the start; else the list is the consecutive dates from start to end, both included; from a start in the first hundred years to another date it goes on in the twentieth century, as far as the end |
| SortKeys.IsoOrder | convex/recognitionTimestamp.ts:54 | rendered seconds compare as strings exactly as the seconds |
| SortKeys.FractionOrder | convex/recognitionTimestamp.ts:51-54 | stripped fractions compare as strings exactly as their values, at any precision |
| SortKeys.KeyAtOrder | convex/recognitionTimestamp.ts:51-54 | keys order the exact instants and are equal only for equal ones |
| SortKeys.SuggestedIsComplete | convex/recognitionTimestamp.ts:37-45 | three noon offsets suggest every instant that shows the wall second |
| SortKeys.ResolveIsEarliest | convex/recognitionTimestamp.ts:34-50 | the resolver returns the earliest instant that shows the wall second, and nothing exactly if none does |
| SortKeys.SortKeyIsEmptyIff | convex/recognitionTimestamp.ts:27-56 | a key is empty exactly for a timestamp that denotes no instant |
| SortKeys.OffsetShowsWall | convex/recognitionTimestamp.ts:33 | a timestamp with an offset denotes exactly the instant at which a clock that far ahead of UTC shows its wall second |
| SortKeys.EveryInstantIsWritten | convex/recognitionTimestamp.ts:27-33 | every instant can be written, at any offset of less than a day |
| SortKeys.OffsetAgreesWithWall | convex/recognitionTimestamp.ts:27-56 | a factory wall time and the same fields with the offset that the factory then has are one instant |
| SortKeys.KeyFollowsInstant | convex/recognitionTimestamp.ts:27-56 | timestamps of one instant and fraction have one key, however they are written |
| SortKeys.UtcKeyIsText | convex/recognitionTimestamp.ts:51-54 | in UTC the key is the timestamp's own text with the fraction's trailing zeros dropped |
| SortKeys.SortKeysOrderInstants | convex/recognitionTimestamp.ts:27-56 | comparing the keys of any mix of wall times and offsets compares the exact instants |
| EffectiveAttendance.AcceptedSortsInWindow | convex/attendanceValidation.ts:39-58 | an accepted timestamp of factory date d sorts as a string in [d-1, d+2) |
| EffectiveAttendance.ScanIsBounded | convex/localDate.ts:176-186 | the scan for a range reads exactly the rows whose text is of its dates, of the one before or of the one after |
| EffectiveAttendance.AcceptedIff | convex/attendanceValidation.ts:39-58 | a timestamp is accepted exactly if it denotes an instant on a factory date at most one off the date in its text, to at most nine digits |
| EffectiveAttendance.FactoryDayOfInstant | convex/localDate.ts:113-128 | a timestamp's factory date is the date of the instant that its key orders by |
| EffectiveAttendance.SortIgnoresOrder | convex/attendance.ts:30-34 | sorting records does not depend on the order in which they were found |
| EffectiveReads.ScanIsComplete | convex/localDate.ts:176-186 | the bounded scan finds every punch of its dates, and a wider one finds the same per date |
| EffectiveReads.ActiveMeans | convex/attendance.ts:106-112 | corrections never reversed are in force, and reading fails exactly if one was reversed twice |
| EffectiveReads.SingleDateMeans | convex/attendance.ts:54-71 | a date's result is its punches less the voided ones plus the added ones, in exact order |
| EffectiveReads.RangeAgrees | convex/attendance.ts:82-104 | for each date of a range that can be read, the range's result is the date's own |
| EffectiveReads.RangeFailsIff | convex/attendance.ts:106-112 | the range read fails exactly if the read of one of its dates fails |
| CorrectionLog.RunKeepsInv | convex/attendanceCorrections.ts:110-265 | every run of punches, corrections and reversals reverses each correction at most once, keeps at most one active void per punch, and dates reversals like their corrections |
| CorrectionLog.ReversedAtMostOnce | convex/attendanceCorrections.ts:227-265 | no correction is ever reversed twice, whatever requests are repeated |
| CorrectionLog.EveryReadSucceeds | convex/attendance.ts:82-112 | in every reachable state every date and every range can be read, and each date of the range equals its own read |
| CorrectionLog.EveryReadSucceedsFromTheStart | convex/attendance.ts:82-112 | the same from empty tables on |
| WorkerReads.WorkerDateIsShare | convex/attendance.ts:54-71 | reading one worker's date gives the worker's share of the date's read, in the same order, as voids name punches of their own worker |
| WorkerReads.WorkerDateFailsIff | convex/attendance.ts:54-71 | that read fails exactly if a correction of this worker and date was reversed more than once |
| WorkerReads.WorkerReadsAgree | convex/attendanceCorrections.ts:184-198 | in every state reachable from empty tables it succeeds and is that share |
| CorrectionEffects.RunIsSound | convex/attendanceCorrections.ts:110-265 | every run from empty tables keeps what the following results start from: readable tables, voids of the worker's own punches, and corrections of their own date |
| CorrectionEffects.PunchTakesEffect | convex/attendance.ts:54-71 | an accepted punch is read on its own factory date, as it was sent, and changes nothing else on any date |
| CorrectionEffects.CorrectionTakesEffect | convex/attendanceCorrections.ts:170-224 | on its date a void takes exactly its punch away and an addition adds exactly an event of the kind its action names; every other date is unchanged |
| CorrectionEffects.ReversalRestores | convex/attendanceCorrections.ts:227-265 | reversing a correction in force brings exactly the voided punch back or takes exactly the added event away, on its date alone |
| CorrectionEffects.ReversalUndoes | convex/attendanceCorrections.ts:110-265 | a correction and its reversal leave every date as if neither had been made |
| CorrectionEffects.RepeatedRequestsReverseOnce | convex/attendanceCorrections.ts:238-247 | in every run no two stored reversals share a request |
| CorrectionEffects.VoidableIff | convex/attendanceCorrections.ts:176-198 | in every reachable state a void is accepted exactly for a punch of the worker that is read for the date |
| CorrectionEffects.ShownIsOfDate | convex/attendanceCorrections.ts:193-207 | in every reachable state whatever is read for a date is a timestamp of that date |
| CorrectionEffects.ReadIsChronological | convex/attendance.ts:30-34 | in every reachable state a date is read in the order of the exact instants; of one instant, added events come before punches and smaller ids first |
| EffectiveReads.ListEffectiveAttendanceByFactoryDates | convex/attendance.ts:82-104 | one scan and one grouping pass give every date of the range what its own read gives |
| Schedules.SupportedMeansLater | convex/scheduleTimes.ts:6-10 | comparing HH:MM strings compares minutes of the day |
| Schedules.PassedStaysPassed | convex/scheduleTimes.ts:12-31 | a passed deadline stays passed, through repeated and skipped hours |
| Schedules.LateMeansPassed | convex/scheduleTimes.ts:45-65 | a punch of the date that counts as late came after the deadline had passed, and after it none counts as early |
| BriefingMeaning.PassedMeans | convex/scheduleTimes.ts:15-31 | a deadline has passed exactly if the clock has shown it at an earlier instant, or skips it and shows a later time |
| BriefingMeaning.ElapsedMeans | convex/scheduleTimes.ts:45-65 | an arrival counts as later than the start exactly if a minute begins behind an instant that shows the start and up to the arrival; without instants the wall minutes are compared |
| Schedules.AssignmentIsTheOnlyOne | convex/scheduleAssignment.ts:14-25 | an assigned schedule is one of the schedules, active that day, of its tier and the only one of it, and the department's tier comes first |
| Schedules.UnassignedIff | convex/scheduleAssignment.ts:14-25 | a worker has no schedule exactly if none applies, of the department or without one |
| Briefing.RaisedIsTheCall | convex/shiftExceptions.ts:492-605 | a worker raises exactly the exception that the briefing's verdict calls for |
| BriefingMeaning.VerdictMeans | convex/shiftBriefing.ts:479-501 | a worker is left out exactly if it joined after the start and has not punched; else it has no schedule exactly if none applies, and missing, not yet due, late, clocked out and late today say exactly what the only schedule that applies, the worker's first clock-in and last punch and the clock call for |
| BriefingMeaning.RowsCoincideIff | convex/shiftBriefing.ts:587-604 | two workers are counted in one row exactly if their shifts start and end alike and department and schedule name, joined by a colon, are the same text |
| BriefingMeaning.RowsCanCoincide | convex/shiftBriefing.ts:587-604 | so different departments with different schedules can share a row |
| Briefing.BuildersAgree | convex/shiftBriefing.ts:556-632 | exceptions of each kind are as many as the briefing's verdicts that call for them |
| Briefing.CountsAgree | convex/shiftBriefing.ts:556-632 | missing and late arrivals, and workers without a usable schedule, are as many as the exceptions |
| Briefing.BuildShiftExceptions | convex/shiftExceptions.ts:492-605 | the loop raises each worker's exceptions in order |
| Briefing.BuildShiftBriefing | convex/shiftBriefing.ts:503-632 | counts are true, each department row counts exactly its own workers, and expected = present + missing + not yet due + clocked out overall, per row and summed over rows |
| ShiftDay.MinuteIsShown | convex/attendance.ts:20-28 | however a timestamp is written, the minute that lateness falls back on is the one that the factory wall shows at its instant |
| ShiftDay.BriefShift | convex/shiftBriefing.ts:503-527 | the briefing reads the date by itself and the exceptions read it as the middle of three dates, and their counts agree whenever the dates can be read |
| ShiftDay.OverviewIsReadable | convex/shiftExceptions.ts:441-470 | in every reachable state the dates of the overview can be read |
| Sessions.RevokeBatchMeans | convex/portalMembers.ts:199-221 | a batch removes sessions from the front with all their tokens, touches no later session, and leaves work only after ten sessions or a hundred tokens |
| Sessions.CleanupRemovesExactly | convex/portalMembers.ts:199-230 | repeated batches remove exactly the sessions up to the cutoff, count the tokens they delete, and stop within a bounded number of transactions |
| Sessions.CleanupIsBatched | convex/portalMembers.ts:199-230 | no transaction of it removes more than ten sessions or a hundred tokens |
| Sessions.RevocationIsPermanent | convex/access.ts:51-68 | a session present at a disable, reset or password change never authorizes again, and neither does a bare identity |
| Sessions.RevocationIsPermanentFromTheStart | convex/access.ts:51-68 | in every history of a new account a revoked session never authorizes again |
| Sessions.CleanupCompletes | convex/portalMembers.ts:215-230 | when no cleanup is scheduled any more no revoked session is left |
| Sessions.SignInUntilSignOut | convex/access.ts:51-68 | a fresh session authorizes, and a signed-out or expired one never does again |
| SessionHistory.SessionAuthorizesIff | convex/access.ts:51-68 | over every history a session signed in after all cutoffs is let in exactly while the last request leaves the account active, it has not run out, and since its sign-in nothing signed it out, expired it, or disabled the active account, reset or changed its password |
| SessionHistory.SignInBehindCutoff | convex/access.ts:51-68 | a session signed in at or before the cutoff is never let in |
| SessionHistory.BareUserAuthorizesIff | convex/access.ts:56-60 | an identity without a session is let in exactly while the account is active and was never disabled, reset or given a new password |
| SessionHistory.LiveTokens | convex/portalMembers.ts:199-230 | while a session lives it has exactly the refresh tokens that were issued to it |
| SessionHistory.ExpiredTokensGo | convex/access.ts:34-49 | an expired session loses all its refresh tokens in batches of a hundred, no other session loses any, and the job ends after one batch more than are full |
| SessionHistory.RunKeepsExpiredGone | convex/access.ts:17-49 | in every history a session whose tokens wait for their removal is gone |
| Sessions.RunKeepsInv | convex/access.ts:14-68 | every history keeps revoked sessions behind the cutoff and scheduled for cleanup, and leaves no token without an owner or a removal job |
| Sessions.CutoffLowersIff | convex/portalMembers.ts:245-297 | a step lowers the cutoff exactly if it disables the active account while the clock and the newest session are behind the cutoff |
| Sessions.CutoffNeverDropsIff | convex/portalMembers.ts:245-297 | along a history the cutoff never decreases exactly if no step of it is such a disable |
| Sessions.CutoffCanMoveBack | convex/portalMembers.ts:251-260 | such a history exists: a disable after a reset by a clock ahead |
| Sessions.PortalStore.RevokeSessionBatch | convex/portalMembers.ts:199-221 | the loop in place equals the batch |
| BlinkScan.EveryAttendanceIsVerified | pi-kiosk/main.py:790-923 | however detections and camera failures fall between the passes and within them, every recorded attendance follows a match, a blink and a frame strictly after it, all consumed results name the same worker of the same camera generation, and the frame is at most five seconds old |
| BlinkScan.RecordIsVerified | pi-kiosk/main.py:615-636 | the write that completes a verification is a verified one |
| BlinkScan.HonestScanIsRecorded | pi-kiosk/main.py:785-923 | in any rhythm of passes within the frame age and the deadlines, a worker who is matched, blinks and is seen again is recorded, with the whole trace of the scan |
| BlinkOutcome.PassLeavesNoResult | pi-kiosk/main.py:394-400 | every pass leaves no result behind, so one is met by the pass behind its publication or never |
| BlinkOutcome.ScanMeans | pi-kiosk/main.py:923-1112 | without a verification, a pass uses up the newest result of this camera generation that is fresh, asks a named worker to blink or, without a checker where none is required, records at once, and holds the display as the outcome says; faults and recent clocks start nothing |
| BlinkOutcome.VerifyMeans | pi-kiosk/main.py:785-923 | a verification ends without a record if camera, model or checker go, the time is up or somebody else is seen; a sight of the worker from after the blink completes it; a blink adds eight seconds; else it goes on |
| BlinkOutcome.NewCheckerStartsOver | pi-kiosk/main.py:690-702 | another checker interrupts the verification and drops what was published |
| BlinkOutcome.HoldIsKept | pi-kiosk/main.py:675-1112 | over every run, as long as an outcome is shown and the camera works nothing is met, matched, blinked or recorded |
| BlinkOutcome.RecordIsHeld | pi-kiosk/main.py:675-1112 | after a recorded attendance nothing more is met for two seconds unless the camera is lost |
| BlinkOutcome.LossDropsAll | pi-kiosk/main.py:703-735 | once the camera is lost, no frame from before is ever met, matched or recorded, however late the detector is |
| BlinkScan.ScanLoop.Publish | pi-kiosk/main.py:383-392 | a detection of a retired camera generation is not published |
| BlinkScan.ScanLoop.Verify | pi-kiosk/main.py:785-923 | the pending verification in place equals its specification |
| BlinkScan.ScanLoop.Pass | pi-kiosk/main.py:675-1112 | one pass through the loop equals its specification |

## Left out

- Camera, face detection, embeddings and blink detection: a recognition result is an identity and a frame time, and a completed blink is an input.
- HTTP, routing, credentials and response parsing: a response is lost, accepted, rejected, denied or anything else.
- SQL text, indexes, locking and WAL: the rows that each query selects are modelled.
- `Intl` formatting and regular expressions: timestamps are parsed fields and the zone is an abstract offset; date keys and lists take every year, and reads of attendance those from 1000 to 9998.
- Symbolic links, file modes and path ownership checks: photo paths are ids, and the publication lock is mutual exclusion.
- The removal of external legacy photo paths (`pi-kiosk/database.py:776-789`), which are neither owned nor journaled.
- Loss or replacement of a whole kiosk database: single rows can be lost in `UploadProtocol`, and nothing else disappears.
- Hand-edited SQLite rows, and acknowledgements from servers that count only new inserts beyond accepting them as a full acknowledgement.
- Recognition telemetry: its upload and retention mirror the attendance queue.
- Upload cursors and pages of a sync cycle, and splitting of batches above 500 events into receipted chunks: a send takes any retryable rows of one claim.
- Legacy timestamp cursors of the roster, roster row validation, worker names, photos and template bytes: a roster row is an id, a version and whether a template is present.
- Exception texts, severities, reviews, fingerprints, closeouts, kiosk warnings and the ranking of briefing rows.
- Password hashing, roles and the protection of the last administrator, rate limits and audit rows.
- Reasons, actors and request ids of corrections, the exception a correction comes from, and the limit on future times.
- Display timestamps and joins of attendance rows with workers and kiosks.
- Department names are given normalized, and record ids are numbers, corrections before punches, where the source compares id strings.
- The replication protocol is a value state machine, because its steps interleave across machines; RosterServer.RosterStore updates the server's documents in place.
- The upload protocol is a value state machine of kiosk, link and server; Upload.Uploader and Ingest.AttendanceStore update queue and table in place.
- Publication and removal of photos are steps of a value state machine, because a crash may fall between any two; recovery is also proved in place.
- The briefing judges the workers in one loop and tallies them in a second one, where the source does both in one.

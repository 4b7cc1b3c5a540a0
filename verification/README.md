# Playtest: verified models of the concurrent runner, the bundle codec, the ledger and replay

These Dafny modules model the parts of Playtest in which several pieces have to agree, and prove that they do.

- **Runner.** `PoolSpec`, `PoolRuns`, `PoolClaims`, `PoolHistory` and `Pool` are the case scheduler as a machine of atomic steps, one for the code between two awaits, with `Semaphore` and `Budget` beside it. `Trajectory`, `JourneySpec` and `Journey` are one run: replay, heal, re-anchor, and the accessibility scan that must never meet another page operation. What the page, the model and the clock answer is an arbitrary choice everywhere.
- **Bundle codec.** `ZipFormat`, `ZipRecords` and `ZipArchive` say what is on disk and what the reader makes of it; `Zip` is the byte-filling writer and the reader's loops; `ZipRoundTrip` connects the two; `ZipFields` decodes the written records at their offsets; `Crc` is the checksum. The format is PKWARE's APPNOTE.
- **Ledger.** `LedgerSpec` gives each operation as a function, `LedgerAnswers` says when it answers what and who may act, `LedgerInvariant`, `LedgerHistory` and `LedgerSettlement` prove what holds over all histories, and `Ledger` is the object, proved to do what the functions say. `Pagination` walks a list that grows; `PaginationPolicy` is the independently written policy evaluator, composed with the ledger's pages.
- **Replay as a program.** `FieldPath` and `BindingProducers` find and re-read response values, `BindingTemplates` and `BindingTokens` rewrite a request and scan it again, `BindingSites` enumerates what is looked up and what is walked, `BindingMaps`, `BindingBack`, `BindingRoundTrip` and `BindingReplay` prove when replay rebuilds the request, and `Bindings` is the code that updates maps as it goes. `Match`, `MatchShows` and `Status` are the match rules and what they let through.
- **Smaller pieces.** `OpenApiRefs`, `OpenApiTheorems`, `OpenApiValues` and `OpenApi` resolve `$ref`s; `Screen`, `Live` and `LiveCases` are the live reporter against a terminal; `Pairing`, `Gate` and `HealDiff` are the greedy pairings of the gate and the drift report. `Common`, `Text` and `Json` are shared.

Where an object updates its fields the model is a class whose methods are proved against functions; the properties of whole runs are lemmas about those functions. Code that could be shown false of its own documentation is kept as it is: see `ZipRoundTrip.FullCountIsRefused`, `BindingRoundTrip.DigitKeyIsSentLiterally`, `BindingRoundTrip.EmptyQueryIsDropped`, `FieldPath.DottedKeyIsLost`, `Status.OverlapBreaksEquivalence`, `Status.GroupOrderMatters`, `MatchShows.KeyChangeIsHidden`, `MatchShows.BelowAMarkIsLost`, `LedgerAnswers.KeysMeet`, `OpenApiTheorems.CyclesBesideAreLost`, `OpenApiRefs.EmptyKeyReadsDocument`, `Screen.EraseUndoesDraw` and `PoolRuns.FinishesIffRecordsCanRun`.

`dafny verify dfyconfig.toml` checks all modules.

Where the code and its own comments disagree, the code is followed. `packages/core/src/match.ts:20-25` says that no rule can hide a renamed field; a redaction, an exclusion, or `length` on a list can, and nothing else does (`MatchShows.KeyChangeIsHidden`). `packages/core/src/match.ts:286-288` says that authoring order is irrelevant to a status's token; that of members is, that of groups need not be (`Status.GroupOrderMatters`). `packages/core/src/bindings.ts:321-325` says that an unresolvable binding is never sent silently; one named after a key such as `2fa_token` is. `packages/core/src/bundle.ts:255-317` reads as escapes three values that `packages/core/src/bundle.ts:502-566` writes as themselves.

## Model

| member | source | states |
|---|---|---|
| Pool.Scheduler.TakeNext | packages/core/src/runner.ts:2531-2543 | a check is taken wherever it stands in the queue, else the first record if the cap allows; the rest keeps its order |
| Pool.Scheduler.TakeTurn | packages/core/src/runner.ts:2545-2606 | a worker's turn between two awaits is exactly the model's step, and keeps the scheduler's invariant |
| Pool.Scheduler.ReleaseRecord | packages/core/src/runner.ts:2524-2529 | giving a record permit back lowers the count by one and resumes every parked worker |
| Pool.Scheduler.ClaimTail | packages/core/src/runner.ts:2564-2570 | a tail slot is taken, and the worker freed, exactly when the case is neither detached nor settled and a slot is free |
| Pool.Scheduler.Announce | packages/core/src/runner.ts:2571-2583 | `release` gives the record permit back once, then takes a tail slot or queues for one |
| Pool.Scheduler.OfferTails | packages/core/src/runner.ts:2513-2517 | a freed slot is offered to the queued cases in order until one takes it |
| Pool.Scheduler.SettleTask | packages/core/src/runner.ts:2586-2602 | a settling case records the first error, gives back what it holds, passes its slot on and frees its worker |
| PoolRuns.StepInv | packages/core/src/runner.ts:2491-2616 | every atomic step keeps the invariant: counters equal what is held, every item is in one place, queues hold what they should |
| PoolRuns.Safety | packages/core/src/runner.ts:2491-2616 | in every reachable state records in flight, detached tails and attached cases stay within their caps, and the dispatch log is a prefix of checks in order, then records in order |
| PoolRuns.FinishedMeansAllRan | packages/core/src/runner.ts:2607-2616 | when the pool is finished every item was dispatched exactly once, in the promised order, has settled, and both counters are back at zero |
| PoolRuns.Progress | packages/core/src/runner.ts:2545-2606 | as long as the record cap lets a record through, no reachable state short of the end is stuck |
| PoolRuns.StepUsesWork | packages/core/src/runner.ts:2491-2616 | every step but an idle release lowers a measure of what is left, so a run that keeps settling cannot go on for ever |
| PoolRuns.Finish | packages/core/src/runner.ts:2607-2616 | from every reachable state some continuation reaches the end |
| PoolRuns.FinishesIffRecordsCanRun | packages/core/src/runner.ts:2403-2427 | a pool can finish if and only if its record cap is at least one or it has no record |
| PoolRuns.RethrowsFirstFailure | packages/core/src/runner.ts:2586-2616 | the error the pool rethrows is the first one any case settled with, in every interleaving |
| PoolHistory.EveryRunTells | packages/core/src/runner.ts:2545-2606 | in every run the flags of a case say what happened to it: settled exactly when it ended, holding a record permit exactly when it is a record that has neither released nor ended, detached only after a release |
| PoolHistory.LimitsHold | packages/core/src/runner.ts:2491-2616 | in every run, by its events alone: records dispatched and neither released nor ended are exactly the permits taken and within the record cap; cases that have not released are at most the workers; all cases in flight at most workers plus tail slots |
| PoolHistory.ReleasedHandsOff | packages/core/src/runner.ts:2564-2583 | a released case that has not ended still has its worker only while every tail slot is taken by other released cases |
| PoolHistory.EndsOnce | packages/core/src/runner.ts:2586-2602 | no case ends twice, and a finished pool has ended every one (`PoolHistory.FinishedMeansAllEnded`) |
| PoolClaims.AdmitsOldest | packages/core/src/runner.ts:2513-2517 | a freed slot goes to the oldest live claimant; stale and repeated claims never take it |
| PoolClaims.ReleaseIsIdempotent | packages/core/src/runner.ts:2571-2583 | a second `release` changes the outcome of no continuation |
| Semaphore.FirstComeFirstServed | packages/core/src/runner.ts:2436-2457 | calls are admitted in the order made, never more than the limit at once, and nobody waits while a permit is free |
| Semaphore.QuietMeansServed | packages/core/src/runner.ts:2436-2457 | no permit is lost: once nothing runs, every call has been admitted |
| Semaphore.Permits.Acquire | packages/core/src/runner.ts:2448-2451 | a caller runs at once or joins the queue, as the specification says |
| Semaphore.Permits.Release | packages/core/src/runner.ts:2439-2446 | the permit is handed to the oldest waiter, or the count drops |
| Budget.Resolve | packages/core/src/runner.ts:2403-2430 | every resolved budget has at least one worker and one record permit; `grade: 0` survives, a missing one falls back to the smaller of record cap and pool |
| Budget.SettingsAreHonoured | packages/core/src/runner.ts:2403-2430 | a number is used as it stands from its floor on, the floor below it; what is missing falls back to the machine, no cap, or the pool's size |
| Budget.ResolvedBudgetNeverSticks | packages/core/src/runner.ts:2403-2430 | whatever the caller wrote, the resolved pool can finish and neither semaphore can starve its callers |
| Budget.ResolvedPoolFinishesFrom | packages/core/src/runner.ts:2403-2430 | and it can finish from every state it can reach |
| Journey.DeferredAxeCapture.Defer | packages/core/src/runner.ts:1390-1405 | an envelope is latched, or written at once where nothing is scanned; it is refused exactly when the previous one was never joined |
| Journey.DeferredAxeCapture.AfterSnapshot | packages/core/src/runner.ts:1412-1432 | the pending scan is started at most once and nothing is written |
| Journey.DeferredAxeCapture.Barrier | packages/core/src/runner.ts:1439-1459 | afterwards no scan runs, nothing is pending, and the pending envelope is the next line written |
| Journey.DeferredAxeCapture.Terminal | packages/core/src/runner.ts:1467-1489 | the inline scan of the final page begins and ends within the call |
| Journey.FindAnchor | packages/core/src/runner.ts:2027-2035 | replay resumes at a step exactly when it is the only one of the window that the fresh snapshot matches |
| Journey.ExpectationDrift | packages/core/src/runner.ts:1963-1972 | a status is drift exactly when both are known and not declared equivalent |
| Journey.Journey.LastTerminal | packages/core/src/runner.ts:1896-1897 | the baseline's last `done` or `give_up`, if it has one |
| Journey.Journey.ActLoop | packages/core/src/runner.ts:1751-1932 | replay comes to the rest of the track step by step and stops at the first that drifts or fails, every step before it executed, successful and answering the recorded status; a finished replay has come to them all, and ends with the action of the baseline's last `done` or `give_up` (or `done` without one), citing its step, in the last envelope and in the result alike; no page operation meets a scan; the latch never refuses |
| Journey.Journey.RecordLoop | packages/core/src/runner.ts:1492-1729 | the actor's loop ends within the step budget; it resumes only after at least one turn, and exactly at the one step of its window that the fresh snapshot matches; the ending it reports is the actor's own or the budget's; everything recorded was performed, and it keeps the same protocol |
| Journey.Journey.Window | packages/core/src/runner.ts:787-795 | the window is every later track step with a recorded snapshot, and empty on the api driver |
| Journey.Journey.Heal | packages/core/src/runner.ts:758-818 | a heal resumes strictly beyond the step that failed, and its segment is recorded |
| Journey.Journey.ActAndHeal | packages/core/src/runner.ts:741-819 | act and heal alternate and end; heal segments move strictly forward and name track steps; only the last may not resume; a run that ends by replay ends as the baseline did, one that ends in a heal as the actor did |
| Journey.Journey.ExecuteJourney | packages/core/src/runner.ts:700-866 | whatever the page, the model and the clock do: the file holds every envelope in order, nothing is pending or scanning, envelopes are numbered 1..n, and n is at most max_steps + track + 1, or max_steps without a baseline; the end reason is what the last envelopes show and, for a run that ends by replay, the baseline's; what is recorded is what was performed; `unhealed` names a failure no heal followed; on the api driver every binding whose producer is on the track cites the run step that executed it |
| JourneySpec.RunIsBounded | packages/core/src/runner.ts:741-819 | the bound on a run's length, from the shape of its envelopes alone |
| JourneySpec.AppendVisit | packages/core/src/runner.ts:1831-1850 | executing or skipping the next track step keeps every run invariant, its bindings citing the steps that replayed their producers |
| JourneySpec.VisitedOnce | packages/core/src/runner.ts:741-753 | no track step is executed or judged twice in a run |
| JourneySpec.HealPointsIncrease | packages/core/src/runner.ts:805-818 | heal points strictly increase |
| Trajectory.TrackIncreases | packages/core/src/trajectory.ts:308-314 | the action track of a trajectory numbered 1..n has strictly increasing steps, each an executed step of it |
| Zip.LocalHeader | packages/core/src/bundle.ts:512-531 | the buffer filled field by field is the local record of APPNOTE 4.3.7, ZIP64 escapes included |
| Zip.CentralHeader | packages/core/src/bundle.ts:533-564 | likewise the central directory record of 4.3.12, with one escape per oversized field |
| Zip.Zip64Extra | packages/core/src/bundle.ts:603-610 | the extra field of 4.5.3, or nothing when nothing is escaped |
| Zip.Eocd | packages/core/src/bundle.ts:566-577 | the end record of 4.3.16 |
| Zip.Zip64Eocd | packages/core/src/bundle.ts:579-592 | the ZIP64 end record of 4.3.14 |
| Zip.Zip64Locator | packages/core/src/bundle.ts:594-601 | the ZIP64 locator of 4.3.15 |
| ZipFields.LocalFront | packages/core/src/bundle.ts:512-531 | decoded at the offsets of APPNOTE 4.3.7, a local record says its entry's method, checksum, stored size and contents' size, each size or its escape, then name and extra length |
| ZipFields.LocalEscapes | packages/core/src/bundle.ts:603-610 | with an oversized value a local record's extra field decodes to the contents' size, then the stored one |
| ZipFields.CentralFront | packages/core/src/bundle.ts:533-564 | likewise the directory record of 4.3.12, up to its lengths |
| ZipFields.CentralBack | packages/core/src/bundle.ts:533-564 | and behind them: disk, attributes, the local record's offset or its escape, name, and the escaped values |
| ZipFields.EndRecord | packages/core/src/bundle.ts:566-577 | the end record decodes to count, size and offset of the directory, or their escapes |
| ZipFields.Zip64EndRecord | packages/core/src/bundle.ts:579-592 | the ZIP64 end record decodes to them in 64 bits |
| ZipFields.LocatorRecord | packages/core/src/bundle.ts:594-601 | the locator decodes to the place of the ZIP64 end record |
| ZipFields.LocalSays | packages/core/src/bundle.ts:512-531 | a local record anywhere in a bundle decodes to its entry's method, checksum and sizes, always |
| ZipFields.CentralSays | packages/core/src/bundle.ts:533-564 | a directory record decodes to the same and the offset, unless a value clashes with an escape |
| ZipFields.RecordsAgree | packages/core/src/bundle.ts:475-564 | in a written bundle the local record of every entry and, short of a clash, its directory record decode to that entry's method, checksum, sizes and place |
| Zip.BuildZip | packages/core/src/bundle.ts:475-510 | the loop over one moving cursor yields exactly the specified archive and the writer's own index, or refuses what its headers cannot carry |
| Zip.FindEocd | packages/core/src/bundle.ts:752-759 | the last position where an end record's comment reaches the end of the file |
| Zip.ApplyZip64Extra | packages/core/src/bundle.ts:612-637 | the first ZIP64 field supplies, in order, the values whose headers hold the escape |
| Zip.ReadEntryAt | packages/core/src/bundle.ts:279-310 | one central entry is read, its escapes followed and its local record consulted |
| Zip.Rebuild | packages/core/src/bundle.ts:255-317 | the whole reader is the specified index of the bytes |
| ZipRoundTrip.RoundTrip | packages/core/src/bundle.ts:255-317 | rebuilding the index of a written archive gives the writer's index exactly when no count, size or offset equals an escape value it was not written as; where the end record clashes, the reader looks where the directory's last 20 bytes point |
| ZipRoundTrip.FullCountIsRefused | packages/core/src/bundle.ts:502 | any bundle of exactly 65,535 files below 4 GiB is written without complaint and cannot be read again, unless its directory ends like a ZIP64 locator |
| ZipRoundTrip.FullCountHappens | packages/core/src/bundle.ts:266 | 65,535 empty files are such a bundle |
| ZipRoundTrip.ExtraReads | packages/core/src/bundle.ts:612-637 | the reader recovers all three values from the writer's escapes, or runs off the field when there is a clash |
| ZipRoundTrip.EntryReads | packages/core/src/bundle.ts:279-310 | reading a written entry gives its name and its index line, exactly when it has no clash |
| ZipRoundTrip.DirectoryReads | packages/core/src/bundle.ts:276-310 | reading a written directory gives the index of all its entries, exactly when every entry reads |
| ZipRoundTrip.DirectoryFound | packages/core/src/bundle.ts:255-275 | the reader finds the directory the writer wrote, through the ZIP64 records when they are there |
| ZipRoundTrip.StoredBodiesReadBack | packages/core/src/bundle.ts:713-719 | each indexed range yields the body stored under that name |
| ZipRoundTrip.RewriteKeepsEntries | packages/core/src/bundle.ts:213-253 | the rewritten bundle is its new description and exactly the kept entries as first written; when it reads back, its index has their names and each entry is found under its own |
| Crc.MakeTable | packages/core/src/bundle.ts:96-104 | the table loop computes, for every byte, eight shifts of the reflected polynomial 0xEDB88320 |
| Crc.LookupIsFeed | packages/core/src/bundle.ts:761-765 | one table lookup does what feeding eight bits one by one does |
| Crc.Crc32 | packages/core/src/bundle.ts:761-765 | the table-driven loop equals the bit-by-bit CRC-32 of APPNOTE 4.4.7 for every byte string |
| Ledger.Ledger.CreateAccount | examples/ledger-api/src/ledger.js:350-401 | checks in the source's order; every refusal leaves the state alone, acceptance adds one account |
| Ledger.Ledger.ActivateAccount | examples/ledger-api/src/ledger.js:424-445 | the account becomes active, or the request is refused for the first reason that applies |
| Ledger.Ledger.CloseAccount | examples/ledger-api/src/ledger.js:447-475 | an account closes only when no pending transfer names it |
| Ledger.Ledger.CreateDeposit | examples/ledger-api/src/ledger.js:479-529 | one row, the balance it explains, and a receipt naming that row |
| Ledger.Ledger.CreateTransfer | examples/ledger-api/src/ledger.js:541-717 | validation, idempotency, parties, currency, daily limit and funds in the source's order; acceptance adds one pending transfer |
| Ledger.Ledger.CancelTransfer | examples/ledger-api/src/ledger.js:789-840 | a pending transfer is canceled, by its payer only |
| Ledger.Ledger.Settle | examples/ledger-api/src/ledger.js:950-1019 | a pending transfer settles with its three rows and balances, or fails without a row |
| Ledger.Ledger.Tick | examples/ledger-api/src/ledger.js:921-1043 | the settlement loop over the batch is the specified settlement, its settled and failed lists included |
| LedgerAnswers.CreateAccountAnswers | examples/ledger-api/src/ledger.js:352-401 | the answer to a request for an account, check by check in order, each by its condition on request and state |
| LedgerAnswers.ActivateAnswers | examples/ledger-api/src/ledger.js:424-445 | activation: known account, owner or administrator, pending, in that order |
| LedgerAnswers.CloseAnswers | examples/ledger-api/src/ledger.js:447-475 | closing: the same, active, empty, and no pending transfer naming the account |
| LedgerAnswers.DepositAnswers | examples/ledger-api/src/ledger.js:479-529 | a deposit: its own checks in order, among them the administrator's |
| LedgerAnswers.TransferAnswers | examples/ledger-api/src/ledger.js:541-717 | a transfer: malformed, replayed or in conflict, then ownership, parties, currency, daily limit and funds in order |
| LedgerAnswers.TransferAccepted | examples/ledger-api/src/ledger.js:676-717 | what an accepted transfer changes: one pending transfer more, its key, and the source's usage; no balance and no row |
| LedgerAnswers.TransferAcceptedWhen | examples/ledger-api/src/ledger.js:541-675 | 201 exactly when the body is well formed, the key is new, the caller is administrator or owner of the source, both parties are active and distinct, the currencies agree, usage plus amount is within the daily limit and the balance covers amount and fee |
| LedgerAnswers.CancelAnswers | examples/ledger-api/src/ledger.js:789-840 | cancelling: known transfer, payer or administrator, pending, in that order |
| LedgerAnswers.SettlementAnswers | examples/ledger-api/src/ledger.js:950-1019 | a pending transfer settles exactly when its payer still covers it, and fails changing nothing else |
| LedgerAnswers.OnlyOwnersAct | examples/ledger-api/src/ledger.js:609-616 | an operation by a principal who is neither administrator nor owner leaves the account's status, its deposits and what it sends as they were |
| LedgerAnswers.NobodyElseActs | examples/ledger-api/src/ledger.js:404-840 | over any history of such principals an account is neither activated nor closed, nothing is paid into it by deposit, and it sends and cancels nothing |
| LedgerAnswers.KeysApart | examples/ledger-api/src/ledger.js:564-575 | two principals never share a remembered key as long as no principal's id has a colon |
| LedgerAnswers.KeysMeet | examples/ledger-api/src/ledger.js:564-575 | with a colon they do: one's key `b:c` is the other's key `c` |
| LedgerInvariant.ApplyInv | examples/ledger-api/src/ledger.js:160-1043 | every operation, accepted or refused, keeps the books in order |
| LedgerInvariant.BooksBalance | examples/ledger-api/src/ledger.js:160-1043 | after any operations each balance is the sum of its rows and not negative, balances total deposits, and a settled transfer has exactly its three rows, any other none |
| LedgerInvariant.SettledInv | examples/ledger-api/src/ledger.js:975-1017 | settling moves amount and fee between three accounts, which may coincide, and keeps the invariant |
| LedgerHistory.RefusalsLeaveNoTrace | examples/ledger-api/src/ledger.js:350-1043 | a refused request changes nothing: no sequence number, no drawn id, no usage |
| LedgerHistory.ReplaysLeaveNoTrace | examples/ledger-api/src/ledger.js:564-590 | an idempotent replay changes nothing and answers 200 |
| LedgerHistory.TerminalForever | examples/ledger-api/src/ledger.js:789-840 | a settled, failed or canceled transfer never changes again |
| LedgerHistory.ClosedForever | examples/ledger-api/src/ledger.js:447-475 | a closed account keeps its balance, no row is ever posted to it again, and no pending transfer names it |
| LedgerHistory.OneTransferPerKey | examples/ledger-api/src/ledger.js:564-590 | over any history one principal's key creates at most one transfer |
| LedgerHistory.ReplayForever | examples/ledger-api/src/ledger.js:564-590 | however much later, the same keyed request is answered with its transfer and a different body is a conflict |
| LedgerHistory.NeverLost | examples/ledger-api/src/ledger.js:576-590 | a remembered key always names an existing transfer |
| LedgerHistory.UsageIsSent | examples/ledger-api/src/ledger.js:664-713 | the stored daily usage is what the history sent since the last rollover |
| LedgerHistory.DailyLimitHolds | examples/ledger-api/src/ledger.js:664-675 | and it never exceeds the daily limit |
| LedgerHistory.FeeIsNearest | examples/ledger-api/src/ledger.js:62-69 | the basis-point part of the fee is the nearest unit, halves upwards |
| LedgerSettlement.QueueIsCreationOrder | examples/ledger-api/src/ledger.js:940-948 | the queue holds exactly the pending transfers, strictly by creation sequence |
| LedgerSettlement.TicksCompose | examples/ledger-api/src/ledger.js:921-1043 | settling n and then m reaches the state of settling both at once, and the reports concatenate |
| LedgerSettlement.NoLimitIsAllPending | examples/ledger-api/src/ledger.js:947-948 | a limit equals no limit exactly when it reaches the queue's length |
| Pagination.PageOrderSorts | examples/ledger-api/src/ledger.js:85-92 | the page order loses nothing and is strict on distinct rows |
| Pagination.PageSize | examples/ledger-api/src/ledger.js:1055-1067 | a limit is a size from 1 to 100, 20 when absent, refused otherwise |
| Pagination.PageIsFront | examples/ledger-api/src/ledger.js:1070-1097 | a page is as much of what its cursor selects as its size allows, and names its last row as the next cursor exactly when rows are left (with a trailing page: whenever it is full) |
| Pagination.WindowIsRest | examples/ledger-api/src/ledger.js:1070-1086 | the cursor of a row selects exactly the rows after it, however many newer rows have come |
| Pagination.WalkIsExact | examples/ledger-api/src/ledger.js:1070-1097 | for any page sizes and appends between pages, with or without a trailing page, the walk ends, returns the rows of its first page's list exactly once in order, and issues no cursor twice |
| Pagination.OldCursorSkips | examples/ledger-api/src/ledger.js:1078-1085 | a cursor without an id loses rows exactly when others share its sequence |
| PaginationPolicy.Evaluate | packages/core/src/invariants.ts:466-529 | the policy passes exactly on two or more pages without a repeated item (under snapshot) or cursor and with none left; each failure names the first offender |
| PaginationPolicy.PagesAreAnswers | packages/core/src/invariants.ts:472 | a request counts as a page exactly when it matches, was answered in the 200s and has a body; pages keep their order |
| PaginationPolicy.CountIdentities | packages/core/src/invariants.ts:481-489 | the map of seen identities and the list of duplicates hold what the pages hold |
| PaginationPolicy.FindCursorRepeat | packages/core/src/invariants.ts:491-503 | the first page whose cursor an earlier page carried |
| PaginationPolicy.CompleteWalkConforms | packages/core/src/invariants.ts:466-528 | an exact and complete walk satisfies the policy |
| PaginationPolicy.LedgerWalkPasses | examples/ledger-api/src/ledger.js:860-918 | walking an account's history while any operations happen between pages ends, is exact, and satisfies the policy under snapshot consistency |
| Json.ReadsFirst | packages/core/src/match.ts:130-152 | what a path reads is the first of all it selects |
| FieldPath.ReadSegments | packages/core/src/match.ts:82-104 | the parsing loop computes the path's segments |
| FieldPath.Read | packages/core/src/match.ts:130-152 | the reading loop computes the selected node |
| FieldPath.PathReadsBack | packages/core/src/match.ts:82-104 | reading the text of a path gives the path exactly when every key is non-empty and free of dots, a key with brackets does not end in index steps of its own nor stand before one, and the last key does not end in white space |
| FieldPath.DottedKeyIsLost | packages/core/src/bindings.ts:179-194 | a path with a dotted key is never read back |
| BindingProducers.VisitsRead | packages/core/src/bindings.ts:179-194 | whatever the walk visits, its path selects the same value in the same body |
| BindingProducers.IndexProducers | packages/core/src/bindings.ts:162-177 | the index after one response |
| BindingProducers.IndexIsFaithful | packages/core/src/bindings.ts:162-177 | as long as what the response produces stands at paths that read back, every citation stays true; earlier producers win, and an echo of what the client sent is never a product |
| BindingProducers.ProductsAreIndexed | packages/core/src/bindings.ts:162-177 | every eligible product is indexed |
| BindingSites.AllVisited | packages/core/src/bindings.ts:179-194 | every member that is neither list nor object is walked, whatever place it stands at within twelve levels |
| BindingSites.ProductIsIndexed | packages/core/src/bindings.ts:162-194 | a text of four characters or more at such a place that may be bound and was not sent is in the index |
| BindingSites.PathIsCut | packages/core/src/bindings.ts:260-266 | a path is cut at its first question mark and first hash, whichever of them it has |
| BindingSites.InferenceVisitsSites | packages/core/src/bindings.ts:209-319 | inference looks every literal up once and in order: non-empty path segments, non-empty query values, top-level header texts, body texts outside secret references, each under its label |
| BindingSites.RecordsListSites | packages/core/src/bindings.ts:228-243 | one record a name, and its `into` lists exactly the labels of the literals that name was given to |
| BindingSites.NameIsKeyAndStep | packages/core/src/bindings.ts:216-224 | a snake_case response key names its value with the step; a list index at its end does not enter the name |
| BindingSites.CamelAgrees | packages/core/src/bindings.ts:77-88 | `accountId` and `account_id` give one name |
| BindingTokens.TokenFound | packages/core/src/bindings.ts:70-72 | a token is found where it was put unless its name begins with a digit |
| BindingTokens.SkipToken | packages/core/src/bindings.ts:357-371 | scanning past a token gives its value, or leaves the token when its name is no identifier |
| BindingTemplates.NameShape | packages/core/src/bindings.ts:216-226 | an assigned name is a token name exactly when the response key begins with no digit |
| BindingTemplates.FreshNumber | packages/core/src/bindings.ts:216-226 | numbering a taken name ends with one that is free |
| Bindings.Binder.NameFor | packages/core/src/bindings.ts:216-226 | one name per producer, kept across steps |
| Bindings.Binder.Bind | packages/core/src/bindings.ts:228-243 | a literal is bound, with its record, exactly as specified |
| Bindings.Binder.TemplatePath | packages/core/src/bindings.ts:260-288 | whole segments and whole query values only |
| Bindings.Binder.TemplateHeaders | packages/core/src/bindings.ts:290-300 | whole string values of the top-level headers |
| Bindings.Binder.TemplateBody | packages/core/src/bindings.ts:302-319 | every string leaf outside secret references |
| Bindings.Binder.InferBindings | packages/core/src/bindings.ts:209-257 | the whole rewriting, and the unchanged request when nothing binds |
| Bindings.Substitution.Sub | packages/core/src/bindings.ts:363-372 | the scanning loop, with the missing and unfit names it collects |
| Bindings.Substitution.ApplyBindings | packages/core/src/bindings.ts:357-395 | substitution through path, headers and body, and every problem in order |
| BindingRoundTrip.ResolveBindings | packages/core/src/bindings.ts:330-349 | the resolved variables, and exactly the records that have no scalar value as problems |
| BindingRoundTrip.InferenceIsMap | packages/core/src/bindings.ts:209-257 | for requests of produced values and reused tokens, threading names from literal to literal amounts to one map over the request |
| BindingRoundTrip.RoundTrip | packages/core/src/bindings.ts:209-395 | for a request that carries no token yet: inferred, resolved against the same responses and applied, nothing is reported and the request is the original exactly when no bound key begins with a digit, no bound path ends its head in a bare question mark, and no secret-reference headers are bound |
| BindingRoundTrip.DigitKeyIsSentLiterally | packages/core/src/bindings.ts:70-72 | a value under a key that begins with a digit is sent as its token, unreported |
| BindingRoundTrip.EmptyQueryIsDropped | packages/core/src/bindings.ts:260-288 | a bare question mark is dropped once a segment is bound |
| BindingReplay.ReplaySendsFreshValues | packages/core/src/bindings.ts:330-395 | replayed against any responses in which the records resolve, the request sent is the recorded one with each bound literal, and each token it reused from an earlier step, replaced by the value its path holds now |
| Match.ApplyMatchRules | packages/core/src/match.ts:230-247 | redact, exclude, normalize, compare, in that order |
| Match.QuietValuesNeverShow | packages/core/src/match.ts:223-247 | bodies that differ only in what one redaction or exclusion selects have one projection, whatever the other rules are |
| Match.KeysShow | packages/core/src/match.ts:174-187 | an object no rule reaches shows exactly its own keys in the projection |
| Match.KeyChangesShow | packages/core/src/match.ts:20-25 | a key added, removed or renamed where no rule reaches changes the projection |
| Match.FieldOrderNeverShows | packages/core/src/match.ts:183-198 | the keys of a projection ascend, and the order of an object's fields changes nothing |
| MatchShows.ChangeIsHidden | packages/core/src/match.ts:174-247 | for all rules whatever: two bodies that differ in one place, in the keys of an object or the value of a scalar, have one projection exactly when the rules overwrite the way to it or leave the change unseen along the way, marks entered and undone included |
| MatchShows.KeyChangeIsHidden | packages/core/src/match.ts:20-25 | where no rule lies below an earlier `normalize` or `compare`, a change of keys is hidden exactly by a redaction or exclusion at or above the object, or a `length` that counts a list above it |
| MatchShows.ValueChangeIsHidden | packages/core/src/match.ts:174-221 | likewise a change of value is hidden exactly by those; or by a `length` on two strings of one length; or when no `compare` is at or above it and both values have one JSON type |
| MatchShows.ComparedValueShows | packages/core/src/match.ts:190-202 | with a `compare` at or above a scalar and no redaction, exclusion or `length`, every change of it changes the projection |
| MatchShows.UncomparedValueShowsItsType | packages/core/src/match.ts:174-187 | with none of them, exactly a change of its JSON type does |
| MatchShows.OneRuleShows | packages/core/src/match.ts:174-221 | what a place shows that one rule selects: the redaction or exclusion marker, the compared value, the length of a list or string |
| MatchShows.UntouchedShows | packages/core/src/match.ts:174-187 | a place no rule meets shows its type, a list its length |
| MatchShows.BelowAMarkIsLost | packages/core/src/match.ts:240-245 | a rule below an earlier `normalize` or `compare` selects nothing, unless it enters by the mark's own properties |
| MatchShows.EnteredMarkIsLost | packages/core/src/match.ts:107-127 | and when it does the mark is gone: a value a `compare` selects then shows its type only |
| MatchShows.RenameInListIsHidden | packages/core/src/match.ts:210-216 | a field renamed inside a list under `length`, or under `exclude`, does not show; under `compare` it does |
| Match.SortedRuleIgnoresOrder | packages/core/src/match.ts:210-221 | under `sorted` a list's projection is the same, text for text, in any order of its elements |
| Status.StatusesEquivalent | packages/core/src/match.ts:266-281 | two statuses are equivalent exactly when equal or in one declared group |
| Status.CanonicalStatus | packages/core/src/match.ts:292-306 | the token is the class name, or the lowest member, of the first group |
| Status.NormalizeGroups | packages/core/src/match.ts:360-378 | groups are normalized, or the configuration is refused exactly when one is malformed |
| Status.GroupMeans | packages/core/src/match.ts:360-378 | a declared class stands for the statuses of its first digit however it is written, a list for its entries |
| Status.EquivalenceWhen | packages/core/src/match.ts:266-281 | equivalence is reflexive and symmetric, and transitive exactly when overlapping groups agree |
| Status.CanonicalDecides | packages/core/src/match.ts:283-306 | for normalized groups, sharing a token is the same as being equivalent exactly when the members of each group get one token and lists with one lowest member relate the statuses they give it to; disjoint groups always do |
| Status.OverlapBreaksEquivalence | packages/core/src/match.ts:266-306 | in [200, 201], [200, 202] equivalence is not transitive and inequivalent statuses share a token |
| Status.MemberOrderIsIrrelevant | packages/core/src/match.ts:283-290 | the order of a group's members never changes a token |
| Status.GroupOrderMatters | packages/core/src/match.ts:283-290 | the order of the groups never changes a status's token exactly when all groups that have it give it one token |
| OpenApi.Resolver.ResolveNode | packages/core/src/openapi.ts:248-279 | the counting, reporting resolver does what the specification says, error for error |
| OpenApi.Resolver.Expand | packages/core/src/openapi.ts:256-273 | a reference is expanded, or marked and reported when it is already being expanded |
| OpenApiRefs.ReadPointer | packages/core/src/openapi.ts:305-324 | following a JSON Pointer segment by segment |
| OpenApiRefs.PointerReadsBack | packages/core/src/openapi.ts:311-324 | a key with slashes and tildes is found through the pointer that escapes it as RFC 6901 section 4 says |
| OpenApiRefs.EmptyKeyReadsDocument | packages/core/src/openapi.ts:311 | the pointer `/` reads the whole document, where RFC 6901 names the member with the empty key |
| OpenApiTheorems.ResolvedIsClean | packages/core/src/openapi.ts:248-279 | when every `$ref` is a string, the resolved document has none left |
| OpenApiTheorems.CyclesAreReal | packages/core/src/openapi.ts:256-264 | a successful resolution reports a cycle only when some walk of references from the node returns to itself or to what is being expanded, and whenever one does, as long as references with references beside them point at plain objects |
| OpenApiTheorems.CyclesBesideAreLost | packages/core/src/openapi.ts:267-269 | beside a reference to a list or scalar, cycles go unreported |
| OpenApiTheorems.BudgetOnlyCuts | packages/core/src/openapi.ts:248-253 | the node budget only cuts off: a resolution that did not run out is the same under any larger budget |
| OpenApiValues.ReferenceResolves | packages/core/src/openapi.ts:254-279 | a resolved reference reads, key by key, as the member beside it resolved where there is one, and as the expanded target elsewhere |
| OpenApiValues.ObjectResolves | packages/core/src/openapi.ts:274-279 | an object that is no reference keeps each key with its resolved value |
| OpenApiValues.ListResolves | packages/core/src/openapi.ts:250-253 | a list keeps its elements, each resolved |
| OpenApiValues.PlainStays | packages/core/src/openapi.ts:248-279 | a node without references and with distinct keys resolves to itself |
| Live.LiveReporter.Draw | packages/cli/src/live.ts:283-302 | an unforced draw within 100 ms changes nothing; any other leaves the permanent rows and, below them, exactly the rows of the active cases |
| Live.LiveReporter.Print | packages/cli/src/live.ts:277-281 | a permanent text joins the permanent rows and the live ones follow it |
| Live.LiveReporter.OnEvent | packages/cli/src/live.ts:150-254 | as long as the live rows fit the width and leave a row of the screen free: the rows are all permanent ones in order and the last-drawn live ones, after any event; each event's effect on the cases is as specified, and an unforced event redraws exactly when 100 ms have passed |
| Live.LiveReporter.Finish | packages/cli/src/live.ts:256-275 | at the end no live row is left |
| LiveCases.ActiveBetween | packages/cli/src/live.ts:150-254 | over any run of events a case has rows exactly from its start to its end |
| LiveCases.StepShown | packages/cli/src/live.ts:172-184 | the step shown is the last one started |
| LiveCases.RetryShown | packages/cli/src/live.ts:185-193 | a countdown runs from a retry to the next step, result or phase, to the deadline the retry set |
| LiveCases.ModeShown | packages/cli/src/live.ts:172-245 | the mode word is a phase's own until a step starts or a heal turns; then it is the actor's again |
| LiveCases.ActorShown | packages/cli/src/live.ts:202-219 | the actor's word is the case's mode, `healing` from a heal and `checking` from a resume |
| LiveCases.SummaryShown | packages/cli/src/live.ts:172-245 | the summary is the last step's with the errors after it appended; a phase leaves none |
| LiveCases.CostShown | packages/cli/src/live.ts:194-201 | the cost is the last one reported |
| LiveCases.TokensShown | packages/cli/src/live.ts:194-201 | the tokens are the last ones reported |
| LiveCases.PhaseShown | packages/cli/src/live.ts:220-245 | a case is in a phase from a phase to the next step |
| LiveCases.ModelShown | packages/cli/src/live.ts:220-245 | the grading model from the first gate or grading on, if the case names one; the actor's before |
| LiveCases.RowsInStartOrder | packages/cli/src/live.ts:289-295 | the rows of the active cases stand in the order the cases started |
| LiveCases.RowsOf | packages/cli/src/live.ts:309-352 | two rows a case, vitals and detail |
| LiveCases.ActionSays | packages/cli/src/live.ts:342-344 | the detail is one line and never empty: the countdown while a retry is pending, else the summary, else the phase or that the case is starting |
| LiveCases.ClipKeepsFront | packages/cli/src/live.ts:345-347 | a clipped text is the front of the text and an ellipsis, and fills the room |
| LiveCases.CountdownIsCeiling | packages/cli/src/live.ts:77-82 | the countdown is whole seconds rounded up, 0 exactly from the deadline on |
| Live.DetailFits | packages/cli/src/live.ts:341-351 | the detail row fits in width - 1 columns exactly when there is room to clip in or nothing to clip |
| Live.OneLineIsOneRow | packages/cli/src/live.ts:98-101 | a flattened text has the same ink, single spaces inside and bare edges |
| Screen.ChunksSpell | packages/cli/src/live.ts:277-301 | the rows a text takes spell it, all but the last full |
| Screen.DrawKeepsPermanent | packages/cli/src/live.ts:296-301 | redrawing a region shorter than the screen replaces the live rows and touches nothing above them |
| Screen.EraseUndoesDraw | packages/cli/src/live.ts:271-275 | drawing and erasing restores the rows exactly when every line fits the width and the region is shorter than the screen |
| Screen.TallRegionIsLeftBehind | packages/cli/src/live.ts:296-301 | a region as tall as the screen or taller leaves the rows that scrolled away behind when it is drawn again |
| Pairing.TakenOrLeft | packages/core/src/gate.ts:502-522 | every right item is somebody's twin or left over, never both |
| Pairing.TwinsInOrder | packages/core/src/gate.ts:502-510 | of one key, earlier left items take earlier right items, and have one whenever a later one has |
| Pairing.NoneSkipped | packages/core/src/gate.ts:502-510 | a right item before somebody's twin and of its key is the twin of somebody before |
| Pairing.PairCount | packages/core/src/heal.ts:235-240 | for each key there are as many pairs as the shorter side has |
| Gate.SelectableRequests | packages/core/src/gate.ts:470-523 | the splicing loop joins each embedded request with the next HAR row of its method and path, and the rest follow; the embedded requests come first, in order |
| Gate.RowsPerKey | packages/core/src/gate.ts:470-523 | for each method and path there are max(embedded, HAR) rows, embedded ones first and in order |
| Gate.EachHarOnce | packages/core/src/gate.ts:502-522 | each HAR row is used exactly once |
| Gate.RowsSay | packages/core/src/gate.ts:502-522 | a joined row has the envelope's status, media type and step where it recorded them, its twin's elsewhere, and the twin's body; without a twin 0, no media type and no body; the rows after are HAR rows unaltered |
| Gate.HarRowOf | packages/core/src/gate.ts:475-500 | every HAR entry that is no observation is one row, in order, with the step of the first numbered envelope that names it |
| Gate.EmbeddedOnce | packages/core/src/gate.ts:480-486 | every recorded request that is no observation is embedded once, in order, with its envelope's step |
| Gate.HarOwners | packages/core/src/gate.ts:475-479 | a HAR entry belongs to the first numbered envelope that claims it |
| Gate.StepsOf | packages/core/src/gate.ts:526-530 | the distinct steps of some requests, ascending |
| HealDiff.DiffProjections | packages/core/src/heal.ts:219-251 | the status signal, then renames, removals and additions, as the pairing says, each changed path once and no other |
| HealDiff.EachPathOnce | packages/core/src/heal.ts:219-251 | for any two projections, every path only the first has is reported gone once, every path only the second has new once, and no other path at all |
| HealDiff.PlacesAreListed | packages/core/src/heal.ts:271-285 | every place of a projection, by keys and first elements, is among its paths |
| HealDiff.ListedArePlaces | packages/core/src/heal.ts:271-285 | and every path is the text of such a place |
| HealDiff.ParentOfKey | packages/core/src/heal.ts:234-237 | the parent of a path with one more key is the path |
| HealDiff.RenamesPerParent | packages/core/src/heal.ts:233-240 | below each parent there are min(removed, added) renames and none crosses parents |

## Left out

- ZipRoundTrip.RoundTrip: both directions are proved except when the end record itself clashes with an escape and the directory's last 20 bytes happen to begin like a ZIP64 locator; there the reader looks for the directory where those bytes, taken from a name, point, and what it finds is not stated.
- OpenApiTheorems.CyclesAreReal: that a cycle is always reported is stated where references with references beside them point at plain objects; what a resolution reports of members beside a reference that expands to something else through further references is not characterised.
- MatchShows.ValueChangeIsHidden: in the words of the rules it is stated where no rule lies below an earlier `normalize` or `compare`; a rule below one selects nothing or undoes it, and `MatchShows.ChangeIsHidden` covers those by following the marks along the way. The same holds of `MatchShows.KeyChangeIsHidden`.
- BindingRoundTrip.RoundTrip: a request that already carries tokens cannot come back as it was; what replay makes of it is `BindingReplay.ReplaySendsFreshValues`. Tokens in the middle of a literal are not treated.
- Journey.Journey.ExecuteJourney: the values of the scans, timings, tokens, costs and events are not part of an envelope; `nearestAnchor` and the heal classification are diagnostics and are not modelled.
- Live.LiveReporter.OnEvent: the vitals row is an arbitrary function of a case and the column widths; resizing and characters wider than one column are not modelled; ANSI styling counts as no columns.
- LedgerInvariant.BooksBalance: money is a mathematical integer, so the floating-point limits of the original are not modelled; that two draws of the id generator never collide is a premise.
- Budget.Resolve: budgets are whole numbers or not numbers; fractional caps are not modelled, nor is the start-up stagger of the workers.
- Pool: promise scheduling is represented by the order in which the atomic steps happen to come; task bodies are opaque and may release and settle at any moment.
- Bundle bytes: DEFLATE and SHA-256 are not modelled; stored bodies are raw bytes, names are bytes rather than decoded UTF-8, and checksums are numbers rather than their hexadecimal text.
- Ledger faults, the `terse-optionals` and `wide-ids` variants, `adminReset` in mid-history, reading operations other than entry listing, HTTP routing and bearer parsing.
- `stableStringify` is taken to be injective: a remembered fingerprint is the request itself. Cursor encoding and id text are injective parameters.
- The listing of accounts without closed ones, which can shrink between pages.
- Binding heuristics (key words, UUIDs, ULIDs, declared paths, secrets) are one arbitrary predicate; header and body values that are not JSON, and the check that a request was sent before its echo, enter as given sets.
- Object members are kept in insertion order; JavaScript's reordering of integer-like keys, inherited property names and `__proto__` are not modelled.
- Texts are sequences of characters: UTF-16 code units and Unicode case folding are not modelled.
- Percent-decoding in JSON Pointers, locating a file reference and recognising network references are parameters of the resolver.
- Browser, Appium and HTTP drivers, model calls, grading, the file system, process signals, retries, reports, command wiring and secret redaction.

# Verified model of the ticketing service's deterministic cores

The service sells and scans tickets. Around that it pays out event revenue, runs an ETL job
into two summary tables, keeps WebSocket and chat sessions, counts scans and transfers,
flags fraud, recommends events and signs payloads. This project models seven of these parts
in Dafny, with the code's own branches and constants, and proves what each of them keeps.

| files | part of the service |
|---|---|
| `RevenueModels`, `Waterfall`, `FeeTable`, `RevenueSharing`, `RevenueTheorems`, `RevenueDefaults`, `RevenueRecords`, `Money` | revenue distribution |
| `EtlTransform`, `EtlRecords`, `EtlValidation`, `EtlLoad`, `EtlRuns`, `Extract`, `ExtractLinks`, `ExtractEchoes` | extract, transform, validate, load |
| `ScanManager`, `ScanHistory`, `Chat`, `ChatOrder`, `ChatHistory` | concurrent session managers |
| `Analytics`, `AnalyticsDays` | day counters and raw logs |
| `FraudEvents`, `Fraud`, `FraudTheorems`, `FraudMeaning`, `VelocityRule`, `VelocityOrder`, `VelocityBlocks`, `VelocityHiding` | fraud rules |
| `Similarity`, `Recommender` | recommendations |
| `Base64Url`, `Base64Layout`, `Base64Lenient` | signature encoding |
| `Wrappers`, `Durations`, `Sorting`, `Counting` | shared: results, lengths of time, Python's stable sort, counting and filtering |

How to read the model:

- **Money** is an exact `real`. Python's `round(x, 2)` is rounding to the nearest cent with ties
  to the even cent (`Money.Round2`), a `NUMERIC(18, 2)` column rounds ties away from zero
  (`Money.Numeric2`).
- **Objects that change** (payout records, the database, the managers, the analytics service)
  are classes. Each method is proved to move the object's fields by a function of the old
  fields, and the theorems are about that function.
- **Concurrency**: a part of a method that runs under the asyncio lock is one action of a state
  machine, and so is every awaited send. A run is any sequence of enabled actions. Whether a
  send fails is free, and the clock never goes back. This allows more than one event loop does,
  where taking a free lock does not suspend and a held lock is passed on in turn: what is proved
  of all runs holds all the more, and properties that rest on the schedule say what they need of it.
- **Sorting**: `sorted` and `list.sort` are one insertion sort. `StableSortSpec` and
  `StableSortUnique` show that it is the only function that sorts stably.
- **Outside results**, namely the exchange rate, stored stakeholders, HTTP outcomes, whether a
  commit works, clock readings and the square root, are parameters that range over all values.

Findings. Each names its theorem over all inputs or runs first; a single input or run is only
added as a witness:

- Payouts can be negative. From four payees on the exact threshold is
  `0.01 * ((n - 1) * (n / 2) - n) + 0.005` of net revenue (`/` rounding down): above it no payout
  is ever negative, and no smaller bound works (`SafeNetIsExact`). Three or fewer payees are
  always safe (`FewPayeesAreSafe`).
- A rule with an empty role list shadows all rules after it (`OpenRuleShadowsLaterRules`). The
  service's own default rules have empty role lists, so default payouts are all booked under the
  platform-fee rule (`DefaultRulesPayEveryone`).
- The default percentages add up to 95. The adjustment meant for rounding gives the remaining
  twentieth to the organizer, who is paid 85% instead of 80% (`DefaultSplit`). Of a loss, the
  platform is charged all and the organizer four fifths, which the venue is paid (`DefaultLoss`).
- The dry-run diff looks at figures only. A row it calls unchanged has a new figure after the load
  only if its amount was exactly half a cent away from the stored one
  (`UnchangedMeansNoNewFigures`, witness `HalfCentIsMissed`). Other columns change unseen
  (`QuietBatchStaysIff`, `RenameIsMissed`); an event row is in fact rewritten by every later run
  that names it, unchanged or not (`LaterRunRewritesEventRows`).
- A stats read between the raw commit and the counter update, which run in plain functions on a
  thread pool, counts that entry twice exactly when the event has no record yet and the read stores
  one (`ReadInBetween`).
- `determine_severity` documents a level `low`. No batch of events is ever given it (`SeverityMonotone`).
- The velocity check can depend on the input order when scans without a place tie with scans that
  have one. If there are no such ties it does not (`VelocityIgnoresOrder`). Some listing of the events is
  reported exactly when two scans of a ticket at different named places lie within the window and no
  scan of the ticket strictly between them in time (`SomeListingIsReported`); some listing is passed
  over exactly when at each time the nameless scans suffice to keep the places apart
  (`SomeListingIsPassedOver`); and the order matters exactly when both hold (`OrderMattersIff`,
  witness `VelocityDependsOnOrder`).
- The page loop may never end. Against an upstream with a fixed total and non-negative page numbers
  it ends within as many requests as there are pages or not at all (`EndsWithinTotalOrNever`). It
  ends if no answer claims an earlier page than was asked for (`ForwardEchoesEnd`); if all claim the
  same page the exact condition is `ConstantEchoEndsIff`.
- For a user without history the recommender's documentation promises the 3 most popular events, and
  a comment says only unpurchased ones. The code returns `top_n` of them, and there is nothing to
  exclude. A negative `top_n` drops events from the end, as Python slices do (`GetItemRecommendations`).
- The base64url decoder ignores characters outside the alphabet but counts them when it computes the
  padding (`DecodeVerdict`), so one such character, wherever it stands, makes every text fail that
  needs padding (`OneIgnoredCharacter`). It also ignores unused bits, so only canonical strings come back
  unchanged (`CanonicalStrings`).

Two properties rest on the scheduling, and the service has both:

- The log of escalations is in clock order, because the service does not suspend between reading the
  clock and taking the lock (`UnsuspendedIsInTurn`, `FairLogIsInOrder`; any fair lock would do). In
  general that holds exactly as long as no task overtakes another (`LogInOrderUnlessOvertaken`).
- A cleanup pass removes exactly the sockets that are stale by its clock reading when it removes
  them, because nothing is awaited between its two lock sections (`UninterruptedSweepIsExact`). In general a socket is no longer stale
  when it is removed exactly if a broadcast or a connect came in between (`SweptStaleIffNotRefreshed`).

`Chat.EscalationsCanCommitOutOfOrder` and `ScanManager.FreshSocketCanBeSwept` are runs of the state
machines that show what an unfair lock, or an await between the sections, would allow. The service
cannot take them.

`dafny verify dfyconfig.toml` checks the whole project.

## Model

| member | source | states |
|---|---|---|
| `Money.HalfEvenIs` | src/revenue_sharing_service.py:233-253 | cents chosen by `round(x, 2)`: the only integer nearer than a half, or the even one at exactly a half (both directions) |
| `Money.Round2Is` | src/revenue_sharing_service.py:233-253 | `round(x, 2)` is the nearest whole cent, at a tie the even one (both directions) |
| `Money.Round2Error` | src/revenue_sharing_service.py:251-253 | rounding moves an amount by at most 0.005, gives whole cents, and leaves whole cents alone |
| `Money.Numeric2Error` | src/etl/__init__.py:281-290 | storing in `Numeric(18, 2)` moves revenue by at most 0.005; any whole-cent amount nearer than that is the stored one |
| `Money.Numeric2Is` | src/etl/__init__.py:281-290 | a `Numeric(18, 2)` column keeps the nearest whole cent, at a tie the one further from zero (both directions) |
| `Sorting.StableSortSpec` | src/revenue_sharing_service.py:258-271 | the sort by key is ascending, a permutation, and keeps ties in input order |
| `Sorting.StableSortUnique` | src/revenue_sharing_service.py:271 | those properties determine the result, so no other order can come out of `sorted` |
| `RevenueTheorems.PayeesAreTheMatchedInPriorityOrder` | src/revenue_sharing_service.py:204-210 | stakeholders are served in stable priority order, and exactly those with an applicable rule are paid, each as often as listed |
| `RevenueRecords.RuleOfStakeholder` | src/revenue_sharing_service.py:273-281 | the rule is the first one that lists the role, has it in its name (small letters, no spaces), or lists no roles; none if there is no such rule |
| `RevenueRecords.RankOfStakeholder` | src/revenue_sharing_service.py:264-269 | the rank is the priority of the first rule that lists the role or has it in its name, 999 without one |
| `RevenueTheorems.OpenRuleShadowsLaterRules` | src/revenue_sharing_service.py:273-281 | a rule without roles takes everyone no earlier rule took, so later rules are never used |
| `RevenueTheorems.WaterfallClosedForm` | src/revenue_sharing_service.py:206-242 | the i-th payee gets min(claim, max(0, balance minus all earlier claims)), although the loop subtracts paid amounts, not claims |
| `RevenueTheorems.WaterfallStaysWithinBalance` | src/revenue_sharing_service.py:225-242 | no payee gets more than the claim or less than 0, and together never more than the balance |
| `RevenueTheorems.NothingAfterACut` | src/revenue_sharing_service.py:225-242 | once a claim is cut short all later payees get 0, so at most one claim is paid in part |
| `RevenueSharing.RevenueSharingService.ServeInOrder` | src/revenue_sharing_service.py:206-242 | the loop's payout records are fresh, describe the matched stakeholders in order, and pay the rounded waterfall amounts |
| `RevenueSharing.RevenueSharingService.Pay` | src/revenue_sharing_service.py:213-239 | one turn pays the percentage claim within its limits, cut at the remaining balance, rounded to cents |
| `RevenueSharing.RevenueSharingService.ShareWithinLimits` | src/revenue_sharing_service.py:214-221 | the percentage of net revenue; a present, nonzero minimum above it, else a present, nonzero maximum below it, replaces it |
| `RevenueRecords.AmountsOfRecords` | src/revenue_sharing_service.py:206-242 | every record's gross amount, for any sign: the share within its limits or what the earlier amounts left, rounded, in fields of the payees only |
| `RevenueRecords.RecordsKeepTheMaximum` | src/revenue_sharing_service.py:218-221 | no gross amount is above the rounded maximum unless the minimum overrides it |
| `RevenueRecords.RecordsKeepTheMinimum` | src/revenue_sharing_service.py:218-226 | none is below the rounded minimum, unless the balance cut it and nobody behind gets anything |
| `RevenueRecords.PayoutsAreAdjusted` | src/revenue_sharing_service.py:244-254 | up to a cent left over nothing changes; beyond, only the first largest amount changes, by the rounded difference |
| `RevenueSharing.RevenueSharingService.AdjustLargest` | src/revenue_sharing_service.py:244-256 | a difference of more than a cent lands on the first largest payout and on no other; returns what is really left |
| `RevenueSharing.RevenueSharingService.CalculateDistributions` | src/revenue_sharing_service.py:191-256 | the records' final amounts are the adjusted rounded waterfall, their gross amounts the unadjusted one, and the returned remainder is net revenue minus what they hold |
| `RevenueSharing.ResidualBound` | src/revenue_sharing_service.py:244-256 | for either sign of net revenue and any percentages and limits: residue at most 0.01, at most 0.005 if the adjustment fired, 0 if it fired and net is whole cents; payouts are whole cents |
| `RevenueSharing.RevenueSharingService.CalculateFees` | src/revenue_sharing_service.py:106-137 | the fee table is the computed fees overwritten by the caller's; fails exactly when the rate lookup fails for a currency other than USD |
| `FeeTable.FeesDeducted` | src/revenue_sharing_service.py:49-53 | total deducted: the caller's fees, plus processing and platform fee unless the caller names them |
| `RevenueRecords.FeesOfInput` | src/revenue_sharing_service.py:110-137 | the total deducted in the input's own terms: rate, ticket count, converted fixed fee, platform percentage, the caller's fees |
| `RevenueRecords.RuleTotalIsSum` | src/revenue_sharing_service.py:66-67 | the 100% guard compares the sum of all rule percentages |
| `RevenueSharing.RevenueSharingService.CalculateRevenueShares` | src/revenue_sharing_service.py:27-104 | money is conserved: gross = fees + paid out + remaining with the net flag on, gross = paid out + remaining with it off; remainder at most a cent if anyone is paid; fees, payout records and rule ids as specified; errors exactly for an unavailable rate, else for rules above 100% |
| `RevenueTheorems.NoNegativePayout` | src/revenue_sharing_service.py:224-254 | with percentages and limits >= 0, no final payout is negative above `SafeNet(n)` |
| `RevenueTheorems.SafeNetIsExact` | src/revenue_sharing_service.py:248-254 | for n >= 4 a bound keeps all payouts non-negative for all inputs if and only if it is at least `SafeNet(n)` |
| `RevenueTheorems.EqualSplitGoesNegative` | src/revenue_sharing_service.py:248-254 | everywhere in a gap of at least half a cent just below `SafeNet(n)` an equal split among n charges somebody |
| `RevenueTheorems.FewPayeesAreSafe` | src/revenue_sharing_service.py:248-254 | with up to three payees no payout is negative at any net revenue >= 0 |
| `RevenueTheorems.QuadraticBoundIsSafe` | src/revenue_sharing_service.py:224-254 | net revenue of at least 0.005 n (n + 1) is always enough |
| `RevenueDefaults.DefaultOrder` | src/revenue_sharing_service.py:139-189 | by the names of roles and rules the default order is platform, organizer, venue |
| `RevenueDefaults.DefaultRulesPayEveryone` | src/revenue_sharing_service.py:162-189 | under the default rules every stakeholder is paid, whatever the role, and every payout is booked under `platform_fee_rule` |
| `RevenueDefaults.DefaultSplit` | src/revenue_sharing_service.py:139-256 | with the default configuration and any net revenue >= 0 the organizer gets all but the two rounded fees: within a cent, within half a cent if the adjustment fires, exactly if it fires on whole cents; above 0.50 it always fires |
| `RevenueDefaults.DefaultLoss` | src/revenue_sharing_service.py:139-256 | with net revenue < 0 the platform's payout is the whole loss, the organizer's four fifths of it, and the venue gets what balances them, a positive amount below -0.05 |
| `EtlRecords.SaleIs` | src/etl/__init__.py:216-227 | what one raw sale counts for, by its own keys: the first nonempty one wins; 1 ticket, price 0 and today stand in; no event id, no sale |
| `EtlRecords.EventRowsAreSums` | src/etl/__init__.py:206-247 | an event row exists exactly for the ids the records name, and holds the sums of their quantities and amounts, the event's name and the time |
| `EtlRecords.DailyRowsAreSums` | src/etl/__init__.py:213-251 | the same per event and day |
| `EtlRecords.NamesAre` | src/etl/__init__.py:206-211 | the name is that of the last event record with the id |
| `EtlRecords.QuantityTimesPrice` | src/etl/__init__.py:220-222 | a batch with quantities, prices and no totals yields per event the sum of quantity times price |
| `EtlRecords.FirstSeenInOrder` | src/etl/__init__.py:229-240 | rows come in the order in which their keys first occur |
| `EtlTransform.TransformSummary` | src/etl/__init__.py:197-253 | both outputs, in first-seen order, hold per key the totals over the readable sales |
| `EtlTransform.Aggregate` | src/etl/__init__.py:213-236 | the two dicts filled in one pass hold for each key the sum over exactly the sales with that key |
| `EtlTransform.SummaryIsSumOfDailyRows` | src/etl/__init__.py:229-251 | tickets and revenue of an event row equal the sum over its sales and the sum of its daily rows |
| `EtlTransform.SummaryKeysDistinct` | src/etl/__init__.py:238-251 | no primary key occurs twice in either output |
| `EtlTransform.SummaryIgnoresSaleOrder` | src/etl/__init__.py:216-253 | permuting the sales permutes the rows and changes none |
| `EtlValidation.ValidateRows` | src/etl/__init__.py:55-123 | keeps, in order, exactly the rows that pass, and counts exactly the others |
| `EtlValidation.ValidationPartitions` | src/etl/__init__.py:55-123 | kept plus rejected is everything; validating again rejects nothing |
| `EtlValidation.ValidationKeepsKeysDistinct` | src/etl/__init__.py:55-123 | validation preserves distinct keys |
| `EtlLoad.Database.LoadPostgres` | src/etl/__init__.py:264-318 | both tables are upserted or neither changes; succeeds exactly when the database is reachable, no statement repeats a key and every value fits its column, in numbers |
| `EtlLoad.UpsertIs` | src/etl/__init__.py:297-318 | afterwards each key of the batch holds its rounded row and every other key what it held before |
| `EtlLoad.Database.DiffEtlOutput` | src/etl/__init__.py:437-523 | the dry run counts new, changed and unchanged rows of both tables and changes neither |
| `EtlLoad.DiffPredictsLoad` | src/etl/__init__.py:482-510 | for distinct keys `would_insert` is the growth of the table under the load, and the three counts sum to the rows |
| `EtlLoad.DiffAfterLoadIsUnchanged` | src/etl/__init__.py:482-510 | a dry run of the rows just loaded reports all of them unchanged |
| `EtlLoad.UpsertKeepsCents` | src/etl/__init__.py:281-290 | tables in whole cents stay so |
| `EtlLoad.UnchangedMeansNoNewFigures` | src/etl/__init__.py:489-495 | "unchanged" if and only if the load changes no figure or the amount is exactly half a cent off |
| `EtlLoad.HalfCentIsMissed` | src/etl/__init__.py:491 | 0.00 stored and 0.005 arriving: called unchanged, stored as 0.01 |
| `EtlLoad.QuietBatchStaysIff` | src/etl/__init__.py:297-318 | if the dry run finds nothing to do, the load leaves the table alone if and only if every row agrees in the columns not compared and in cents |
| `EtlLoad.RenameIsMissed` | src/etl/__init__.py:489-495 | a new event name with equal figures: nothing to do, another row stored |
| `EtlRuns.RunEtlOnce` | src/etl/__init__.py:530-588 | one run moves tables and run log as specified, raises exactly when it fails, and extracts since the last successful cursor |
| `EtlRuns.RunsFailOnlyForOutsideReasons` | src/etl/__init__.py:550-575 | what reaches the load never repeats a key, so a run succeeds if and only if extract and database work and all values fit |
| `EtlRuns.RejectedIs` | src/etl/__init__.py:548-586 | the logged rejected count is the number of rows that did not reach the load |
| `EtlRuns.CursorIsLatestSuccess` | src/etl/__init__.py:151-194 | over any runs the cursor never goes back, reaches every successful logged run and only moves to the finish of one |
| `EtlRuns.LastBatchWins` | src/etl/__init__.py:293-318 | after any batches a key holds the row of the last batch that names it, else what it held |
| `EtlRuns.TablesHoldLastLoadedValues` | src/etl/__init__.py:530-588 | over any runs each key of either table holds the value of the last successful run whose kept rows name it |
| `EtlRuns.RepeatedRunHasEmptyDiff` | src/etl/__init__.py:530-588 | after a successful run a dry run of its batch has nothing to insert or update |
| `EtlRuns.LaterRunRewritesEventRows` | src/etl/__init__.py:238-247 | after any earlier runs, a run that succeeds changes the stored row of every event it names and stamps it with its own time, whether or not the dry run calls it unchanged |
| `Extract.RequestWithRetry` | src/etl/extract.py:98-144 | at most 3 tries; only request errors and statuses 500 to 599 are retried; 2xx is returned, any other last outcome raised; never the "unreachable" raise; sleeps 0, 1 or 3 seconds in all |
| `Extract.ExtractEvents` | src/etl/extract.py:195-212 | follows the chain of pages to its end and returns all items in request order, or raises where a request raised |
| `ExtractLinks.WhichFieldWins` | src/etl/extract.py:69-95 | the next request by the answer's fields, one case per way to go on: which field is used when several are there, and how unreadable values and 0 count |
| `ExtractLinks.MorePagesAreAllRequested` | src/etl/extract.py:85-93 | if pages 1 to n - 1 say at either level that there is more and page n does not, exactly pages 1 to n are requested, in order |
| `ExtractLinks.LinkedPagesAreAllRequested` | src/etl/extract.py:75-91 | if each page names its successor in any of the four places, exactly the linked pages are requested, in order |
| `ExtractLinks.ExtractMorePages` | src/etl/extract.py:195-212 | extraction then returns the items of pages 1 to n |
| `ExtractLinks.ExtractLinkedPages` | src/etl/extract.py:195-212 | and those of the linked pages |
| `ExtractLinks.CollectedIsConcatenated` | src/etl/extract.py:207-208 | what is returned are the items of each page, one page after the other |
| `Extract.FixedPagesAreAllRequested` | src/etl/extract.py:69-95 | against an upstream with a fixed number of pages the loop ends and requests pages 1 to n once each, in order |
| `Extract.ExtractAllPages` | src/etl/extract.py:195-212 | extraction from such an upstream returns the items of all n pages concatenated |
| `ExtractEchoes.EndsWithinTotalOrNever` | src/etl/extract.py:69-95 | with a fixed total and any non-negative page numbers in the answers the chain ends if and only if it has ended after as many requests as there are pages |
| `ExtractEchoes.ForwardEchoesEnd` | src/etl/extract.py:79-84 | answers that never claim an earlier page than asked for end the chain within the total |
| `ExtractEchoes.ConstantEchoEndsIff` | src/etl/extract.py:79-84 | if every answer claims page c of n, the chain ends if and only if n = 0, c >= n or c = -1 |
| `ExtractEchoes.SamePageForever` | src/etl/extract.py:196-212 | otherwise page 1 is requested once and page c + 1 forever |
| `ScanManager.TicketScanManager.Connect` | src/manager.py:21-25 | adds the socket to both collections with the current time |
| `ScanManager.TicketScanManager.Disconnect` | src/manager.py:28-31 | removes the socket from both collections and touches no other |
| `ScanManager.TicketScanManager.UpdateActivityForAll` | src/manager.py:61-66 | every active socket, and no other, gets the current time |
| `ScanManager.TicketScanManager.ScanInactive` | src/manager.py:73-79 | finds exactly the sockets silent for longer than the timeout |
| `ScanManager.TicketScanManager.RemoveConnections` | src/manager.py:54-58 | removes exactly the listed sockets from both collections |
| `ScanManager.TicketScanManager.CleanupPass` | src/manager.py:73-86 | an uninterrupted pass removes exactly the sockets silent for longer than the timeout |
| `ScanManager.TicketScanManager.BroadcastScan` | src/manager.py:34-59 | an uninterrupted broadcast sends to every active socket once, counts it as active now, and removes exactly those it cannot reach |
| `ScanManager.RunKeepsInv` | src/manager.py:21-86 | in every interleaving both collections name the same sockets whenever the lock is free, and no activity lies in the future |
| `ScanManager.PassRemovesStaleOnly` | src/manager.py:72-86 | whatever runs between its two locked parts, a pass removes only sockets stale in its own scan, and leaves none silent since before its clock reading minus the timeout |
| `ScanManager.EmptyScanMeansFresh` | src/manager.py:76-81 | a scan that finds nothing has established the same |
| `ScanManager.SweptAndStillStale` | src/manager.py:81-85 | of the sockets about to be removed, those still stale are exactly those not touched since the scan |
| `ScanManager.SweptStaleIffNotRefreshed` | src/manager.py:72-86 | in every run such a socket is still stale if and only if no broadcast touch and no connect of it lies between scan and removal |
| `ScanManager.UninterruptedSweepIsExact` | src/manager.py:72-86 | with nothing but time passing between scan and removal, as in this code, a pass removes exactly the sockets that are stale by its clock reading when it removes them |
| `ScanManager.BroadcastRemovesFailedOnly` | src/manager.py:34-58 | a broadcast sends to everyone it saw before it removes anyone, and every socket it removes had one of its own sends fail |
| `ScanHistory.BroadcastRemovesExactlyTheFailed` | src/manager.py:38-58 | whatever interleaves, everybody active at the snapshot has been tried before the removal, and of the active sockets exactly those with a failed send of this broadcast are removed |
| `ScanHistory.TouchedBefore` | src/manager.py:36-39 | before its snapshot a broadcast has given every active socket the current time |
| `ScanHistory.PassReadsClock` | src/manager.py:72-73 | a pass compares with the clock at the time it woke up |
| `ScanHistory.ActiveIff` | src/manager.py:21-86 | in every state of every interleaving the active sockets are exactly those that connected and that no disconnect, broadcast removal or sweep took out since |
| `ScanHistory.ActivityIs` | src/manager.py:21-65 | a socket's activity is the clock of the last step that refreshed it, its own connect or any broadcast's touch |
| `Chat.ChatManager.EscalateConversation` | src/chat.py:204-223 | appends the escalation, clears the agent, and records its status and time, for this conversation only |
| `Chat.ChatManager.AssignConversation` | src/chat.py:259-265 | sets status and agent of this conversation only |
| `Chat.ChatManager.GetConversationStatus` | src/chat.py:298-308 | reports "open" and no agent for unknown conversations |
| `Chat.ChatManager.GetUnassignedQueue` | src/chat.py:310-328 | lists exactly the escalated conversations without an agent, once each, by ascending escalation time |
| `Chat.ChatManager.AssignEndpoint` | src/main.py:1046-1065 | assigns exactly the conversations that are escalated or assigned, and answers 400 without any change for all others |
| `Chat.RunKeepsInv` | src/chat.py:219-223 | in every interleaving with guarded assignments status, agent, time and log of each conversation fit together |
| `Chat.GuardStaysTrue` | src/main.py:1054-1060 | the endpoint's guard, read without the lock, still holds whenever the assignment takes it |
| `Chat.StatusTellsAgent` | src/chat.py:259-265 | escalated implies no agent, assigned implies an agent, and a conversation is not open if and only if an escalation of it was committed earlier |
| `Chat.QueueShowsLastEscalation` | src/chat.py:310-328 | in every reachable state a queue entry is an escalated conversation with the time and reason of one and the same escalation, its last |
| `ChatOrder.FairLogIsInOrder` | src/chat.py:211-223 | if escalations commit in the order in which they began, the log is ascending in time in every state of every run |
| `ChatOrder.UnsuspendedIsInTurn` | src/chat.py:211-219 | they do if nothing but time passes between clock reading and commit, as in this code |
| `ChatOrder.LogInOrderUnlessOvertaken` | src/chat.py:219-223 | for any scheduling: the log is ascending if and only if no commit so far overtook an escalation that had read the clock earlier and committed later |
| `ChatOrder.LoggedByCommit` | src/chat.py:219-220 | every log entry is the escalation of some commit of the run |
| `ChatHistory.LastCommitDecides` | src/chat.py:219-223 | in every interleaving a conversation's status, agent and escalation time are those of the last committed request about it, with the reading of the clock or the agent that request began with; a conversation without one is not on the board |
| `ChatHistory.RequestBegan` | src/main.py:1054-1060 | every request in flight was begun by its own task, an assignment with the guard true, and is not committed yet |
| `Analytics.AnalyticsService.Log` | src/analytics/service.py:32-80 | appends exactly one raw row, then updates the counters; a failed update is swallowed, a failed insert, or a scan or transfer without an event, raises and changes nothing |
| `Analytics.AnalyticsService.UpdateAnalyticsStats` | src/analytics/service.py:597-653 | adds the entry to the latest record if that is of today, else to a new one |
| `Analytics.AnalyticsService.GetStatsForEvent` | src/analytics/service.py:191-266 | returns the latest record, or recomputes from the raw logs and stores the result if the event has none |
| `AnalyticsDays.OneRecordPerDay` | src/analytics/service.py:607-640 | in every sequential run with a clock that does not go back, an event has exactly one record per day on which something was counted, with that day's successful updates, plus all its earlier raw rows if a read recomputed it then |
| `AnalyticsDays.LatestRecordIsLastDay` | src/analytics/service.py:197-213 | so what a read returns from a record are the counts of the event's last such day |
| `AnalyticsDays.RawBeforeIsRaw` | src/analytics/service.py:216-230 | the recomputed counters are the numbers of the calls that logged each kind of row |
| `Analytics.CountersPlusLostAreRaw` | src/analytics/service.py:32-80 | after every call of any sequential run the day records of an event plus its lost updates equal its raw rows, for each of the seven counters |
| `Analytics.CountersAgreeWithRawLogs` | src/analytics/service.py:191-266 | the records never exceed the raw rows, and equal them when no update of the event failed, recomputations included |
| `Analytics.RecordsAreBalanced` | src/analytics/models.py:78-91 | in every reachable state each record has scans = valid + invalid and transfers = successful + failed |
| `Analytics.RawIsBalanced` | src/analytics/service.py:216-228 | the recomputed counters are balanced too |
| `Analytics.ReadInBetween` | src/analytics/service.py:191-266 | what a read between raw commit and update does to any counter: balanced books stay balanced if and only if the event had a record or the read did not commit |
| `Analytics.ReadInBetweenCountsTwice` | src/analytics/service.py:214-244 | otherwise the entry is counted twice, whatever was lost before |
| `Fraud.CheckFraudRules` | src/fraud.py:5-75 | the triggered set is exactly the set of rules whose declarative statement about the events holds |
| `FraudMeaning.SameIpInNumbers` | src/fraud.py:12-25 | more than 3 purchases from one address within 600 seconds, counted by position |
| `FraudMeaning.TransfersInNumbers` | src/fraud.py:27-35 | more than 1 transfer of a ticket |
| `FraudMeaning.UserDayInNumbers` | src/fraud.py:37-48 | more than 5 purchases of a user on one day |
| `FraudMeaning.TravelInNumbers` | src/fraud.py:50-65 | two scans of a ticket at different places at most 1800 seconds apart |
| `FraudMeaning.BulkInNumbers` | src/fraud.py:67-73 | five times the quantity reaches a positive capacity |
| `FraudMeaning.SeverityIs` | src/fraud.py:78-99 | `none` exactly for no rule, `high` exactly with one of four rules, `medium` exactly for duplicate transfers without them |
| `Fraud.CheckSameIp` | src/fraud.py:12-25 | fires if and only if some closed 600-second interval anywhere holds more than three purchases from one IP |
| `Fraud.AnchoredWindow` | src/fraud.py:21-24 | no interval holds more purchases than the best one that starts at a purchase |
| `FraudTheorems.BurstInSortedTimes` | src/fraud.py:19-25 | equivalently, some four consecutive sorted times span at most 600 seconds |
| `Fraud.CheckTransfers` | src/fraud.py:27-35 | fires if and only if some ticket was transferred more than once |
| `Fraud.CheckUserDay` | src/fraud.py:37-48 | fires if and only if some user bought more than five times on one day |
| `Fraud.CheckTravel` | src/fraud.py:50-65 | fires if and only if some ticket has any two scans at different places at most 1800 seconds apart |
| `Fraud.NeighboursDecideTravel` | src/fraud.py:56-65 | looking at neighbours in time order decides the all-pairs question, whatever the order and ties of the input |
| `Fraud.CheckBulk` | src/fraud.py:67-73 | fires if and only if some purchase takes a fifth or more of a positive capacity |
| `FraudTheorems.FiresMonotone` | src/fraud.py:5-75 | adding events never withdraws a rule |
| `FraudTheorems.FiresIgnoresOrder` | src/fraud.py:5-75 | each rule depends only on the multiset of events |
| `FraudTheorems.SeverityMonotone` | src/fraud.py:78-99 | more events never lower the severity, and `low` never occurs |
| `VelocityRule.CheckVelocityImpossibleLocations` | src/velocity_rule.py:14-40 | fires if and only if two neighbouring named scans of a ticket differ in place within the window |
| `VelocityRule.VelocityImpliesTravel` | src/velocity_rule.py:24-40 | with the default window it implies the impossible-travel rule |
| `VelocityRule.VelocityIsTravelWhenNamed` | src/velocity_rule.py:24-40 | it is equivalent to that rule when every scan has a non-empty location |
| `VelocityOrder.VelocityIgnoresOrder` | src/velocity_rule.py:30-39 | unless a scan without a place ties with one of its ticket that has one, the verdict is the same for all orders of the input: two unseparated scans at different named places within the window |
| `VelocityOrder.SomeListingIsReported` | src/velocity_rule.py:30-39 | for any events some order is reported if and only if there are two such scans |
| `VelocityHiding.SomeListingIsPassedOver` | src/velocity_rule.py:30-39 | some order is not reported if and only if each time of a ticket has a nameless scan between any two places and at each open end, and times within the window meet in an open or equal end |
| `VelocityHiding.OneBlankPerPlaceSuffices` | src/velocity_rule.py:30-39 | as many nameless scans as places at each time of each ticket suffice for any window |
| `VelocityHiding.OrderMattersIff` | src/velocity_rule.py:30-39 | the verdict depends on the order if and only if some order is reported and some is not, each by its condition on the events |
| `VelocityBlocks.CalmNeedsBlanks` | src/velocity_rule.py:35-39 | how many nameless scans any order of simultaneous scans needs so that no two neighbours differ in place |
| `VelocityBlocks.Lay` | src/velocity_rule.py:35-39 | and that so many suffice |
| `VelocityRule.VelocityDependsOnOrder` | src/velocity_rule.py:30-39 | three simultaneous scans, one without a place, whose verdict depends on the order |
| `Similarity.OverlapBound` | src/recommender.py:35-41 | Cauchy-Schwarz for buyer sets in squared form, with its case of equality |
| `Similarity.CosineRange` | src/recommender.py:35-41 | similarity of bought events lies in [0, 1], is 1 iff the buyers are the same and 0 iff disjoint; the zero-magnitude branch is never taken |
| `Similarity.CosineSquared` | src/recommender.py:35-41 | the similarity in squared form: its square times both numbers of buyers is the square of the number of common buyers |
| `Similarity.CosineOf` | src/recommender.py:35-41 | the sums over the two dicts compute the cosine of the buyer sets |
| `Similarity.BuildItemSimilarityMatrix` | src/recommender.py:10-50 | the nested loops over later events fill every ordered pair of different events with its similarity and nothing else |
| `Similarity.MatrixIsWellFormed` | src/recommender.py:43-50 | the matrix is symmetric, its rows cover exactly the other events, entries are in [0, 1] with both extreme cases characterised |
| `Recommender.ScoreCandidates` | src/recommender.py:84-89 | the scores dict holds exactly the unpurchased neighbours, each with the sum of its similarities to the distinct purchases |
| `Recommender.CountPurchases` | src/recommender.py:77-80 | the counters hold every event's purchases over all users, repeats included |
| `Recommender.TopIsTop` | src/recommender.py:91 | sorting by descending score and slicing gives distinct candidates, best first, of the slice's length, none left out with a higher score |
| `Recommender.GetItemRecommendations` | src/recommender.py:53-91 | for any matrix a best choice by popularity without history, by summed similarity with it; its length is min(top_n, pool) for top_n >= 0 and max(0, pool + top_n) below |
| `Recommender.RecommendationsAreOptimal` | src/recommender.py:83-91 | with the matrix of the same history the candidates are exactly the unpurchased events, ranked by summed cosine similarity |
| `Recommender.AffinityRange` | src/recommender.py:84-89 | a score lies between 0 and the number of distinct purchases and is positive iff the event shares a buyer with one |
| `Recommender.RelatedEventsComeFirst` | src/recommender.py:91 | an event that shares no buyer is recommended only after all that do |
| `Recommender.RecommendEvents` | src/main.py:579-591 | the endpoint, matrix and ranking together, returns a best choice of min(3, number of unpurchased events) |
| `Base64Url.RoundTrip` | src/signer.py:18-25 | decode(encode(b)) = b for every byte string |
| `Base64Url.EncodedForm` | src/signer.py:18-19 | the encoding has ceil(4n/3) characters, never one more than a multiple of four, all URL-safe (RFC 4648, section 5) |
| `Base64Url.EncodeIsPack` | src/signer.py:19 | stripping "=" removes the padding and nothing else (RFC 4648, section 3.2) |
| `Base64Layout.AlphabetIs` | src/signer.py:18-25 | the 64 characters in the order of section 5 of RFC 4648; the decoder also reads "+" and "/" |
| `Base64Layout.EncodingLayout` | src/signer.py:18-19 | every group of characters carries the 24 bits of its bytes from the left, a last group filled up with zero bits (RFC 4648, section 4) |
| `Base64Url.StrippedPaddingIsRestored` | src/signer.py:22-25 | `(-len) % 4` puts back exactly what was stripped |
| `Base64Url.PaddedTextDecodes` | src/signer.py:22-25 | text that still has its padding decodes to the same bytes |
| `Base64Url.EncodeInjective` | src/signer.py:18-19 | different bytes have different encodings |
| `Base64Url.DecodeWithoutPadding` | src/signer.py:22-25 | the case without "=": bytes depend on the alphabet characters only, acceptance also on the total length |
| `Base64Lenient.DecodeVerdict` | src/signer.py:22-25 | verdict and bytes for every string: it is read up to the first "=" that completes a group, else its digits must fill their groups |
| `Base64Lenient.OneIgnoredCharacter` | src/signer.py:22-25 | one ignored character anywhere in valid text: still accepted if and only if the text needed no padding |
| `Base64Url.AlphabetStringsDecode` | src/signer.py:22-25 | a string over the URL-safe alphabet decodes iff its length is not 1 mod 4, to floor(3n/4) bytes |
| `Base64Url.CanonicalStrings` | src/signer.py:18-25 | a string comes back unchanged from decode and encode iff it is URL-safe, not 1 mod 4 long and its unused bits are 0 |
| `Base64Url.UnusedBitsAreDropped` | src/signer.py:22-25 | two-character strings decode to the same byte, for equal first characters, iff the upper bits of the second agree |

## Left out

- HTTP routing, authentication, rate limits, logging, metrics, health checks, reports, search, currency cross rates, PDF and QR images: I/O, library calls or easy members.
- HMAC, Ed25519, RSA and key loading: foreign calls.
- IEEE floating point: amounts, scores and similarities are exact reals, so a residue of exactly 0.01 is not adjusted; `tests/test_revenue_sharing.py` relies on a float just above 0.01.
- That payouts respect `max_amount` after the adjustment: the code does not give it.
- The fallback to the rule's percentage when a stakeholder has none: the field is not optional, so it is never taken.
- Lower-casing of roles and rule names beyond ASCII.
- The JSON payloads of upstream records: `transform_summary` sees each field as a truth value with what `str`, `int`, `float` and `fromisoformat` make of it; picking the item list out of a payload, and answers that are no JSON, are not modelled.
- The untyped inputs of `validate_rows` and `diff_etl_output`: rows have the types `transform_summary` produces. `NULL` columns, tables that do not exist yet, a missing engine and BigQuery are not modelled.
- NaN and infinite amounts.
- Fraud events with unreadable timestamps or mixed time zones (the code raises), and the dict types of their fields: events are already parsed.
- The order of dict and set iteration: the order of rules in the triggered list and ties in the queue, among scores and among popular events are left open.
- The alphabetical order of the events in `build_item_similarity_matrix`: the events are visited in any order, which the result does not depend on.
- `math.sqrt`: a parameter that squares back to its argument exactly.
- Chat messages, broadcasts, connections and history; starting and stopping the cleanup task and its error branch; direct calls of `assign_conversation` that bypass the endpoint's guard.
- Aggregations over all events, heatmaps, trending and paginated reads in the analytics service.
- `base64` itself is modelled from its documented behaviour, as it is part of Python and not of the repository.
- Stakeholder, run-log and chat persistence beyond the outcome of a call.
- An upstream that answers a repeated request differently later: the extract model's upstream is a function of the page number alone.
- ExtractEvents: requires that the upstream's chain of pages ends, because the loop has no other bound; `ExtractEchoes` says when it does for a fixed total.

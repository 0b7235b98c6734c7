# Verified model of the on-call platform

A Dafny 4.11 model of the platform's stateful cores, and proofs of what they promise. Check it with
`dafny verify dfyconfig.toml`.

The model has five parts. Code that changes state in the original is a class or a loop here; its methods are proved
against functions and relations, and the properties are proved of those.

- **On-call rotation** (`Duration`, `Rotation`, `Coverage`, `Tiling`, `Fairness`, `Overrides`). Time is an integer
  count of nanoseconds and the epoch an instant. `GenerateShifts` lists who is on call over a window; `OnCallAt` answers
  for one instant. The list is shown to agree with the point query, to cover the window exactly when stated, and to
  tile it. The parser of shift lengths is characterised exactly, with its 64-bit wrap-around.
- **Escalation** (`Escalation`, `Escalator`, `EscalationProtocol`, `MonitorFairness`, `EscalationLinks`). `Escalator` runs each operation
  by itself over the table, the history and the event log. `EscalationProtocol` splits every operation into the reads and
  writes at which others can interleave: any number of monitor workers, manual escalations and Stop calls on one row,
  with crashes, failed commits and failed publishes.
- **Incidents** (`IncidentStatus`, `Incidents`, `IncidentGrouping`, `ConsumerRaces`, `Pagination`). Status changes of one incident under
  interleaved requests and auto-resolution; the consumer that groups alerts into incidents over whole tables and runs;
  keyset pagination, on a fixed table and on one that changes between pages.
- **Ingestion** (`Alerts`, `CanonicalKeys`, `KeyExactness`, `Dedup`, `Ingestion`). The pipelined batch against the alert-by-alert loop,
  the strings behind group keys and fingerprints, and the publishing loop with its rollback.
- **Limits, caches and groups** (`RateLimit`, `TenantCache`, `Groups`). The token bucket with key expiry, the TTL cache
  with its sweeper, and the three readings of Keycloak groups.

`Common` and `Sorting` hold shared vocabulary: failure types, Go's string order, sorting by a total order.

Where the outside decides something, the model takes it as an input: clocks, which call to a store or broker fails,
which of several matching rows a query returns first, the order in which a map yields its keys.

## Where the code differs from what it says

- The batch deduplication is documented as matching the alert-by-alert semantics
  (services/ingestion/internal/dedup/dedup.go:76-79, services/ingestion/internal/handler/handler.go:51-52). It does not
  when an alert fires again after its resolution within one batch: `Dedup.BatchRefinesLoop` gives the exact condition and
  `Dedup.FlappingSwallowed` an instance.
- The key of an alert refused by the broker is rolled back "so the sender can retry this alert"
  (services/ingestion/internal/handler/handler.go:93). That holds if the rollback reaches Redis, whose error is discarded:
  `Ingestion.RefusedAlertPasses`. The alerts behind the refused one keep their keys in any case:
  `Ingestion.UnpublishedSwallowed`.
- `ListExpiredStates` says its rows are locked (services/escalation/internal/store/store.go:319). The locks end with the
  statement: a listing skips rows that others hold at that moment, and no more; safety comes from the guarded update alone.
- `GenerateShifts` promises all shifts within the window (services/scheduling/internal/rotation/rotation.go:114). A
  window that starts before the epoch has a gap, and one wholly before it a backwards entry: `Coverage.CoverageExact`,
  `Overrides.BackwardsEntry`.
- The history entry of auto-resolution always says open to resolved
  (services/incident/internal/consumer/consumer.go:186-187), is written after the closing, and may be lost. When the
  history still replays: `IncidentStatus.HistoryExact`, `IncidentStatus.TallyExact`.
- A manual resolve can make a later resolution leave an incident open with nothing firing in it; when it does not:
  `IncidentGrouping.NothingStranded`.
- `parseGroups` says it mirrors the backend (frontend/src/auth/usePermissions.ts:7). Names that every object inherits are
  the exception: `Groups.FrontendAgrees`.
- A shift length beyond 292 years wraps around and may still be accepted: `Duration.ExactWhenInRange`.

## Model

| member | source | states |
|---|---|---|
| `Duration.ParseIso8601Duration` | services/scheduling/internal/rotation/rotation.go:17-66 | the loop computes `ParseDuration`, with 64-bit wrap-around in the digit and total arithmetic and every error case |
| `Duration.AcceptedForms` | services/scheduling/internal/rotation/rotation.go:17-66 | a text is accepted if and only if it is `P` followed by a legal token list (markers `T` and digit-unit parts, each unit legal for its side of `T`) whose wrapped sum is positive; the value is that wrapped sum; an accepted text holds decimal digits and the letters T, W, D, H, M and S only |
| `Duration.TotalWeighs` | services/scheduling/internal/rotation/rotation.go:45-56 | the sum of a token list is 10^9 times 604800 a week, 86400 a day, 3600 an hour, 60 a minute and 1 a second, weeks and days being those before the marker and the rest those after it |
| `Duration.RefusedNumber` | services/scheduling/internal/rotation/rotation.go:36-58 | behind any legal token list, a number of more than 64 bits is refused as out of range whatever its unit, and otherwise a unit that is wrong on its side of the marker as a bad unit |
| `Duration.RefusedCharacter` | services/scheduling/internal/rotation/rotation.go:33-38 | behind any legal token list, a character that starts no number and is no marker, or a number without a unit, is refused as unexpected |
| `Duration.ParsePrinted` | services/scheduling/internal/rotation/rotation.go:25-61 | parsing the print of any legal token list yields its wrapped sum |
| `Duration.ParsedIsPrinted` | services/scheduling/internal/rotation/rotation.go:25-61 | whatever is accepted is the print of a legal token list |
| `Duration.PrintedComponentsParse` | services/scheduling/internal/rotation/rotation.go:17-66 | printing a component list in decimal and parsing it gives its exact sum if and only if the sum is positive and fits 64 bits |
| `Duration.ExactWhenInRange` | services/scheduling/internal/rotation/rotation.go:17-66 | the parser returns the true sum of a token list if and only if it is positive and at most 2^63 - 1 nanoseconds |
| `Duration.OverflowIsAccepted` | services/scheduling/internal/rotation/rotation.go:42-65 | the bound matters: `P213504D` is accepted and read as about 25 minutes |
| `Rotation.OnCallAtMeaning` | services/scheduling/internal/rotation/rotation.go:70-78 | with no covering override the rotation answers; with ordered overrides the covering one answers, with its own window |
| `Rotation.RotationExact` | services/scheduling/internal/rotation/rotation.go:81-112 | the rotation answers with a whole shift: user k mod n on [epoch + k * dur, epoch + (k + 1) * dur), the one holding the instant, and k = 0 before the epoch |
| `Rotation.RotationWindow` | services/scheduling/internal/rotation/rotation.go:81-112 | from the epoch on, the returned window contains the instant and the answer is the same at every instant of the window |
| `Rotation.IndexEncloses` | services/scheduling/internal/rotation/rotation.go:99-109 | k is the shift index of t if and only if t lies between boundaries k and k + 1 |
| `Rotation.BuildBase` | services/scheduling/internal/rotation/rotation.go:132-152 | the base loop builds exactly ceil((to - first boundary) / dur) shifts, at least one, in order, the last clamped to `to` |
| `Rotation.CutShift` | services/scheduling/internal/rotation/rotation.go:162-195 | the inner loop computes the cut of one base shift: the overrides touching it and the base stretches left between them |
| `Rotation.ApplyOverrides` | services/scheduling/internal/rotation/rotation.go:159-197 | the nested loops compute the layered list, and the base list itself when there are no overrides |
| `Rotation.GenerateShifts` | services/scheduling/internal/rotation/rotation.go:115-157 | the whole function computes `ShiftList`; it succeeds if and only if the rotation has a member and the duration parses, with the error of whichever fails first |
| `Rotation.ShiftList` | services/scheduling/internal/rotation/rotation.go:115-157 | listing fails exactly when the point query of the rotation does, with the same error; an empty window has no shifts |
| `Coverage.PieceMeaning` | services/scheduling/internal/rotation/rotation.go:162-195 | every piece cut from a base shift is a touching override, clipped to the window, or a base stretch that no override covers |
| `Coverage.PiecesReach` | services/scheduling/internal/rotation/rotation.go:162-195 | every instant of a base shift lies in some piece cut from it |
| `Coverage.ShiftsNameOnCall` | services/scheduling/internal/rotation/rotation.go:70-197 | for every staffed schedule, a listed shift containing an instant of the window names exactly the user that `OnCallAt` returns at that instant, before the epoch too, and is marked as an override if and only if an override covers the instant |
| `Coverage.CoverageExact` | services/scheduling/internal/rotation/rotation.go:115-197 | for every staffed schedule, every instant of the window lies in a listed shift if and only if the window starts at or after the epoch, or reaches past it and one override bridges the stretch before it |
| `Tiling.ShiftsTile` | services/scheduling/internal/rotation/rotation.go:115-197 | for every staffed schedule, from the epoch on, the list without adjacent repetitions is an exact tiling from the shift boundary at or before `from` up to `to`, and any two overlapping raw entries are copies of one override entry |
| `Tiling.CutAllLinked` | services/scheduling/internal/rotation/rotation.go:159-197 | the pieces of all base shifts follow one another end to end or repeat the straddling override |
| `Tiling.LinkedTiles` | services/scheduling/internal/rotation/rotation.go:159-197 | collapsing adjacent repetitions of such a list gives a tiling from its first start to its last end |
| `Fairness.RotationPeriodic` | services/scheduling/internal/rotation/rotation.go:81-112 | from the epoch on the rotation has period n * dur |
| `Fairness.DutyPerCycle` | services/scheduling/internal/rotation/rotation.go:81-112 | any window of one full cycle, aligned or not, gives each rotation position exactly one shift length |
| `Fairness.RotationFair` | services/scheduling/internal/rotation/rotation.go:81-112 | over m full cycles from any instant at or after the epoch each position is on call for exactly m * dur |
| `Fairness.OnCallFair` | services/scheduling/internal/rotation/rotation.go:70-112 | over m full cycles the queries name each user for exactly m * dur per turn the user has in the rotation |
| `Overrides.OverrideTable.Create` | services/scheduling/internal/handler/handler.go:311-375 | inserts exactly when the window is non-empty and every row of the schedule ends by its start or starts at or after its end, otherwise reports the earliest overlapping row; keeps windows of a schedule pairwise disjoint |
| `Overrides.OverrideTable.Delete` | services/scheduling/internal/store/store.go:210-220 | drops exactly the rows with this id and tenant, reports not-found when there are none; keeps windows disjoint |
| `Overrides.OverrideTable.ListInWindow` | services/scheduling/internal/store/store.go:165-186 | returns exactly the rows of schedule and tenant that start before the window's end and end after its start, each as often as in the table, sorted by start |
| `Overrides.IntersectsMeaning` | services/scheduling/internal/store/store.go:189-208 | two windows count as overlapping if and only if some instant lies in both; one that ends where the other starts does not |
| `Overrides.PointQueryWindowed` | services/scheduling/internal/handler/handler.go:275-281 | a point query given only the overrides of [at, at + 1s) answers as if given all of them |
| `Overrides.ShiftsWindowed` | services/scheduling/internal/handler/handler.go:427-433 | the shift list from the window's overrides equals the one from all overrides if and only if the window is empty, or reaches past the epoch, or there are no overrides at all, or some override meets the window |
| `Overrides.ListingOfWindow` | services/scheduling/internal/store/store.go:165-186 | what the disjoint table lists for a window is ordered and is the windowed part of any wider listing |
| `Overrides.TableQueriesAgree` | services/scheduling/internal/handler/handler.go:251-295 | end to end over the table: a listed shift of any window names the user that the point query returns |
| `Overrides.RacingCreations` | services/scheduling/internal/store/store.go:189-208 | two creations that both look before either inserts keep windows disjoint if and only if the new windows are of different schedules or do not meet |
| `Escalator.EscalationService.AssignPolicy` | services/escalation/internal/escalator/escalator.go:63-97 | creates the row at the lowest tier of a policy of the tenant with that tier's deadline and triggers it; a failed look-up, an unknown or foreign policy, an empty one and a failed insert are refused and change nothing |
| `Escalator.EscalationService.AdvanceOrExhaust` | services/escalation/internal/escalator/escalator.go:101-160 | row, events, history and the caller's record after an attempt on a possibly stale record: everything changes if and only if the stored row is active at the expected tier; then the row is the next tier, due that tier's timeout in seconds from now, or exhausted and stamped now when the policy has no such tier |
| `Escalator.EscalationService.Stop` | services/escalation/internal/escalator/escalator.go:163-189 | ends an active escalation with an unconditional write, ignores absent and inactive rows |
| `Escalator.EscalationService.ManualEscalate` | services/escalation/internal/escalator/escalator.go:192-204 | refuses after a failed read, absent and inactive rows, otherwise advances at once |
| `Escalator.EscalationService.TriggerTier` | services/escalation/internal/escalator/escalator.go:224-270 | appends one history entry and one event, each unless its call fails |
| `Escalator.EscalationService.ConditionalUpdate` | services/escalation/internal/store/store.go:298-317 | compare-and-swap on (tier, active) with the history entry in the same transaction |
| `Escalator.EscalationService.BlindUpdate` | services/escalation/internal/store/store.go:276-290 | unconditional write of an existing row |
| `Escalator.EscalationService.GetTier` | services/escalation/internal/store/store.go:170-181 | the tier's timeout, or not found |
| `Escalator.EscalationService.ListExpired` | services/escalation/internal/store/store.go:320-346 | at most `limit` distinct active rows with a deadline at or before now that are not locked, all of them when they are fewer, none with a later deadline than such a row left out |
| `Escalator.EscalationService.MonitorStep` | services/escalation/internal/monitor/monitor.go:45-66 | a tick advances each of its at most fifty listed rows exactly once and touches no other; a failed row stays as it is, a failed listing skips the tick |
| `Escalation.UninterruptedRun` | services/escalation/internal/escalator/escalator.go:101-160 | uninterrupted advances visit the tiers above in turn and end exhausted at the first missing tier number |
| `EscalationProtocol.NextKeepsInv` | services/escalation/internal/escalator/escalator.go:63-204 | every step of every worker, manual escalation, Stop, publish and crash keeps the protocol invariant |
| `EscalationProtocol.ClaimsAndEventsOnce` | services/escalation/internal/escalator/escalator.go:63-189 | under any interleaving the claimed tiers are a gapless run from the lowest tier, each claimed once; at most one triggered event per tier and none for an unclaimed one; at most one exhaustion and one exhausted event, only past the last tier of the run |
| `EscalationProtocol.InactiveAbsorbs` | services/escalation/internal/escalator/escalator.go:101-189 | a row that left `active` never becomes active again |
| `EscalationProtocol.CommitMeansUnchanged` | services/escalation/internal/store/store.go:298-317 | no ABA: when a worker's guarded update succeeds, the row has not changed at any moment since that worker read it |
| `EscalationProtocol.WinsIfUnchanged` | services/escalation/internal/store/store.go:298-317 | over runs, a worker's guarded update succeeds if and only if the row is as the worker read it, if and only if nothing was written in between |
| `EscalationProtocol.WinnerWrites` | services/escalation/internal/escalator/escalator.go:140-150 | over runs, a winning attempt writes the next tier with its deadline, the clock at the attempt's preparation plus the tier's timeout in seconds, or exhaustion stamped with that clock when the policy has no such tier |
| `EscalationProtocol.ActiveDeadline` | services/escalation/internal/escalator/escalator.go:63-160 | at any point of any run an active row is due its tier's timeout in seconds after the clock by which the tier was claimed: the assignment's for the lowest tier, the winning worker's for the others |
| `EscalationProtocol.TimeoutNotEarly` | services/escalation/internal/monitor/monitor.go:45-66 | when the monitor takes a tier away, the clock was at or past the clock by which that tier was claimed plus the tier's timeout in seconds already when the monitor read the row |
| `EscalationProtocol.RemainingDecreases` | services/escalation/internal/escalator/escalator.go:101-160 | no step adds remaining work; each successful advance removes exactly one unit |
| `EscalationProtocol.AdvancesBounded` | services/escalation/internal/escalator/escalator.go:101-160 | any run of any length has at most chain length + 1 successful advances |
| `EscalationProtocol.StopWritesWhatItRead` | services/escalation/internal/escalator/escalator.go:163-189 | over runs, Stop's write puts back the tier it read, the last one claimed by then, with its reason as status |
| `EscalationProtocol.StopKeepsTier` | services/escalation/internal/store/store.go:276-290 | over runs, Stop ends an active escalation on its current tier if and only if nothing was written between its read and its write |
| `EscalationProtocol.StopRollsBack` | services/escalation/internal/escalator/escalator.go:163-189 | Stop takes the row back a tier: over a row no Stop wrote, if and only if a tier was claimed since its read; over another Stop's row, if and only if a tier was claimed between the two reads |
| `EscalationProtocol.StopHidesExhaustion` | services/escalation/internal/escalator/escalator.go:163-189 | Stop overwrites an exhausted row if and only if the last write since its read is an exhaustion |
| `EscalationProtocol.StopEndsEscalation` | services/escalation/internal/escalator/escalator.go:163-189 | whatever Stop overwrites, the row ends acknowledged or resolved |
| `EscalationProtocol.StopCanRollBack` | services/escalation/internal/escalator/escalator.go:163-189 | a run in which Stop's stale write takes the row back a tier |
| `EscalationProtocol.StopCanHideExhaustion` | services/escalation/internal/escalator/escalator.go:163-189 | a run in which Stop's stale write turns exhausted into acknowledged |
| `EscalationLinks.CommitIsAdvance` | services/escalation/internal/escalator/escalator.go:101-160 | the protocol's commit step wins when the operation's guarded update does, and leaves the same row, on the same possibly outdated snapshot |
| `EscalationLinks.PublishIsAdvance` | services/escalation/internal/escalator/escalator.go:101-160 | a winning commit and its publish publish exactly what the operation publishes |
| `EscalationLinks.AttemptInARow` | services/escalation/internal/escalator/escalator.go:101-160 | read, prepare, commit and publish in a row do to row and events what one call of the operation does |
| `EscalationLinks.ListedIsReadable` | services/escalation/internal/store/store.go:320-346 | the protocol lets the monitor read the row exactly when it is active with a deadline at or before the clock |
| `EscalationLinks.StopInARow` | services/escalation/internal/escalator/escalator.go:163-189 | Stop's read and write in a row end an active escalation on its tier, with its reason and the clock's instant, and publish nothing |
| `EscalationLinks.AdvanceIsAttempt` | services/escalation/internal/monitor/monitor.go:45-66 | what the operation does to the table on a row listed earlier is the attempt of the fairness argument |
| `MonitorFairness.QuietTickClears` | services/escalation/internal/monitor/monitor.go:45-66 | an uninterrupted tick takes exactly the rows it moved out of those due by an earlier instant |
| `MonitorFairness.OwnAttemptClears` | services/escalation/internal/escalator/escalator.go:101-160 | the attempt on a row listed earlier leaves it no longer due, whether it wins or somebody else was faster |
| `MonitorFairness.TickClearsBatch` | services/escalation/internal/monitor/monitor.go:45-66 | however others interleave with a tick, it takes at least its batch out of the rows due by an earlier instant, apart from rows that a failed attempt or an action with an older clock touched |
| `MonitorFairness.OthersAddNothingDue` | services/escalation/internal/handler/handler.go:109-113 | with positive timeouts no other actor makes a row due by an earlier instant |
| `MonitorFairness.BacklogShrinks` | services/escalation/internal/monitor/monitor.go:45-66 | while a due row is passed over, the rows due shrink by fifty a tick, apart from stray rows |
| `MonitorFairness.ListedInTime` | services/escalation/internal/monitor/monitor.go:45-66 | no starvation: of c rows due by a row's deadline, with e rows touched by failed attempts or older clocks, that row is listed within ceil((c + e) / 50) ticks, unless at one of them another statement holds it locked or another actor has dealt with it |
| `IncidentStatus.IncidentRecord.TransitionStatus` | services/incident/internal/store/store.go:230-282 | compare-and-swap on the expected status with history in one transaction: acknowledging stamps instant and author, resolving stamps the instant, reopening clears all stamps; conflict and failure change nothing |
| `IncidentStatus.IncidentRecord.PatchStatus` | services/incident/internal/handler/handler.go:151-223 | a request succeeds exactly when the incident is read, its status is one of the four edges from the current one and the commit goes through; the written change is in the history; each refusal has its error; it keeps the history chain and the stamps |
| `IncidentStatus.IncidentRecord.AutoResolve` | services/incident/internal/consumer/consumer.go:172-192 | the closing write and the fixed open-to-resolved history entry |
| `IncidentStatus.EdgesAndStamps` | services/incident/internal/statemachine/statemachine.go:25-41 | under any interleaving of requests and auto-resolution every committed change is one of the four edges, and stamps agree with the status |
| `IncidentStatus.ResolvedStamp` | services/incident/internal/store/store.go:230-306 | over runs, a resolved incident carries the instant of the very step that resolved it, and has been resolved ever since |
| `IncidentStatus.AcknowledgedStamp` | services/incident/internal/store/store.go:230-282 | over runs, an acknowledgement carries the instant of the commit and the author of the request that made it, until a reopening |
| `IncidentStatus.PatchInARow` | services/incident/internal/handler/handler.go:151-223 | a request may start exactly on one of the four edges, and its read and commit in a row write what PatchStatus writes |
| `IncidentStatus.CloseInARow` | services/incident/internal/consumer/consumer.go:172-192 | counting, closing and noting in a row write what AutoResolve writes |
| `IncidentStatus.CommittedReplays` | services/incident/internal/store/store.go:230-306 | replaying the committed changes from creation always leads to the current status |
| `IncidentStatus.HistoryReplays` | services/incident/internal/store/store.go:258-277 | without auto-resolution the written history is the committed changes: an unbroken chain to the current status |
| `IncidentStatus.HistoryExact` | services/incident/internal/consumer/consumer.go:177-190 | at any point of any run, with any number of closers and lost or late entries, the history is an unbroken chain to the current status if and only if it is the committed changes |
| `IncidentStatus.AutoCloseKeepsChain` | services/incident/internal/consumer/consumer.go:177-190 | one closing with requests interleaved: when its entry is written the history is a chain if and only if it closed an open incident and no request was committed between closing and entry |
| `IncidentStatus.LostEntryBreaksChain` | services/incident/internal/consumer/consumer.go:182-190 | a closing whose entry is lost leaves the history a chain if and only if it had nothing to close |
| `IncidentStatus.TallyExact` | services/incident/internal/consumer/consumer.go:177-190 | any number of closings: the history is a chain if and only if the tally of the steps is even, a tally read off the kinds of steps and the status each finds |
| `IncidentStatus.LostEntryRun` | services/incident/internal/consumer/consumer.go:188-190 | a run of three steps whose history is not a chain |
| `Incidents.Store.FindOpenIncidentByGroupKey` | services/incident/internal/store/store.go:346-360 | some unresolved incident with a row of the tenant and key, none exactly when there is none |
| `Incidents.Store.CreateIncidentTx` | services/incident/internal/store/store.go:80-100 | a fresh open incident without stamps, its creation entry and its first firing alert together, or nothing at all |
| `Incidents.Store.AttachAlert` | services/incident/internal/store/store.go:362-374 | one more firing row, or no change |
| `Incidents.Store.ResolveAlert` | services/incident/internal/store/store.go:419-432 | every firing row of tenant and fingerprint becomes resolved; the incident of one of them is returned |
| `Incidents.Store.MaybeResolve` | services/incident/internal/store/store.go:286-306 | true exactly when nothing fires in the incident; then it is closed unless already resolved or of another tenant |
| `Incidents.Consumer.HandleFiring` | services/incident/internal/consumer/consumer.go:95-164 | the tables after a firing delivery: attached to an unresolved incident of its group, or a new incident, or nothing on failure; which labels make the group is `GroupedByLabels` |
| `Incidents.Consumer.HandleResolved` | services/incident/internal/consumer/consumer.go:166-209 | the tables after a resolved delivery, for every place where a store call can fail; the only history entry it writes says open to resolved |
| `IncidentGrouping.FiringKeepsInv` | services/incident/internal/consumer/consumer.go:95-164 | a firing delivery keeps grouping, and keeps unresolved-iff-firing |
| `IncidentGrouping.ResolvedKeepsInv` | services/incident/internal/consumer/consumer.go:166-209 | a resolved delivery keeps the invariant if and only if no error falls between its two writes or something else still fires in the incident |
| `IncidentGrouping.ConsumerKeepsInv` | services/incident/internal/consumer/consumer.go:65-75 | over every run of deliveries handled to their end: an incident is unresolved if and only if it has a firing alert, its alerts share one group key, and each tenant and group key has at most one unresolved incident |
| `IncidentGrouping.GroupedByLabels` | services/incident/internal/consumer/consumer.go:95-102 | two firing alerts of one tenant and source (alertmanager and prometheus being one) sit in one incident if and only if they agree on every label of the rule stored for tenant and source, or, without one, on alertname and job for alertmanager and prometheus and on alertname for any other source; a missing label reads as empty |
| `IncidentGrouping.PatchKeepsInv` | services/incident/internal/handler/handler.go:151-223 | of the manual status changes exactly the acknowledgement keeps the whole invariant |
| `IncidentGrouping.PatchedIsRequest` | services/incident/internal/handler/handler.go:151-223 | a manual change of the consumer's runs is the request's read and commit in a row on the incident's record, and changes nothing else |
| `IncidentGrouping.ReopenKeepsGrouped` | services/incident/internal/handler/handler.go:151-223 | reopening keeps one unresolved incident per group if and only if the group has none |
| `IncidentGrouping.GroupingSurvives` | services/incident/internal/consumer/consumer.go:95-209 | one unresolved incident per group and one key per incident survive every failure and every manual change other than reopening into a taken group |
| `IncidentGrouping.ManualResolveStrands` | services/incident/internal/consumer/consumer.go:166-209 | after a manual resolve and a new firing, the next resolution can leave the new incident open with nothing firing in it |
| `IncidentGrouping.PatchStrandsNone` | services/incident/internal/handler/handler.go:151-223 | manual changes leave no unresolved incident without a firing alert if and only if they are not the reopening of an incident in which nothing fires |
| `IncidentGrouping.ResolvedStrandsNone` | services/incident/internal/consumer/consumer.go:166-209 | after any manual changes, a resolved delivery strands nothing if and only if every other unresolved incident firing through the fingerprint fires through another too, and the returned one is resolved, closed now or still firing |
| `IncidentGrouping.StepStrandsNone` | services/incident/internal/consumer/consumer.go:65-75 | the same for every kind of event, with its exact condition on the state before |
| `IncidentGrouping.NothingStranded` | services/incident/internal/consumer/consumer.go:65-75 | over every run with manual changes and failures, no unresolved incident was ever without a firing alert if and only if every event so far met its condition |
| `IncidentGrouping.LateCreate` | services/incident/internal/consumer/consumer.go:103-146 | creating an incident, however long ago the consumer looked, keeps one unresolved incident per group if and only if the group is closed at that moment |
| `IncidentGrouping.RacingConsumers` | services/incident/internal/consumer/consumer.go:103-146 | two consumers that both found their alert's group closed and both create: harmless if and only if the alerts are of different groups |
| `IncidentGrouping.LateAttach` | services/incident/internal/consumer/consumer.go:103-146 | attaching to an incident found earlier keeps grouping in any case, and unresolved-iff-firing if and only if the incident is still unresolved |
| `IncidentGrouping.LateClose` | services/incident/internal/store/store.go:286-306 | closing after a count of none restores unresolved-iff-firing if and only if nothing has fired in the incident since |
| `ConsumerRaces.StepKeepsInv` | services/incident/internal/consumer/consumer.go:95-209 | every statement of a consumer keeps the invariant of several consumers at work on different groups |
| `ConsumerRaces.FiringInARow` | services/incident/internal/consumer/consumer.go:95-164 | looking and filing in a row is one handling of a firing delivery |
| `ConsumerRaces.ResolvedInARow` | services/incident/internal/consumer/consumer.go:166-209 | silencing, counting and closing in a row is one handling of a resolved delivery, its history entry apart |
| `ConsumerRaces.DisjointGroupsKeepInv` | services/incident/internal/consumer/consumer.go:95-209 | any number of consumers interleaved statement by statement, no two on one group at a time and none failing between its writes: grouping holds throughout, an open incident with nothing firing is about to be closed, and when all are idle unresolved-iff-firing holds |
| `Pagination.CursorRoundTrip` | services/incident/internal/store/store.go:658-683 | for every instant that RFC 3339 can write, a cursor leads back to its row if and only if the row has an id, whatever characters the id holds |
| `Pagination.DecodedForm` | services/incident/internal/store/store.go:663-683 | a cursor decodes to a key if and only if its text is an instant that parses, the first separator, and the key's non-empty id; anything else asks for the first page |
| `Pagination.EncodedCursorsLeadBack` | services/incident/internal/store/store.go:658-683 | cursors over any faithful codec are what the pagination theorems need: non-empty, leading back, and the empty one meaning the first page |
| `Pagination.ListIncidents` | services/incident/internal/store/store.go:129-222 | the query with its extra row returns the slice of the whole listing below the cursor, and a cursor to its last row exactly when rows follow: at most the requested number of rows (20 outside 1 to 100), fewer only on the last page, all of the tenant and older than the cursor or of its instant with a smaller id, newest first and by descending id within one instant |
| `Pagination.QueryIsSuffix` | services/incident/internal/store/store.go:158-187 | filtering below the cursor before ordering gives the tail of the whole ordered listing |
| `Pagination.ListingExact` | services/incident/internal/store/store.go:129-190 | the listing holds exactly the tenant's rows that pass every condition of the filter, newest first and by strictly descending id among rows of one instant |
| `Pagination.PagesCoverTable` | services/incident/internal/store/store.go:129-222 | following next_cursor from the first page, the cursor is first empty after ceil(rows / n) pages, and those pages are the whole listing in order |
| `Pagination.NoRowTwice` | services/incident/internal/store/store.go:158-166 | though the table changes between pages, rows of a later page are older than those of an earlier one, or of the same instant with a smaller id |
| `Pagination.NoRowSkipped` | services/incident/internal/store/store.go:158-166 | a row that is there and passes the filter all the while is on one of the pages |
| `CanonicalKeys.ComputeGroupString` | services/incident/internal/consumer/consumer.go:212-220 | the loop, sort and join build the group string |
| `CanonicalKeys.GroupStringPermutes` | services/incident/internal/consumer/consumer.go:212-220 | the order in which a rule lists its labels does not matter |
| `CanonicalKeys.GroupStringExact` | services/incident/internal/consumer/consumer.go:212-220 | for names without separators and values without commas, two alerts share a group string if and only if they agree on every grouping label |
| `KeyExactness.GroupCollision` | services/incident/internal/consumer/consumer.go:212-220 | under any rule of two labels or more, each listed once, a comma moved from one value to the next gives alerts that disagree on two labels the same group string |
| `KeyExactness.RuleExact` | services/incident/internal/consumer/consumer.go:212-220 | whatever values hold, the group string of a rule that lists no label twice determines its labels' values if and only if the rule has at most one label |
| `KeyExactness.OneLabelDetermines` | services/incident/internal/consumer/consumer.go:212-220 | a rule of one label, however often listed, is determined by its string |
| `KeyExactness.DoubledLabelsDetermine` | services/incident/internal/consumer/consumer.go:212-220 | a rule that lists each of two labels twice is determined by its string, so repetition is outside the rule above |
| `CanonicalKeys.ComputeFingerprintString` | services/ingestion/internal/handler/normalize.go:15-30 | the fingerprint string, whatever order the map yields its keys in |
| `CanonicalKeys.FingerprintInjective` | services/ingestion/internal/handler/normalize.go:15-30 | without separators in names and commas in values, fingerprint strings are equal if and only if labels, source and tenant are |
| `CanonicalKeys.FingerprintCollision` | services/ingestion/internal/handler/normalize.go:15-30 | with a comma in a value two different label sets share a fingerprint string |
| `KeyExactness.FingerprintExact` | services/ingestion/internal/handler/normalize.go:15-30 | whatever values hold, fingerprint strings over a fixed label set and comma-free origins determine the alert if and only if the set has at most one label |
| `Dedup.RedisCache.Apply` | services/ingestion/internal/dedup/redis.go:29-53 | every SETNX before every DEL: answers in order, keys after, and when the connection breaks part-way the keys after exactly the commands that ran |
| `Dedup.Deduplicator.IsDuplicate` | services/ingestion/internal/dedup/dedup.go:51-63 | answers whether the key was present and leaves it present; an error when the command or its answer is lost, with the keys for either case |
| `Dedup.Deduplicator.Clear` | services/ingestion/internal/dedup/dedup.go:67-69 | removes the alert's key and no other; an error when the command or its answer is lost, with the keys for either case |
| `Dedup.Deduplicator.ClassifyEach` | services/ingestion/internal/dedup/dedup.go:76-79 | the alert-by-alert loop that the batch is documented to match |
| `Dedup.Deduplicator.Classify` | services/ingestion/internal/dedup/dedup.go:80-115 | alert i is suppressed if and only if it is firing and its fingerprint was remembered before or fired earlier in the batch; the keys after; the failure case |
| `Dedup.SameFingerprint` | services/ingestion/internal/dedup/dedup.go:117-120 | two alerts share a deduplication key if and only if they share a fingerprint |
| `Dedup.BatchByFingerprint` | services/ingestion/internal/dedup/dedup.go:76-115 | the batch answers an alert by the remembered fingerprints and the earlier firing alerts of its own fingerprint alone |
| `Dedup.BatchKeysByFingerprint` | services/ingestion/internal/dedup/dedup.go:76-115 | a fingerprint is remembered after a batch if and only if it was before or fired in it, and was not resolved in it |
| `Dedup.InTurnByFingerprint` | services/ingestion/internal/dedup/dedup.go:51-69 | handled one by one, a firing alert is a duplicate if and only if the last alert of its fingerprint before it fired, or there was none and the fingerprint was remembered |
| `Dedup.BatchRefinesLoop` | services/ingestion/internal/dedup/dedup.go:76-115 | the batch gives the same suppressions and the same keys as the loop if and only if no alert's handling is reordered across a resolution in a way that matters |
| `Dedup.AgreeWithoutRefiring` | services/ingestion/internal/dedup/dedup.go:76-115 | in particular they agree whenever no firing alert follows a resolved one of the same fingerprint |
| `Dedup.FlappingSwallowed` | services/ingestion/internal/dedup/dedup.go:76-115 | resolved-then-firing in one batch: the loop forwards the firing, the batch suppresses it |
| `Ingestion.Handler.ProcessAlerts` | services/ingestion/internal/handler/handler.go:53-100 | published alerts, audit rows and result for every behaviour of Redis, audit store and broker; when the pipeline broke, every alert is forwarded up to the first refusal; the keys exactly when the pipeline went through, and between bounds when it broke; a refused alert's key goes only if the rollback command was executed |
| `Ingestion.Handler.PublishInOrder` | services/ingestion/internal/handler/handler.go:87-98 | publishes in order up to the first refusal and rolls back that alert's key only, discarding an error of the rollback |
| `Ingestion.RefusedAlertPasses` | services/ingestion/internal/handler/handler.go:92-97 | sent again, the refused alert is swallowed if and only if its rollback was not executed, it is firing and the batch holds no resolution of it |
| `Ingestion.UnpublishedSwallowed` | services/ingestion/internal/handler/handler.go:87-98 | an alert behind the refused one is swallowed on the resend if and only if it is firing and the batch holds no resolution of it |
| `Ingestion.SecondAlertLost` | services/ingestion/internal/handler/handler.go:87-98 | two new firing alerts, the first refused: the resend loses the second, and the first too if the rollback was not executed |
| `RateLimit.Limiter.Allow` | services/notification/internal/ratelimit/ratelimit.go:13-35 | one run of the script on the stored bucket: refilled when the key is absent, expired or a window has passed since the last refill, spent only on a send, kept for two windows; other keys untouched |
| `RateLimit.KeyExact` | services/notification/internal/ratelimit/ratelimit.go:55-55 | contacts share a bucket if and only if tenant, user and channel are the same, for tenants and users without colons |
| `RateLimit.KeyCollision` | services/notification/internal/ratelimit/ratelimit.go:55-55 | with a colon in a tenant or a user, two different contacts can share a bucket |
| `RateLimit.TokensWithinAllowance` | services/notification/internal/ratelimit/ratelimit.go:23-32 | over any calls the stored tokens stay at least 0 and below the allowance |
| `RateLimit.ExpiryInvisible` | services/notification/internal/ratelimit/ratelimit.go:23-32 | with a non-decreasing clock the 2 * window key expiry never changes an answer |
| `RateLimit.WindowBound` | services/notification/internal/ratelimit/ratelimit.go:13-35 | any half-open interval of one window's length holds at most 2 * max - 1 allowed sends, from any stored bucket |
| `RateLimit.LimiterBound` | services/notification/internal/ratelimit/ratelimit.go:13-62 | the same bound on the answers of the limiter with expiring keys |
| `RateLimit.BoundReached` | services/notification/internal/ratelimit/ratelimit.go:13-35 | the bound is attained for every allowance and every window of at least two seconds |
| `RateLimit.OneSecondBound` | services/notification/internal/ratelimit/ratelimit.go:13-35 | in a single second at most max sends, which is the bound for a window of one second |
| `RateLimit.NoAllowance` | services/notification/internal/ratelimit/ratelimit.go:23-34 | without an allowance nothing is ever sent |
| `TenantCache.Cache.Lookup` | services/notification/internal/tenantcache/cache.go:45-53 | a stored configuration is returned exactly while now is before its expiry |
| `TenantCache.Cache.StoreFetched` | services/notification/internal/tenantcache/cache.go:57-66 | a successful fetch is stored with expiry now + ttl; a failed one leaves the cache unchanged |
| `TenantCache.Cache.EvictExpired` | services/notification/internal/tenantcache/cache.go:86-95 | deletes exactly the entries strictly past their expiry |
| `TenantCache.HitsAreFresh` | services/notification/internal/tenantcache/cache.go:45-71 | under any interleaving of gets, coalesced fetches and sweeps, a hit is a configuration stored for that tenant less than ttl earlier |
| `TenantCache.HitsForTtl` | services/notification/internal/tenantcache/cache.go:45-71 | over every run, a stored configuration answers every Get of its tenant for ttl, sweeps or not, unless another one is stored |
| `TenantCache.AnswersAreFetched` | services/notification/internal/tenantcache/cache.go:45-71 | whatever a Get returns, by hit, by waiting for a fetch or by joining one that has already stored its result, was fetched for that tenant before |
| `TenantCache.NoGetForgotten` | services/notification/internal/tenantcache/cache.go:55-71 | over every run, a Get that found nothing is pending until a shared fetch of its tenant ends and answers it with what was fetched |
| `TenantCache.EvictionInvisible` | services/notification/internal/tenantcache/cache.go:45-95 | the same steps without deletion give the same answers, hits, misses and fetches |
| `Groups.ParseGroups` | frontend/src/auth/usePermissions.ts:12-25 | the loop computes the role table, reading inherited property names as the language does |
| `Groups.TenantSlugs` | services/notification/internal/handler/handler.go:145-162 | exactly the non-empty first segments, each once, in order of first appearance |
| `Groups.RolesMeaning` | frontend/src/auth/usePermissions.ts:12-25 | for well-formed paths the table says admin or member exactly as the groups do, up to inherited names |
| `Groups.FrontendAgrees` | pkg/auth/auth.go:69-88 | the frontend's admin role equals IsAdmin unless the tenant is the one inert name (assigning it stores nothing) and has an admin; its membership equals IsMember unless the tenant bears an inherited property name and the user is a plain member, or the name is the inert one |
| `Groups.InheritedNameUnknown` | frontend/src/auth/usePermissions.ts:20-22 | a plain member of a tenant named like an inherited property is unknown to the frontend |
| `Groups.BrowserAgrees` | frontend/src/auth/usePermissions.ts:12-25 | with the browser's own object prototype, every tenant not named like one of its properties is in the table if and only if some group is its path or below it, and admin there if and only if its admins group is listed; each of the others is misread for some groups |
| `Groups.RolesIgnoreOrder` | frontend/src/auth/usePermissions.ts:12-25 | the role table does not depend on the order of the groups |
| `Groups.SyncAgrees` | services/notification/internal/handler/handler.go:145-162 | the contact sync lists exactly the tenants that IsMember accepts |

## Left out

- Time zones and daylight saving: the epoch is one absolute instant, and the saturation of instant differences beyond 292 years is not modelled.
- SHA-256: group keys and fingerprints are the strings before hashing; equality of keys stands for equality of hashes.
- RFC 3339 and base64url texts: a cursor's codec is a parameter known by its round trips (`Pagination.Faithful`) at instants of the years 0 to 9999, in which all creation times are taken to lie.
- UUID syntax of incident ids: they are non-empty strings compared in lexicographic order, and a cursor with a malformed id is a cursor like any other.
- PostgreSQL, Redis, RabbitMQ and HTTP: statements are atomic steps on tables, publishes append to a log or fail.
- Expiry of deduplication keys during or between batches: keys stay until deleted.
- RateLimit.Limiter: distinct contacts whose key strings coincide, through ':' in an identifier, are one contact, as in the source; errors of Redis are not modelled.
- ConsumerRaces.DisjointGroupsKeepInv: consumers at work on one group at the same time; `IncidentGrouping.RacingConsumers`, `LateCreate`, `LateAttach` and `LateClose` say exactly when each interleaving does harm.
- IncidentGrouping.ConsumerKeepsInv: one consumer; the grouping rules stay fixed, the envelope's tenant is the alert's, and a fingerprint determines labels, source and tenant (`CanonicalKeys.FingerprintInjective` says when the strings do); alerts attached by hand through the HTTP interface, which have no group key, are not events of the run.
- IncidentGrouping.GroupedByLabels: needs names without separators and values without commas; `KeyExactness.RuleExact` shows why.
- KeyExactness.RuleExact: rules that list a label more than once, where the answer depends on how often each is listed (`KeyExactness.DoubledLabelsDetermine`).
- MonitorFairness.ListedInTime: ticks whose listing failed are not counted as ticks.
- EscalationProtocol.ClaimsAndEventsOnce: policies do not change during an escalation, and the history table is left to `Escalator`.
- EscalationProtocol.TimeoutNotEarly: one clock for workers and database.
- Escalator.EscalationService.MonitorStep: actions of others during the tick, which `MonitorFairness` interleaves, and the recovery from panics.
- Overrides.OverrideTable.Create: concurrent creations; `Overrides.RacingCreations` says what two of them do.
- TenantCache.HitsAreFresh: the clock does not run backwards.
- Groups.FrontendAgrees: group paths that lack the leading slash or have an empty first segment, on which the three readings differ.
- Titles, severities, labels and comments of incidents, on-call user names in escalation events, and notifications on event: data carried along.
- AMQP reconnection and acknowledgement, readiness probes, metrics, logging, configuration and the React pages.

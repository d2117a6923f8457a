# Equipment operations: a verified model

This project models the parts of the equipment management backend in which a small mistake
would stay in the data: the availability event timeline, the operational state machine that
connects availability reports (M2), fault reports (M3), work orders and meters, and the batch
algorithms beside them (bulk meter synchronisation, availability import and export, the
pending-balance adjustment, the fleet import planner, the storage migration, the shift board).
`dafny verify dfyconfig.toml` checks everything.

## How it is built

The shared tables are the fields of the class `Tables.Database`; `Tables.State` is their value.
Every service operation that writes is a method over that class, with the source's branches in
the source's order, and is proved against a function from state to state: `Follows` says that
the call commits exactly that state and result, or fails with that error and leaves all tables
as they were (one Prisma transaction is one atomic step; a failure in the middle calls
`Rollback`). The receipt books and the migrated columns are classes of their own
(`PendingBalance.PurchaseDb`, `StorageMigration.LegacyColumn`). For each operation a lemma states
outright, without that function's helpers and with every number written out, when it commits,
why it is rejected and what it writes (`CreatedIff`, `ClosedIff`, `FinalRowExact`,
`UpsertEventMoment`, ...). The theorems are then about those functions and about runs of steps;
`OperationalSteps.Perform` connects every step to the service method it stands for. Runs may
start from any state that meets the invariants, in particular from a fleet without reports and
orders (`NoCausesIsSafe`, `EmptyIsRecorded`, `EmptyIsTraceable`).

| module | content |
|---|---|
| `AvailabilityTimeline` | `register`: insert at any moment, repair two rows; equality with full recomputation, order independence |
| `Orchestrator`, `OperationalBlockers`, `AvailabilityReports`, `FaultReports`, `WorkOrders`, `EquipmentService`, `MeterSync`, `MeterAdjustments`, `LubeReports`, `Sequence`, `BulkMeterSync` | the operations |
| `OperationalSteps` | the thirteen kinds of steps, and what each does to causes and flags |
| `OperationalSafety`, `StopTransitions`, `ReturnToService`, `OperationalHistory`, `StatusHistory`, `ReportTrail`, `PreviousReport` | theorems over steps and whole runs |
| `MeterParser`, `DecimalReading`, `ExcelImport`, `ExportRoundTrip` | reading a meter cell, the two-phase import, the unedited template |
| `PendingBalance` | greedy allocation over receipt lines, receipt and order progress |
| `FleetPlanner` | fresh ids for repeated ones |
| `StorageMigration` | cursor paging over a table that shrinks |
| `ShiftBoard` | the board and the list of unreported equipment |

## Where the code does not keep what it suggests

The model follows the code. These properties turned out false. Each comes with a lemma at a
concrete failing case and with the exact condition under which it holds:

- *An equipment with an active cause of detention is out of service.* Reports, fault reports,
  escalations, closing and all meter operations keep it. Opening an order with impact SI,
  editing an order to impact SI, and moving a closed blocking order back to a live status do
  not: `StepSafeIff` is an equivalence; `OpeningAnOrderCanBreakSafety`,
  `EditingImpactCanBreakSafety` and `ReopeningCanBreakSafety` are concrete steps.
- *A new report is measured against the one immediately before it*
  (`equipment-availability.service.ts:487-492`). When the last earlier date has both shifts and
  the day shift was reported after the night shift, the day shift wins: `PreviousIsImmediateIff`,
  `LateDayReportHidesStop`.
- *After a stop, OPERATIONAL is accepted exactly when nothing blocked the equipment.* It holds if
  and only if the equipment was free before the stop or the report is measured against a stop:
  `AcceptedIfUnblockedIff`. A stop reported late, for a date before the last reported one, is not
  measured, and a blocked equipment gets its OPERATIONAL accepted (it stays out of service):
  `LateStopLetsOperationalPass`.
- *The guard of the pending-balance adjustment rules out the inconsistency exception.* The guard
  adds up all room, the loop skips room of at most 1e-9: `InconsistentIff`, `GuardCountsCrumbs`.
  With no such crumbs, in particular on any grid coarser than the tolerance, the guard suffices.
- *A dot that is not a thousands separator is a decimal point*
  (`equipment-availability.service.ts:247-250`). It is dropped: "12.45" reads as 1245
  (`TwelvePointFortyFive`). A text a.b is read as what it means if and only if the dot groups
  thousands, no decimals follow, or all digits are zero: `DecimalReadsRightIff`. The three-way
  heuristic has no effect at all: `BranchesAgree`.
- *Importing an unedited template changes nothing.* It does so if and only if no equipment has a
  cell with a positive or no reading and comments that are empty or untrimmed text:
  `UneditedImportIff`. The creation of a report stores comments as sent, so " x" is rewritten:
  `UntrimmedCommentsAreRewritten`.

## Conventions

- Rows of tables without deletions are identified by their position, so a later row is also one
  created later (`createdAt` order). Availability events carry an explicit id and creation time,
  because their order is the subject; both are arbitrary.
- Times are integer milliseconds; `Math.floor` of a quotient is Dafny's division by a positive
  constant. Meters are unbounded integers, quantities of the pending balance are reals.
- What comes from outside is a parameter: ids and clock (`Env`), which equipment a user may see
  (`visible`), text search, the hash, file extension and date text of a storage key and whether
  the file and database operations succeed, what JavaScript's `Number` makes of text that is not
  plain digits.
- `guards` in the work order and equipment operations stands for the checks on fields the model
  does not carry (permissions, detention dates, signatures, stock); theorems hold for both values.
- `WorkOrders.OwnsOrder` includes that the order's equipment exists, a foreign key of the schema.

## Model

| member | source | states |
|---|---|---|
| AvailabilityTimeline.RegisterEvent | backend/src/features/equipment-availability/availability-event.service.ts:27-178 | One registration: rejected without any change, or the row is appended and only it and its direct successor are rewritten in place; the new table is the one `Inserted` describes. |
| AvailabilityTimeline.RegisteredIff | backend/src/features/equipment-availability/availability-event.service.ts:27-82 | Which request is registered, and which rejection every other one gets, in the order of the checks. |
| AvailabilityTimeline.RegisteredRow | backend/src/features/equipment-availability/availability-event.service.ts:84-99 | The registered row repeats its request field by field; its origin is MANUAL unless named. |
| AvailabilityTimeline.PrecedingRow | backend/src/features/equipment-availability/availability-event.service.ts:101-119 | The row found is in the same timeline and below the event, and no other row of the timeline lies between; none is found only when no row is below. |
| AvailabilityTimeline.FollowingRow | backend/src/features/equipment-availability/availability-event.service.ts:121-139 | The same above the event. |
| AvailabilityTimeline.InsertedFrame | backend/src/features/equipment-availability/availability-event.service.ts:141-175 | Every row but the new one and its direct successor is left exactly as it was. |
| AvailabilityTimeline.InsertedExact | backend/src/features/equipment-availability/availability-event.service.ts:101-175 | Inductive step: if every elapsed time and previous status of a table is exact, repairing two rows keeps all of them exact, wherever in time the event falls. |
| AvailabilityTimeline.RunExact | backend/src/features/equipment-availability/availability-event.service.ts:84-175 | After any sequence of calls, accepted or rejected, in any order of time: the first event of each timeline has no elapsed time, every other one has the floored gap to its immediate predecessor, and its previous status is the predecessor's status when that was registered later, otherwise the override or the predecessor's status. |
| AvailabilityTimeline.ElapsedInMilliseconds | backend/src/features/equipment-availability/availability-event.service.ts:84-168 | For every event and the one directly before it in its timeline, after any calls: the elapsed time is some m >= 0 with 60000 m <= difference in milliseconds < 60000 (m + 1). |
| AvailabilityTimeline.RepairEqualsRecompute | backend/src/features/equipment-availability/availability-event.service.ts:101-175 | The incrementally repaired table equals the table whose elapsed times are all computed afresh. |
| AvailabilityTimeline.NoOverridesChain | backend/src/features/equipment-availability/availability-event.service.ts:141-175 | Without overrides every event's previous status is the status of its immediate predecessor. |
| AvailabilityTimeline.OrderIndependence | backend/src/features/equipment-availability/availability-event.service.ts:101-175 | Two runs that accept the same requests, no two for one moment and none with an override, end with the same elapsed time and previous status for each event, whatever the order, the ids and the creation times. |
| AvailabilityTimeline.OthersUntouched | backend/src/features/equipment-availability/availability-event.service.ts:101-175 | A call for one tenant and equipment changes no row of another. |
| AvailabilityTimeline.ManualCallsAccepted | backend/src/features/equipment-availability/availability-event.service.ts:33-82 | Manual reports with a cell, without a fault report and with fresh ids are all accepted. |
| AvailabilityTimeline.FindTimeline | backend/src/features/equipment-availability/availability-event.service.ts:180-200 | The listing holds exactly the rows of the tenant and equipment inside the date range. |
| AvailabilityTimeline.TimelineOrdered | backend/src/features/equipment-availability/availability-event.service.ts:180-200 | The listing is strictly ordered by (eventAt, createdAt, id). |
| AvailabilityTimeline.ListingStatesGaps | backend/src/features/equipment-availability/availability-event.service.ts:141-200 | In the full listing of a reachable timeline each row states its gap to the row printed above it. |
| AvailabilityTimeline.ElapsedSumBound | backend/src/features/equipment-availability/availability-event.service.ts:141-175 | The elapsed minutes of n events never exceed the whole minutes between the first and the last, and fall short of them by at most n - 2 (0 for a single event), one less than the rounding of n - 1 gaps suggests. |
| Sequence.GetNextCorrelative | backend/src/common/sequence/sequence.service.ts:38-74 | The tenant's counter for the document type moves by one from its stored value or from 0, and the correlative is that number, padded. |
| Sequence.FormatInjective | backend/src/common/sequence/sequence.service.ts:69-73 | Different numbers give different correlatives, also past the width where padding stops. |
| Sequence.RfSpelled | backend/src/common/sequence/sequence.service.ts:69-73 | A fault report correlative is RF- and the number, padded to five digits. |
| MeterSync.ApplyCurrentMeterChange | backend/src/features/equipments/equipment-meter-sync.ts:9-43 | Nothing for an unchanged value, otherwise exactly one log row and the new meter. |
| MeterSync.MeterChangeSpelled | backend/src/features/equipments/equipment-meter-sync.ts:9-43 | A change to another value sets the meter and appends one log row that repeats the change; no other part of the tables moves. |
| MeterSync.AdvanceMeter | backend/src/features/equipment-availability/equipment-availability.service.ts:655-669 | A reading that is not ahead of the meter is ignored; one ahead of it is logged with its origin. |
| MeterSync.MeterChangedChained | backend/src/features/equipments/equipment-meter-sync.ts:22-42 | A change that declares the meter it found keeps the log a chain that ends at the current meter. |
| OperationalBlockers.BlockingFaults | backend/src/features/equipments/operational-blockers.ts:60-94 | Exactly the HIGH faults of the equipment that are OPEN, or LINKED without an order or to one that is not closed; newest first. |
| OperationalBlockers.BlockingOrders | backend/src/features/equipments/operational-blockers.ts:96-125 | Exactly the orders with impact SI that are not closed, minus the excluded one; newest first. |
| OperationalBlockers.ResolveReturnToService | backend/src/features/equipments/operational-blockers.ts:52-133 | The two loops collect fault causes, then order causes, each with its own id and status; allowed when both lists are empty. |
| OperationalBlockers.AllowedIffNotBlocked | backend/src/features/equipments/operational-blockers.ts:52-133 | The return is allowed if and only if no active HIGH fault and no unclosed SI order exists. |
| OperationalBlockers.AllowedSpelled | backend/src/features/equipments/operational-blockers.ts:52-133 | Allowed if and only if every HIGH report of the equipment is neither OPEN nor LINKED to a missing or unclosed order, and every order with impact SI is CLOSED. |
| OperationalBlockers.ReportsFirst | backend/src/features/equipments/operational-blockers.ts:60-94 | Entry k of the causes is the k-th blocking report, with its own correlative and status. |
| OperationalBlockers.OrdersNext | backend/src/features/equipments/operational-blockers.ts:96-125 | After all reports, entry k is the k-th blocking order, with its own status. |
| OperationalBlockers.ClosedOrderNeedsNoExclusion | backend/src/features/equipments/operational-blockers.ts:103-105 | Excluding an order that is already closed changes nothing, so the exclusion made on closing has no effect. |
| Orchestrator.FindActiveFault | backend/src/features/equipments/equipment-operational-orchestrator.service.ts:190-224 | A fault of the equipment that is active, or none exactly when no fault of it is active. |
| Orchestrator.NewestFault | backend/src/features/equipments/equipment-operational-orchestrator.service.ts:190-224 | The newest active fault of the equipment in the given status. |
| Orchestrator.ApplyStopTransition | backend/src/features/equipments/equipment-operational-orchestrator.service.ts:110-188 | The committed state and result of a stop: flag off, a LOW stub with the next correlative only if nothing is active and there is a contract. |
| Orchestrator.StopResult | backend/src/features/equipments/equipment-operational-orchestrator.service.ts:110-188 | Result of a stop: the active fault found, or the stub created, or neither without a contract; completion is asked for exactly when a stub was created. |
| Orchestrator.StubRow | backend/src/features/equipments/equipment-operational-orchestrator.service.ts:132-166 | The stub is LOW and OPEN, under the equipment's contract, with the reading of the report and the next RF correlative of the tenant. |
| Orchestrator.OnOperationalStatusChange | backend/src/features/equipments/equipment-operational-orchestrator.service.ts:38-108 | The transition as one transaction: unknown equipment fails without a write, a foreign decision is evaluated again, a blocked return writes nothing. |
| Orchestrator.StopsTakeOutOfService | backend/src/features/equipments/equipment-operational-orchestrator.service.ts:38-108 | DOWN_FAILURE and DOWN_MAINTENANCE of an own equipment always turn its flag off and no other one's. |
| Orchestrator.ForeignDecisionIgnored | backend/src/features/equipments/equipment-operational-orchestrator.service.ts:52-108 | A decision taken for another tenant or equipment does not count: the outcome is that of the causes found now. |
| Orchestrator.OtherChangesWriteNothing | backend/src/features/equipments/equipment-operational-orchestrator.service.ts:38-108 | Any change that is neither a stop nor a return from one writes nothing and reports the flag as found. |
| AvailabilityReports.FindCell | backend/src/features/equipment-availability/equipment-availability.service.ts:507-521 | Finds a cell of the key exactly when one exists. |
| AvailabilityReports.LatestEarlierCell | backend/src/features/equipment-availability/equipment-availability.service.ts:523-534 | The report of the latest earlier date, created last among those of that date. |
| AvailabilityReports.CreateReport | backend/src/features/equipment-availability/equipment-availability.service.ts:553-697 | The whole `create` as one transaction: its outcome and tables follow `Create`, and any failure leaves the tables as they were. |
| ReportTrail.CreateEventMoment | backend/src/features/equipment-availability/equipment-availability.service.ts:458-475 | The event of a committed create is at the midnight of the report date plus the configured start of its shift. |
| AvailabilityReports.UpsertRow | backend/src/features/equipment-availability/equipment-availability.service.ts:1856-2006 | The whole `upsertRow` likewise, editing the existing cell in place. |
| ReportTrail.UpsertEventMoment | backend/src/features/equipment-availability/equipment-availability.service.ts:1899-1901 | The event of a committed upsert is at the current moment exactly when a cell of the key was stored before, otherwise at the start of the shift. |
| AvailabilityReports.ResolveShift | backend/src/features/equipment-availability/equipment-availability.service.ts:350-362 | The night shift only where the tenant works one and the report names it. |
| AvailabilityReports.ReportDateIsMidnight | backend/src/features/equipment-availability/equipment-availability.service.ts:451-456 | The midnight of the UTC day that holds the moment. |
| PreviousReport.StartsOnItsDay | backend/src/features/equipment-availability/equipment-availability.service.ts:458-475 | Whatever the configured times, the event of a new cell falls on the cell's own day. |
| PreviousReport.EventsFollowShiftsIff | backend/src/features/equipment-availability/equipment-availability.service.ts:458-475 | Over all configured times of the day: the events of new cells are ordered as the cells' dates and shifts are if and only if the day shift starts before the night shift. |
| PreviousReport.NoneIffFirst | backend/src/features/equipment-availability/equipment-availability.service.ts:493-535 | No previous status is found exactly when the equipment has no earlier report. |
| PreviousReport.PreviousIsImmediateIff | backend/src/features/equipment-availability/equipment-availability.service.ts:487-535 | The comment promises the status of the report immediately before. With one cell per shift, that holds if and only if it is not the case that the last earlier date decides and its day shift was reported after its night shift. |
| PreviousReport.LateDayReportHidesStop | backend/src/features/equipment-availability/equipment-availability.service.ts:521-534 | A concrete table where a night stop is hidden by the day report entered after it. |
| FaultReports.CreateFaultReport | backend/src/features/fault-reports/fault-reports.service.ts:122-273 | The whole rule engine as one transaction: LOW stays open, MEDIUM gets an order with impact NO, HIGH one with impact SI and takes the equipment out of service. |
| FaultReports.CreatedIff | backend/src/features/fault-reports/fault-reports.service.ts:122-150 | Accepted if and only if the tenant owns the equipment and it has a contract, in service or not; each of the two rejections exactly in its own case. |
| FaultReports.NewReportRow | backend/src/features/fault-reports/fault-reports.service.ts:146-188 | The new report lies under the contract of its equipment, with the next RF correlative of its tenant, and the counter has moved by one. |
| FaultReports.ReportAndOrder | backend/src/features/fault-reports/fault-reports.service.ts:190-254 | The new report is open exactly when LOW; otherwise it names the one new open order of the same equipment, whose impact is SI exactly when HIGH. |
| FaultReports.CreateWorkOrderFromReport | backend/src/features/fault-reports/fault-reports.service.ts:396-471 | Only an OPEN report of LOW criticality is escalated; all other cases fail without a write. |
| FaultReports.EscalatedIff | backend/src/features/fault-reports/fault-reports.service.ts:396-430 | Accepted if and only if the report is the tenant's, OPEN and LOW; each of the three rejections exactly in its own case. |
| FaultReports.EscalatedResult | backend/src/features/fault-reports/fault-reports.service.ts:431-471 | One new OPEN order of the report's equipment with impact NO, the report LINKED to it, and nothing else changed. |
| FaultReports.LinkToNewOrder | backend/src/features/fault-reports/fault-reports.service.ts:190-254 | Order and report refer to each other: a new OPEN order, the report LINKED to it. |
| WorkOrders.OpenOrder | backend/src/features/work-orders/work-orders.service.ts:414-630 | A new OPEN order with its impact; flags and faults stay. |
| WorkOrders.OpenedExact | backend/src/features/work-orders/work-orders.service.ts:414-630 | When an order is opened and the exact row that is appended. |
| WorkOrders.UpdateImpact | backend/src/features/work-orders/work-orders.service.ts:1409-1643 | The impact of an order that is not closed is replaced, and nothing else. |
| WorkOrders.EditedExact | backend/src/features/work-orders/work-orders.service.ts:1409-1643 | When an edit is accepted, each rejection exactly in its case, and the one field that changes. |
| WorkOrders.UpdateStatus | backend/src/features/work-orders/work-orders.service.ts:2297-2323 | Any status but CLOSED, also from CLOSED; entering IN_PROGRESS with impact SI stops the equipment. |
| WorkOrders.MovedExact | backend/src/features/work-orders/work-orders.service.ts:2297-2323 | Every known order takes every live status; the flag goes off exactly on entering IN_PROGRESS with impact SI. |
| WorkOrders.CloseOrder | backend/src/features/work-orders/work-orders.service.ts:1968-2262 | Closing as one transaction: status, meter with its two guards, flag from the declared state and the remaining causes; a rejected meter undoes the status. |
| WorkOrders.ClosedIff | backend/src/features/work-orders/work-orders.service.ts:1968-2131 | Closing commits if and only if the order is known and not closed, the other checks pass, and the final meter is not below the current one nor more than 24 hours or 500 kilometres above it unless confirmed. |
| WorkOrders.ClosedMeter | backend/src/features/work-orders/work-orders.service.ts:2107-2131 | The final meter becomes the meter of the equipment, with one log row that names the order when it differs. |
| EquipmentService.CreateEquipment | backend/src/features/equipments/equipments.service.ts:239-262 | A new row in service, and a log row when initial and current meter differ. |
| EquipmentService.CreatedExact | backend/src/features/equipments/equipments.service.ts:239-262 | When a creation is accepted and everything it writes. |
| EquipmentService.UpdateEquipment | backend/src/features/equipments/equipments.service.ts:1574-1697 | A different meter is logged forwards or backwards; absent fields stay; a patch of other fields only is accepted, an empty one rejected. |
| EquipmentService.UpdatedExact | backend/src/features/equipments/equipments.service.ts:1574-1697 | Each rejection exactly in its case; otherwise the present fields are written, the absent ones stay, and a meter that differs is logged. |
| MeterAdjustments.AdjustMeter | backend/src/features/meter-adjustments/meter-adjustments.service.ts:14-70 | The adjustment as one transaction: the three rejections in order, then the adjustment row and, when the value differs from the meter found, the log row that names it. |
| MeterAdjustments.AdjustedIff | backend/src/features/meter-adjustments/meter-adjustments.service.ts:14-70 | Accepted if and only if the equipment is the tenant's, both values are not negative, and the meter does not go back unless the trimmed reason has fifteen characters. |
| MeterAdjustments.AdjustedExact | backend/src/features/meter-adjustments/meter-adjustments.service.ts:14-70 | The adjustment keeps the declared old value, while the log row starts at the meter actually found. |
| MeterAdjustments.BackwardsNeedsReason | backend/src/features/meter-adjustments/meter-adjustments.service.ts:34-45 | A committed adjustment leaves a meter of at least zero, and one that turns it back gives a reason of at least fifteen characters. |
| LubeReports.DispatchLubricants | backend/src/features/lube-reports/lube-reports.service.ts:135-293 | The dispatch as one transaction: a reading behind the meter is rejected, one ahead of it is logged without origin, the report's own counter moves, and a failing line undoes all of it. |
| LubeReports.DispatchedExact | backend/src/features/lube-reports/lube-reports.service.ts:135-293 | When a dispatch is accepted, and the meter, log row and counter it writes. |
| LubeReports.FaultCounterKept | backend/src/common/sequence/sequence.service.ts:38-74 | The correlative of a dispatch never moves the counter of fault reports. |
| BulkMeterSync.MergeReadings | backend/src/features/equipments/equipments.service.ts:1864-1888 | The request fails with the error of its first invalid item, or the items are merged. |
| BulkMeterSync.MergedMeaning | backend/src/features/equipments/equipments.service.ts:1864-1888 | One merged item per distinct equipment, and it is the last one sent for it. |
| BulkMeterSync.MergedOrder | backend/src/features/equipments/equipments.service.ts:1864-1888 | Merged items keep the order in which their equipment is first named. |
| BulkMeterSync.SyncReading | backend/src/features/equipments/equipments.service.ts:1919-1971 | One item: verdict and tables as judged against the row it meets. |
| BulkMeterSync.BulkSyncMeterReadings | backend/src/features/equipments/equipments.service.ts:1844-1992 | The whole request as one transaction: limits, merge, then the items one after the other. |
| BulkMeterSync.BulkAcceptedIff | backend/src/features/equipments/equipments.service.ts:1856-1881 | A request commits if and only if it has 1 to 500 items, each with an equipment and a whole reading of at least 0. |
| BulkMeterSync.FinalRowExact | backend/src/features/equipments/equipments.service.ts:1864-1978 | For every equipment with last reading v: its meter ends at v if the equipment is the tenant's and visible, v is not below the meter, and v is at most 24 hours or 500 kilometres above it or confirmed; in all other cases the row is as it was. |
| BulkMeterSync.VerdictsExact | backend/src/features/equipments/equipments.service.ts:1926-1978 | Every named equipment is listed with the one verdict its last reading deserves, stated case by case in plain numbers; no other equipment is listed. |
| BulkMeterSync.SyncAllIsIndependent | backend/src/features/equipments/equipments.service.ts:1919-1971 | The sequential loop leaves each named row as its own item alone would, and every other row as it was. |
| BulkMeterSync.CountsAreIndependent | backend/src/features/equipments/equipments.service.ts:1919-1971 | The counters count the verdicts taken on the starting tables. |
| BulkMeterSync.BulkSyncCounts | backend/src/features/equipments/equipments.service.ts:1864-1992 | successes + unchanged + errors = number of distinct ids of the request. |
| BulkMeterSync.BulkSyncRefines | backend/src/features/equipments/equipments.service.ts:1864-1978 | Seen from one equipment: untouched when the request does not name it, otherwise what its last reading makes of it alone; no meter goes back, and unconfirmed none rises by more than its limit. |
| BulkMeterSync.RowAfterBounds | backend/src/features/equipments/meter-jump-limits.util.ts:4-12 | An unconfirmed reading raises a meter by at most 24 hours or 500 kilometres, by its meter type, and none lowers it. |
| OperationalSteps.CreateEffect | backend/src/features/equipment-availability/equipment-availability.service.ts:553-697 | Everything a committed `create` may do to faults, orders and flags: off for a stop, on only for a return without cause, one LOW stub at most. |
| OperationalSteps.UpsertEffect | backend/src/features/equipment-availability/equipment-availability.service.ts:1856-2006 | The same for `upsertRow`. |
| OperationalSteps.Perform | backend/src/features/equipment-availability/equipment-availability.service.ts:553-2006 | Each of the thirteen steps is a call of its service method, and leaves the database as `Apply` says. |
| OperationalSteps.ReportKeepsBlocked | backend/src/features/equipments/equipment-operational-orchestrator.service.ts:110-188 | A report leaves the list of blockers of every equipment exactly as it was: stubs are LOW. |
| OperationalSteps.FaultReportEffect | backend/src/features/fault-reports/fault-reports.service.ts:190-254 | A fault report adds a cause exactly for its own equipment and exactly when HIGH, and then the flag is off. |
| OperationalSteps.BlockedAfterLink | backend/src/features/fault-reports/fault-reports.service.ts:396-471 | Linking an open report to a new order adds a cause only through impact SI. |
| OperationalSafety.StepSafeIff | backend/src/features/equipments/operational-blockers.ts:52-133 | For each of the thirteen kinds of steps: safety (a cause implies out of service) survives if and only if the step is not a new order with impact SI, an edit to impact SI, or the reopening of a closed order that blocks without stopping the equipment. |
| OperationalSafety.RunSafe | backend/src/features/equipment-availability/equipment-availability.service.ts:553-697 | Safety holds after any run without those three kinds of steps. |
| OperationalSafety.CloseMeaning | backend/src/features/work-orders/work-orders.service.ts:2236-2259 | After closing, the equipment is in service exactly when it was declared so and no cause is left. |
| OperationalSafety.ReturnOnlyWithoutCause | backend/src/features/equipments/equipment-operational-orchestrator.service.ts:60-107 | The flag goes from off to on only by a report OPERATIONAL after a stop with no cause, or by closing an order with no cause left. |
| OperationalSafety.OpeningAnOrderCanBreakSafety | backend/src/features/work-orders/work-orders.service.ts:414-630 | A concrete order with impact SI that leaves its equipment in service with a cause. |
| OperationalSafety.EditingImpactCanBreakSafety | backend/src/features/work-orders/work-orders.service.ts:1501-1503 | The same for an open order edited to impact SI. |
| OperationalSafety.ReopeningCanBreakSafety | backend/src/features/work-orders/work-orders.service.ts:2297-2323 | The same for a closed order with impact SI that is moved back to OPEN. |
| StopTransitions.BlockedResultUnreachable | backend/src/features/equipments/equipment-operational-orchestrator.service.ts:70-95 | The result BLOCKED_BY_ACTIVE_CAUSES never reaches a caller of either report operation. |
| StopTransitions.RunOfStops | backend/src/features/equipments/equipment-operational-orchestrator.service.ts:110-188 | Any run of stop reports: out of service, an active fault if there is a contract, one stub in all and only if none was active, and the list of blockers of every equipment unchanged. |
| StopTransitions.UpsertStoresCell | backend/src/features/equipment-availability/equipment-availability.service.ts:1931-1957 | After an upsert its cell is found and holds the reported status, reading and comments. |
| StopTransitions.StoredCellFound | backend/src/features/equipment-availability/equipment-availability.service.ts:1913-1965 | A lookup by the key finds the stored cell with status, reading, comments and reporter of the report; a new cell lies under the contract of its equipment. |
| ReturnToService.ReturnAfterStop | backend/src/features/equipment-availability/equipment-availability.service.ts:1899-1998 | OPERATIONAL on a stopped cell: rejected with the list of blockers exactly when a cause is active, otherwise back in service. |
| ReturnToService.CreateReturn | backend/src/features/equipment-availability/equipment-availability.service.ts:587-683 | `create` with status OPERATIONAL after a stop, in any later shift: rejected with the list of blockers exactly when a cause is active, otherwise committed with the equipment back in service. |
| ReturnToService.UpsertReturn | backend/src/features/equipment-availability/equipment-availability.service.ts:1899-1998 | The same for `upsertRow`. |
| ReturnToService.AcceptedIff | backend/src/features/equipment-availability/equipment-availability.service.ts:553-697 | Every report of either operation, without any assumption: it commits if and only if the equipment is the tenant's, the event id is fresh, a created cell is free, and it is not a return to service of a blocked equipment. |
| ReturnToService.CreateRejectedFor | backend/src/features/equipment-availability/equipment-availability.service.ts:553-653 | Why a create is rejected, in the order of the checks. |
| ReturnToService.UpsertRejectedFor | backend/src/features/equipment-availability/equipment-availability.service.ts:1856-1925 | Why an upsert is rejected; an existing cell is no reason. |
| ReturnToService.AfterStopsAcceptedIff | backend/src/features/equipments/equipment-operational-orchestrator.service.ts:60-107 | After any run of stops, any unhindered report commits if and only if it is no return to service or nothing blocked the equipment before the first stop; a rejection lists the causes of that moment, and the equipment is in service afterwards exactly when the committed report is a return. |
| ReturnToService.AcceptedIfUnblockedIff | backend/src/features/equipment-availability/equipment-availability.service.ts:493-535 | OPERATIONAL after a run of stops is accepted exactly when nothing blocked the equipment before, if and only if the equipment was free or the report is measured against a stop. |
| ReturnToService.LateStopLetsOperationalPass | backend/src/features/equipment-availability/equipment-availability.service.ts:521-534 | A concrete blocked equipment, last reported on date 5 and stopped late for date 3, whose OPERATIONAL for date 6 is accepted. |
| ReturnToService.StopsThenOperational | backend/src/features/equipments/equipment-operational-orchestrator.service.ts:70-107 | In particular OPERATIONAL measured against the last stop's cell, through either operation, is accepted if and only if nothing blocked the equipment before the first stop; otherwise it is rejected with the causes of that moment. |
| ReturnToService.StopThenOperational | backend/src/features/equipment-availability/equipment-availability.service.ts:587-683 | The same for one stop. |
| ReturnToService.SameCellIsMeasured | backend/src/features/equipment-availability/equipment-availability.service.ts:503-505 | An upsert of the stop's cell is measured against it. |
| ReturnToService.NightIsMeasuredByDay | backend/src/features/equipment-availability/equipment-availability.service.ts:507-521 | A new night report is measured against the day shift's stop of its date. |
| ReturnToService.NextDateIsMeasuredByLast | backend/src/features/equipment-availability/equipment-availability.service.ts:523-534 | A new report of a later date is measured against a new stop of the last date reported. |
| OperationalHistory.RunRecorded | backend/src/features/equipments/equipment-meter-sync.ts:9-43 | Over any interleaving of the thirteen steps: meter logs chain up to the current meter, correlatives were issued and are distinct, one cell per shift, and the events come from `register` alone. |
| OperationalHistory.RunCorrelativesDistinct | backend/src/features/equipments/equipment-operational-orchestrator.service.ts:136-141 | No two fault reports of a tenant, M3 or stub, share a correlative. |
| OperationalHistory.RunTimelineExact | backend/src/features/equipment-availability/equipment-availability.service.ts:638-653 | Events written through reports keep every elapsed time equal to a full recomputation. |
| StatusHistory.RunStatusExact | backend/src/features/equipment-availability/availability-event.service.ts:141-175 | Over any run of steps each event's previous status is its neighbour's when that was registered later, otherwise the status its report resolved from the cells at the time, or the neighbour's when there was none; elapsed times are exact. |
| OperationalHistory.MeterIsMaximum | backend/src/features/fault-reports/fault-reports.service.ts:174-188 | Over reports and fault reports the meter is the maximum of its start and all accepted readings, in whatever order. |
| ReportTrail.RunTraceable | backend/src/features/equipment-availability/equipment-availability.service.ts:553-697 | Over any run: the event registered last for a cell says what the cell says, every cell has one, and each log row that names an origin names an existing report, fault, order or adjustment of the same equipment; an event of the report, the fault and the adjustment also hold its value, an order may have been edited since. |
| ReportTrail.FinishTrace | backend/src/features/equipment-availability/equipment-availability.service.ts:638-680 | A finished report leaves one event with the report's own data at the given moment and at most one log row, with the cell as its origin. |
| MeterParser.BranchesAgree | backend/src/features/equipment-availability/equipment-availability.service.ts:248-258 | The thousands heuristic decides nothing: all three branches drop every dot and comma. |
| MeterParser.NumberCells | backend/src/features/equipment-availability/equipment-availability.service.ts:237-243 | A native number is read when positive, as the nearest whole number with halves up; blank cells and blank texts are not read. |
| MeterParser.SeparatorsAreIgnored | backend/src/features/equipment-availability/equipment-availability.service.ts:237-262 | Any text of digits and separators, alone or before a unit, reads as the number its digits form. |
| MeterParser.MeterRoundTrip | backend/src/features/equipment-availability/equipment-availability.service.ts:237-262 | Every positive number reads back from its plain, dotted and comma text, with or without an accepted unit. |
| MeterParser.AcceptedUnits | backend/src/features/equipment-availability/equipment-availability.service.ts:245 | h, hr, hrs and horas are units, also after a space and before a dot. |
| MeterParser.GroupedReadsBack | backend/src/features/equipment-availability/equipment-availability.service.ts:248-256 | Grouped text matches the pattern and its digits are the number's. |
| MeterParser.DecimalPointIsDropped | backend/src/features/equipment-availability/equipment-availability.service.ts:248-258 | A text a.b, alone or before a unit, reads as the digits of a and b together. |
| DecimalReading.DecimalReadsRightIff | backend/src/features/equipment-availability/equipment-availability.service.ts:246-258 | The comments announce decimals. A text a.b, alone or before a unit, is read as what it means (thousands before exactly three digits, otherwise decimals, rounded) if and only if the dot groups thousands, no decimals follow it, or all digits are zero. |
| DecimalReading.TwelvePointFortyFive | backend/src/features/equipment-availability/equipment-availability.service.ts:249 | 12.45 reads as 1245 where 12 is meant. |
| ExcelImport.ValidateImport | backend/src/features/equipment-availability/equipment-availability.service.ts:1530-1727 | The loop with its growing set of seen equipment yields the verdict of each row, judged with exactly the equipment of the earlier rows. |
| ExcelImport.JudgedExactly | backend/src/features/equipment-availability/equipment-availability.service.ts:1583-1710 | Which of the four errors or three actions a row gets, each exactly in its case. |
| ExcelImport.PreviewExact | backend/src/features/equipment-availability/equipment-availability.service.ts:1557-1726 | What the preview of a row repeats of it and when it warns that the reading goes back. |
| ExcelImport.PreviewOfRow | backend/src/features/equipment-availability/equipment-availability.service.ts:1530-1727 | A row that names an equipment gets the preview judged against the rows above it, after the previews of those rows. |
| ExcelImport.CommitImport | backend/src/features/equipment-availability/equipment-availability.service.ts:1784-1842 | One transaction per row, failures collected: every row sent is counted as committed or listed as an error. |
| ExcelImport.SavedIff | backend/src/features/equipment-availability/equipment-availability.service.ts:1795-1835 | A row is saved if and only if its verdict is CREATE or UPDATE and its upsert commits on the tables left by the rows before. |
| ExcelImport.RowTxContents | backend/src/features/equipment-availability/equipment-availability.service.ts:1931-1957 | A committed row leaves exactly its own contents and no trace in the cells of other equipment. |
| ExcelImport.JudgeByContents | backend/src/features/equipment-availability/equipment-availability.service.ts:1605-1710 | A verdict depends on the fleet and on the row's own cell only; an error verdict on the fleet and the file alone. |
| ExcelImport.CommitAllContents | backend/src/features/equipment-availability/equipment-availability.service.ts:1784-1842 | After the batch each saved row's contents are in place and every other equipment is as before. |
| ExcelImport.ImportIsIdempotent | backend/src/features/equipment-availability/equipment-availability.service.ts:1605-1842 | Validate, commit, validate again: a saved row is a SKIP, every other row has the verdict it had. |
| ExportRoundTrip.LabelReadsBack | backend/src/features/equipment-availability/equipment-availability.service.ts:114-129 | Each label of the template is read back as the status it stands for. |
| ExportRoundTrip.ExportReadsBack | backend/src/features/equipment-availability/equipment-availability.service.ts:1243-1256 | Importing the unedited template: a reported equipment is a SKIP unless its reading is not positive (error) or its comments are empty or untrimmed text (update); an unreported one is an error. |
| ExportRoundTrip.UneditedImportIff | backend/src/features/equipment-availability/equipment-availability.service.ts:1243-1256 | Exporting, importing unedited and committing leaves all tables as they were if and only if no equipment has a cell with a positive or no reading and comments that are empty or untrimmed. |
| ExportRoundTrip.UntrimmedCommentsAreRewritten | backend/src/features/equipment-availability/equipment-availability.service.ts:1557-1558 | A concrete cell with comments that start with a space: the unedited import changes the tables. |
| PendingBalance.PurchaseDb.FillLines | backend/src/features/inventory-adjustment/inventory-adjustment.service.ts:83-113 | The loop with its early stop and its skips computes the greedy allocation. |
| PendingBalance.PurchaseDb.ReceiptProgress | backend/src/features/inventory-adjustment/inventory-adjustment.service.ts:115-135 | The two flags decide PENDING, PARTIAL or COMPLETED. |
| PendingBalance.PurchaseDb.OrderProgress | backend/src/features/inventory-adjustment/inventory-adjustment.service.ts:137-183 | The order's next status from all its receipts, or none. |
| PendingBalance.PurchaseDb.SyncPendingBalance | backend/src/features/inventory-adjustment/inventory-adjustment.service.ts:73-184 | The synchronisation as one transaction: what could not be placed undoes the lines. |
| PendingBalance.CreateAdjustment | backend/src/features/inventory-adjustment/inventory-adjustment.service.ts:251-343 | Guard, then synchronisation; every rejection leaves the books alone. |
| PendingBalance.AllocateConserves | backend/src/features/inventory-adjustment/inventory-adjustment.service.ts:83-108 | What the lines gained and what is left add up to the quantity. |
| PendingBalance.AllocateWithinCapacity | backend/src/features/inventory-adjustment/inventory-adjustment.service.ts:95-108 | A line only grows, and never beyond the larger of what it expects and what it had. |
| PendingBalance.AllocateSucceedsIff | backend/src/features/inventory-adjustment/inventory-adjustment.service.ts:83-113 | Success if and only if the room of the lines not skipped as crumbs covers the quantity within tolerance. |
| PendingBalance.AllocateInOrder | backend/src/features/inventory-adjustment/inventory-adjustment.service.ts:95-108 | A line is touched only when every earlier line is full within tolerance. |
| PendingBalance.GridAllocationExact | backend/src/features/inventory-adjustment/inventory-adjustment.service.ts:83-113 | On a grid coarser than the tolerance: success exactly when the total room covers the quantity, and then nothing is left over. |
| PendingBalance.InconsistentIff | backend/src/features/inventory-adjustment/inventory-adjustment.service.ts:305-331 | Past the guard the inconsistency is raised exactly when the usable room falls short of the quantity. |
| PendingBalance.GuardPassesIff | backend/src/features/inventory-adjustment/inventory-adjustment.service.ts:251-331 | The guard passes exactly for a positive quantity on a receipt of the tenant, the order and the warehouse that is not pending, with lines of the article whose room reaches the quantity. |
| PendingBalance.GuardSufficesWithoutCrumbs | backend/src/features/inventory-adjustment/inventory-adjustment.service.ts:305-331 | With no line of room between 0 and the tolerance the guard alone rules the inconsistency out. |
| PendingBalance.GuardCountsCrumbs | backend/src/features/inventory-adjustment/inventory-adjustment.service.ts:305-331 | A concrete receipt that passes the guard and is then rejected, because the guard counts room the loop skips. |
| PendingBalance.CreateOnGridIsExact | backend/src/features/inventory-adjustment/inventory-adjustment.service.ts:305-331 | On such a grid every accepted adjustment is placed to the last unit. |
| PendingBalance.SyncConserves | backend/src/features/inventory-adjustment/inventory-adjustment.service.ts:83-113 | A successful sync adds the quantity up to the tolerance, within capacities, to lines of the article only. |
| PendingBalance.ReceiptCompletedIffFilled | backend/src/features/inventory-adjustment/inventory-adjustment.service.ts:115-135 | After a sync the receipt is COMPLETED if every line is filled within tolerance, otherwise PARTIAL. |
| PendingBalance.OrderStatusExact | backend/src/features/inventory-adjustment/inventory-adjustment.service.ts:137-183 | After a sync of more than the tolerance an order in progress is RECEIVED if and only if every line is covered over all its receipts, otherwise PARTIALLY_RECEIVED. |
| PendingBalance.OtherOrdersStay | backend/src/features/inventory-adjustment/inventory-adjustment.service.ts:47-52 | Under every successful sync, an order in any other status than SENT, ORDERED, SENT_TO_SUPPLIER or PARTIALLY_RECEIVED keeps it, and so does every other order. |
| PendingBalance.ReceivedOnlyIfCovered | backend/src/features/inventory-adjustment/inventory-adjustment.service.ts:155-183 | Whatever the quantity, an order is set to RECEIVED only if each line is covered over all its receipts. |
| PendingBalance.TerminalOrdersNeverChange | backend/src/features/inventory-adjustment/inventory-adjustment.service.ts:145-153 | Over any run of syncs a RECEIVED, CLOSED or CANCELLED order never changes. |
| PendingBalance.RunKeepsReceivedTrue | backend/src/features/inventory-adjustment/inventory-adjustment.service.ts:155-183 | Over any run of syncs no order says RECEIVED while a line of it is short. |
| FleetPlanner.Survey | backend/prisma/import-fleet-from-excel.ts:340-353 | Which raw ids occur, and the largest number of every prefix. |
| FleetPlanner.NextFreeId | backend/prisma/import-fleet-from-excel.ts:396-406 | The search terminates, its result is neither assigned nor raw, and it does not iterate when the first candidate is free. |
| FleetPlanner.FirstCandidateIsFree | backend/prisma/import-fleet-from-excel.ts:394-406 | The first candidate is always free: its number exceeds every raw and every earlier generated number of the prefix. |
| FleetPlanner.ResolveDuplicate | backend/prisma/import-fleet-from-excel.ts:387-412 | A repeated row gets the first candidate, and the offset of its prefix moves by exactly one. |
| FleetPlanner.PlanRow | backend/prisma/import-fleet-from-excel.ts:383-415 | One row: the duplicate test is exact, the first occurrence keeps its id, offsets stay true of the rows so far. |
| FleetPlanner.AssignIds | backend/prisma/import-fleet-from-excel.ts:362-458 | All rows planned as specified, or the first repeated id without prefix and number is reported. |
| FleetPlanner.PlannedDistinct | backend/prisma/import-fleet-from-excel.ts:340-415 | All planned ids are pairwise distinct. |
| FleetPlanner.RepeatsCount | backend/prisma/import-fleet-from-excel.ts:385-415 | Generated ids = rows - distinct raw ids. |
| FleetPlanner.GeneratedIdShape | backend/prisma/import-fleet-from-excel.ts:388-406 | A repeated id is replaced by its own letters and the fresh number, padded to the width of the replaced digits and never cut. |
| FleetPlanner.FreshNumberSpelled | backend/prisma/import-fleet-from-excel.ts:394-406 | The fresh number is one more than the largest raw number of the prefix and the ids generated for it before. |
| FleetPlanner.MatchSpelled | backend/prisma/import-fleet-from-excel.ts:388 | An id has prefix and number exactly when it is letters A to Z followed by digits, both present. |
| FleetPlanner.PlanFleetRows | backend/prisma/import-fleet-from-excel.ts:327-458 | It throws exactly when a repeated id has no prefix and number; otherwise ids are distinct, first occurrences keep theirs, generated ids are new and as many as rows minus distinct raw ids. |
| StorageMigration.MigratedIsNotLegacy | backend/src/common/storage/storage-migration.service.ts:71-110 | A migrated row's new key drops it from the query. |
| StorageMigration.MigratesIff | backend/src/common/storage/storage-migration.service.ts:71-110 | A legacy row is migrated if and only if it has a tenant, its trimmed value is more than the prefix, and file and database operations succeed. |
| StorageMigration.MigratedValue | backend/src/common/storage/storage-migration.service.ts:71-110 | A migrated row keeps all but its value, which becomes the key made of tenant, module, month, hash and extension of the path below /uploads/. |
| StorageMigration.KeysSeparateTenants | backend/src/common/storage/storage-migration.service.ts:44-57 | Equal keys come from the same tenant and module, provided their names hold no slash. |
| StorageMigration.PageIsNext | backend/src/common/storage/storage-migration.service.ts:115-130 | Although the table shrinks under it, each page holds the next unvisited legacy rows of the starting table. |
| StorageMigration.PageOfFifty | backend/src/common/storage/storage-migration.service.ts:115-130 | A page holds fifty rows, or all that are left when they are fewer. |
| StorageMigration.LegacyColumn.MigrateRow | backend/src/common/storage/storage-migration.service.ts:132-153 | One row: overwritten and counted as migrated, or left and counted as an error. |
| StorageMigration.LegacyColumn.Migrate | backend/src/common/storage/storage-migration.service.ts:112-155 | The cursor loop terminates and does to the table what one pass over each starting row alone does; the rows visited are the starting legacy rows, each once, in order. |
| StorageMigration.LegacyIdsAscending | backend/src/common/storage/storage-migration.service.ts:112-155 | The visited ids are strictly ascending, so no row is handled twice. |
| StorageMigration.CountsCoverLegacy | backend/src/common/storage/storage-migration.service.ts:132-153 | migrated + errors = number of legacy rows at the start. |
| StorageMigration.SecondPassVisitsErrors | backend/src/common/storage/storage-migration.service.ts:112-155 | A second pass visits exactly the rows the first one reported as errors. |
| StorageMigration.AlreadyMigratedGrows | backend/src/common/storage/storage-migration.service.ts:315-359 | The next run reports as already migrated what this one did plus what this one migrated. |
| StorageMigration.RunMigration | backend/src/common/storage/storage-migration.service.ts:361-399 | Five columns in turn, each with its own file outcomes: nothing without an S3 compatible driver, otherwise every column passed once and the three totals exact. |
| ShiftBoard.StatusFor | backend/src/features/equipment-availability/equipment-availability.service.ts:796-799 | A report is found for an equipment exactly when one exists. |
| ShiftBoard.PendingRowsAreUnreported | backend/src/features/equipment-availability/equipment-availability.service.ts:702-749 | Marking the whole fleet and keeping the pending rows gives the operational fleet without the reported, in the same order. |
| ShiftBoard.FleetSpelled | backend/src/features/equipment-availability/equipment-availability.service.ts:380-401 | Which equipment the board and the list of unreported equipment look at. |
| ShiftBoard.BoardAgreesWithUnreported | backend/src/features/equipment-availability/equipment-availability.service.ts:702-901 | For equal queries the tab PENDING and the list of unreported equipment have the same page, total and paging. |
| ShiftBoard.UnreportedPage | backend/src/features/equipment-availability/equipment-availability.service.ts:702-749 | Entry k of a page is entry (page - 1) * size + k of the whole list, and a page is short only at its end. |
| ShiftBoard.BoardPageSpelled | backend/src/features/equipment-availability/equipment-availability.service.ts:887-901 | The same for a page of the board under any tab. |
| ShiftBoard.TabSpelled | backend/src/features/equipment-availability/equipment-availability.service.ts:435-449 | Each tab holds exactly the rows of its kind, the first one all rows. |
| ShiftBoard.TabKeepsOrder | backend/src/features/equipment-availability/equipment-availability.service.ts:435-449 | Every tab keeps the order of the fleet. |
| ShiftBoard.TabCounts | backend/src/features/equipment-availability/equipment-availability.service.ts:435-449 | Every tab lists as many rows as the summary counts of its kind. |
| ShiftBoard.UnreportedCountAgrees | backend/src/features/equipment-availability/equipment-availability.service.ts:845-848 | The board's unreported count is the total of the other operation. |
| ShiftBoard.RowsPartitionFleet | backend/src/features/equipment-availability/equipment-availability.service.ts:801-832 | One row per equipment in scope, in fleet order: EXCLUDED exactly when out of service, REPORTED exactly when in service with a report, PENDING exactly when in service without one; the three counts add up to the fleet. |
| ShiftBoard.CountByStatus | backend/src/features/equipment-availability/equipment-availability.service.ts:838-843 | One exact counter per status. |
| ShiftBoard.CountByContract | backend/src/features/equipment-availability/equipment-availability.service.ts:856-871 | The contract map of the loop. |
| ShiftBoard.ContractEntriesExact | backend/src/features/equipment-availability/equipment-availability.service.ts:856-875 | One entry per contract key that occurs, with exactly that key's counts. |
| ShiftBoard.ContractColumnsAddUp | backend/src/features/equipment-availability/equipment-availability.service.ts:856-875 | The columns of the contract table add up to the totals. |
| ShiftBoard.BoardSummary | backend/src/features/equipment-availability/equipment-availability.service.ts:834-885 | reported + unreported = fleet, fleet + excluded = all rows, the status counters add up to reported, the contract columns to the totals, and the percentage is the nearest whole one. |

## Left out

- Transaction isolation: steps are atomic and serial; three operations that read before their transaction opens (`createWorkOrderFromReport`, `equipments.update`, the meter adjustment) are serial steps too.
- Work order correlatives (count + 1 over rows that may be deleted), and the correlative shown for an order blocker.
- Work order fields without influence on causes, flag or current meter: parts, fluids, stock movements, detention times, downtime hours, signatures, backlog promotion (which calls `create`).
- WorkOrders.UpdateStatus: the source writes order and equipment outside any transaction when the new status is live; the model makes it one atomic step. A failure between the two writes leaves an order IN_PROGRESS with impact SI on an equipment whose flag was not touched.
- The symptom text of a stub and the notification it triggers.
- 32-bit overflow of the stored counter and of meters, and JavaScript numbers beyond 15 digits in the parser and the planner.
- Status texts in the import sheet that name a member of JavaScript's object prototype, which the source's lookup accepts as a label.
- Checks of the hidden `_info` sheet, the row-count warning and the meter hints of the import; sheet styling and protection.
- A contract whose id is literally `__none__` is merged with equipment without contract on the board, as in the source; the model keeps the key and leaves out its translation back to null.
- The stock movement, weighted cost and document number of an inventory adjustment.
- Catalogue, family, owner and date columns of the fleet import: they influence warnings and copied fields, never ids. Rows without id and type are filtered before the plan and are not part of its input.
- The fleet master import and the fleet import script as writers: they set flags and meters straight from a sheet, and their log rows are MANUAL with the text `fleet-master-import` instead of an origin; runs are runs of the thirteen modelled steps.
- Deletion of equipment (`remove`, and the cascade at `equipments.service.ts:1159-1183`) and the tenant-wide clean-up of the platform administration: positions stand for ids because no modelled step deletes a row.
- Stock, cost and lines of a lubricant dispatch; `warehouseOk` and `linesOk` stand for their checks.
- The two signature columns of work orders are one cursor loop each in the source over the same table; the model gives each its own column of rows.
- `batchCreate`: it is the same upsert in a loop as `commitImport`, inside one call.
- Authentication, permissions, DTO validation, notifications, e-mail, PDF and HTML output, storage drivers.

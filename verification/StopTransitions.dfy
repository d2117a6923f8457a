/** Runs of stop reports on one equipment, and the report that puts it back in service. */
module StopTransitions {
  import opened Common
  import opened Tables
  import opened OperationalBlockers
  import opened Orchestrator
  import opened AvailabilityReports
  import opened OperationalSteps

  /** A stop of equipment e, reported through either M2 operation. */
  predicate IsStopReport(step: Step, t: TenantId, e: EquipmentId) {
    IsReport(step)
    && step.who.tenant == t && step.dto.equipmentId == e && IsStop(step.dto.status)
  }

  function ReportTx(s: State, step: Step): Tx<Transition>
    requires IsReport(step)
  {
    if step.CreateReport? then AvailabilityReports.Create(s, step.who, step.cfg, step.dto, step.env)
    else Upsert(s, step.who, step.cfg, step.dto, step.shift, step.env)
  }

  predicate IsReport(step: Step) {
    step.CreateReport? || step.UpsertReport?
  }

  /** The shift a report is stored under. */
  function ReportShift(step: Step): ShiftType
    requires IsReport(step)
  {
    if step.CreateReport? then ResolveShift(step.cfg, step.dto.shift) else step.shift
  }

  /** The status a report is measured against. */
  function PreviousOf(s: State, step: Step): Option<OperationalStatus>
    requires IsReport(step)
  {
    PreviousFor(s, step.who, step.dto, ReportShift(step), step.UpsertReport?)
  }

  /** Where a table holds the cell of a report. */
  function CellOf(s: State, step: Step): Option<nat>
    requires IsReport(step)
  {
    FindCell(s.cells, step.who.tenant, step.dto.equipmentId, NormalizeReportDate(step.dto.reportDate), ReportShift(step))
  }

  lemma ReportTxEffect(s: State, step: Step)
    requires IsReport(step) && ReportTx(s, step).Committed?
    ensures ReportEffect(s, ReportTx(s, step).state, step.who.tenant, step.dto.equipmentId, step.dto.status,
                         PreviousOf(s, step), ReportTx(s, step).value)
  {
    if step.CreateReport? {
      CreateEffect(s, step.who, step.cfg, step.dto, step.env);
    } else {
      UpsertEffect(s, step.who, step.cfg, step.dto, step.shift, step.env);
    }
  }

  ghost predicate HasActiveFault(s: State, t: TenantId, e: EquipmentId) {
    exists i :: 0 <= i < |s.faults| && OfEquipment(s.faults[i], t, e) && ActiveFault(s.faults[i], s.orders)
  }

  /** BLOCKED_BY_ACTIVE_CAUSES never reaches a caller of either report operation: both throw first. */
  lemma BlockedResultUnreachable(s: State, step: Step)
    requires IsReport(step)
    ensures var tx := ReportTx(s, step); tx.Committed? ==> tx.value.skippedReason != Some(BlockedByActiveCauses)
  {
  }

  /** Stopped, an active fault exists if there is a contract, one stub only if none was active, same causes. */
  ghost predicate StopSummary(s: State, s': State, t: TenantId, e: EquipmentId) {
    && e in s.equipment && e in s'.equipment && !s'.equipment[e].isOperational
    && s'.equipment[e].contract == s.equipment[e].contract
    && (forall t', e' :: Blockers(s', t', e', None) == Blockers(s, t', e', None))
    && (s.equipment[e].contract.Some? ==> HasActiveFault(s', t, e))
    && |s'.faults| == |s.faults| + (if s.equipment[e].contract.Some? && !HasActiveFault(s, t, e) then 1 else 0)
  }

  lemma StopSummaryComposes(s: State, s1: State, s2: State, t: TenantId, e: EquipmentId)
    requires StopSummary(s, s1, t, e) && StopSummary(s1, s2, t, e)
    ensures StopSummary(s, s2, t, e)
  {
  }

  lemma StopReportEffect(s: State, step: Step, t: TenantId, e: EquipmentId)
    requires IsStopReport(step, t, e) && ReportTx(s, step).Committed?
    ensures StopSummary(s, Apply(s, step), t, e)
  {
    var s' := Apply(s, step);
    var r := ReportTx(s, step).value;
    ReportTxEffect(s, step);
    forall t', e'
      ensures Blockers(s', t', e', None) == Blockers(s, t', e', None)
    {
      ReportKeepsBlocked(s, s', t, e, step.dto.status, PreviousOf(s, step), r, t', e');
    }
    ContractKept(s, step);
    if s'.faults != s.faults {
      assert ActiveFault(s'.faults[|s.faults|], s'.orders);
    }
  }

  lemma ContractKept(s: State, step: Step)
    requires IsReport(step) && ReportTx(s, step).Committed?
    ensures var e := step.dto.equipmentId;
            e in s.equipment && e in Apply(s, step).equipment
            && Apply(s, step).equipment[e].contract == s.equipment[e].contract
  {
    var s' := Apply(s, step);
    if step.CreateReport? {
      var shift := ResolveShift(step.cfg, step.dto.shift);
      var date := NormalizeReportDate(step.dto.reportDate);
      var previous := PreviousFor(s, step.who, step.dto, shift, false);
      FinishKeepsContract(s.(cells := s.cells + [NewCell(s, step.who, step.dto, date, shift)]), step.who, step.dto,
                          |s.cells|, previous, ShiftStartAt(date, shift, step.cfg),
                          ReturnDecision(s, step.who.tenant, step.dto.equipmentId, step.dto.status, previous), step.env);
    } else {
      var date := NormalizeReportDate(step.dto.reportDate);
      var existing := FindCell(s.cells, step.who.tenant, step.dto.equipmentId, date, step.shift);
      var previous := PreviousFor(s, step.who, step.dto, step.shift, true);
      FinishKeepsContract(s.(cells := StoredCells(s, step.who, step.dto, step.shift)), step.who, step.dto,
                          if existing.Some? then existing.value else |s.cells|, previous,
                          if existing.Some? then step.env.now else ShiftStartAt(date, step.shift, step.cfg),
                          ReturnDecision(s, step.who.tenant, step.dto.equipmentId, step.dto.status, previous), step.env);
    }
  }

  lemma FinishKeepsContract(s: State, who: Caller, dto: ReportDto, cellId: nat, previous: Option<OperationalStatus>,
                            eventAt: int, decision: Option<Decision>, env: Env)
    requires dto.equipmentId in s.equipment && Finish(s, who, dto, cellId, previous, eventAt, decision, env).Committed?
    ensures var s' := Finish(s, who, dto, cellId, previous, eventAt, decision, env).state;
            dto.equipmentId in s'.equipment
            && s'.equipment[dto.equipmentId].contract == s.equipment[dto.equipmentId].contract
  {
  }

  predicate Commits(s: State, step: Step) {
    IsReport(step) && ReportTx(s, step).Committed?
  }

  /** A run of stop reports of one equipment, each of which commits. */
  ghost predicate StopRun(s: State, steps: seq<Step>, t: TenantId, e: EquipmentId) {
    forall k :: 0 <= k < |steps| ==> IsStopReport(steps[k], t, e) && Commits(Run(s, steps[..k]), steps[k])
  }

  lemma StopRunPrefix(s: State, steps: seq<Step>, t: TenantId, e: EquipmentId)
    requires steps != [] && StopRun(s, steps, t, e)
    ensures StopRun(s, steps[..|steps| - 1], t, e)
  {
    var rest := steps[..|steps| - 1];
    forall k | 0 <= k < |rest|
      ensures IsStopReport(rest[k], t, e) && Commits(Run(s, rest[..k]), rest[k])
    {
      assert rest[..k] == steps[..k] && rest[k] == steps[k];
    }
  }

  /**
   * Any number of stop reports together: with a contract an active fault exists at the end,
   * one stub is created in all, and only if no fault was active at the start.
   */
  lemma {:induction false} RunOfStops(s: State, steps: seq<Step>, t: TenantId, e: EquipmentId)
    requires steps != [] && StopRun(s, steps, t, e)
    ensures StopSummary(s, Run(s, steps), t, e)
  {
    var n := |steps| - 1;
    var rest := steps[..n];
    assert IsStopReport(steps[n], t, e) && Commits(Run(s, rest), steps[n]);
    StopReportEffect(Run(s, rest), steps[n], t, e);
    if n > 0 {
      StopRunPrefix(s, steps, t, e);
      RunOfStops(s, rest, t, e);
      StopSummaryComposes(s, Run(s, rest), Run(s, steps), t, e);
    } else {
      assert Run(s, rest) == s;
    }
  }

  /** The cells after an upsert: the one cell edited in place, or appended. */
  function StoredCells(s: State, who: Caller, dto: ReportDto, shift: ShiftType): seq<Cell>
    requires dto.equipmentId in s.equipment
  {
    var date := NormalizeReportDate(dto.reportDate);
    var existing := FindCell(s.cells, who.tenant, dto.equipmentId, date, shift);
    if existing.Some? then s.cells[existing.value := EditedCell(s.cells[existing.value], who, dto)]
    else s.cells + [NewCell(s, who, dto, date, shift)]
  }

  lemma UpsertCells(s: State, who: Caller, cfg: OpConfig, dto: ReportDto, shift: ShiftType, env: Env)
    requires Upsert(s, who, cfg, dto, shift, env).Committed?
    ensures Owns(s, who.tenant, dto.equipmentId)
    ensures Upsert(s, who, cfg, dto, shift, env).state.cells == StoredCells(s, who, dto, shift)
  {
  }

  lemma CreateCells(s: State, who: Caller, cfg: OpConfig, dto: ReportDto, env: Env)
    requires AvailabilityReports.Create(s, who, cfg, dto, env).Committed?
    ensures Owns(s, who.tenant, dto.equipmentId)
    ensures AvailabilityReports.Create(s, who, cfg, dto, env).state.cells ==
            StoredCells(s, who, dto, ResolveShift(cfg, dto.shift))
  {
  }

  /** The stored cell is where a lookup by its key finds it, and it says what was reported. */
  lemma StoredCellFound(s: State, who: Caller, dto: ReportDto, shift: ShiftType)
    requires dto.equipmentId in s.equipment
    ensures var cells := StoredCells(s, who, dto, shift);
            var cell := FindCell(cells, who.tenant, dto.equipmentId, NormalizeReportDate(dto.reportDate), shift);
            cell.Some? && cells[cell.value].status == dto.status
            && cells[cell.value].meterReading == dto.meterReading && cells[cell.value].comments == dto.comments
            && cells[cell.value].reportedBy == who.userId
            && (FindCell(s.cells, who.tenant, dto.equipmentId, NormalizeReportDate(dto.reportDate), shift).None? ==>
                  |cells| == |s.cells| + 1 && cells[cell.value].contract == s.equipment[dto.equipmentId].contract)
  {
    var date := NormalizeReportDate(dto.reportDate);
    var existing := FindCell(s.cells, who.tenant, dto.equipmentId, date, shift);
    var cells := StoredCells(s, who, dto, shift);
    if existing.Some? {
      EditKeepsPlace(s.cells, existing.value, EditedCell(s.cells[existing.value], who, dto), who.tenant,
                     dto.equipmentId, date, shift);
    } else {
      assert cells[|cells| - 1] == NewCell(s, who, dto, date, shift);
    }
  }

  /** The cell a committed upsert leaves is the one a second upsert of the same cell edits. */
  lemma UpsertStoresCell(s: State, who: Caller, cfg: OpConfig, dto: ReportDto, shift: ShiftType, env: Env)
    requires Upsert(s, who, cfg, dto, shift, env).Committed?
    ensures var s' := Upsert(s, who, cfg, dto, shift, env).state;
            var cell := FindCell(s'.cells, who.tenant, dto.equipmentId, NormalizeReportDate(dto.reportDate), shift);
            cell.Some? && s'.cells[cell.value].status == dto.status
            && s'.cells[cell.value].meterReading == dto.meterReading && s'.cells[cell.value].comments == dto.comments
  {
    UpsertCells(s, who, cfg, dto, shift, env);
    StoredCellFound(s, who, dto, shift);
  }

  /** After either operation the report's cell is found, and it holds the reported status. */
  lemma ReportStoresCell(s: State, step: Step)
    requires Commits(s, step)
    ensures var cell := CellOf(Apply(s, step), step);
            cell.Some? && Apply(s, step).cells[cell.value].status == step.dto.status
  {
    if step.CreateReport? {
      CreateCells(s, step.who, step.cfg, step.dto, step.env);
    } else {
      UpsertCells(s, step.who, step.cfg, step.dto, step.shift, step.env);
    }
    StoredCellFound(s, step.who, step.dto, ReportShift(step));
  }

  lemma {:induction false} EditKeepsPlace(cells: seq<Cell>, i: nat, c: Cell, t: TenantId, e: EquipmentId, date: int,
                                          shift: ShiftType)
    requires FindCell(cells, t, e, date, shift) == Some(i) && i < |cells| && CellAt(c, t, e, date, shift)
    ensures FindCell(cells[i := c], t, e, date, shift) == Some(i)
  {
    var last := |cells| - 1;
    if i != last {
      assert cells[i := c][..last] == cells[..last][i := c];
      EditKeepsPlace(cells[..last], i, c, t, e, date, shift);
    }
  }

  lemma FreshFinishCommits(s: State, who: Caller, dto: ReportDto, cellId: nat, previous: Option<OperationalStatus>,
                           eventAt: int, decision: Option<Decision>, env: Env)
    requires Owns(s, who.tenant, dto.equipmentId)
    requires forall q :: 0 <= q < |s.events| ==> s.events[q].id != env.eventId
    ensures Finish(s, who, dto, cellId, previous, eventAt, decision, env).Committed?
  {
  }

  /** With a fresh event id an upsert can only fail on ownership or on blockers. */
  lemma FreshUpsertCommits(s: State, who: Caller, cfg: OpConfig, dto: ReportDto, shift: ShiftType, env: Env)
    requires Owns(s, who.tenant, dto.equipmentId)
    requires forall q :: 0 <= q < |s.events| ==> s.events[q].id != env.eventId
    requires ReturnsToService(dto.status, PreviousFor(s, who, dto, shift, true)) ==>
               Resolve(s, who.tenant, dto.equipmentId, None).allowed
    ensures Upsert(s, who, cfg, dto, shift, env).Committed?
  {
    var date := NormalizeReportDate(dto.reportDate);
    var existing := FindCell(s.cells, who.tenant, dto.equipmentId, date, shift);
    var previous := PreviousFor(s, who, dto, shift, true);
    FreshFinishCommits(s.(cells := StoredCells(s, who, dto, shift)), who, dto,
                       if existing.Some? then existing.value else |s.cells|, previous,
                       if existing.Some? then env.now else ShiftStartAt(date, shift, cfg),
                       ReturnDecision(s, who.tenant, dto.equipmentId, dto.status, previous), env);
  }

  /** With a fresh event id and a free cell a creation can only fail on ownership or on blockers. */
  lemma FreshCreateCommits(s: State, who: Caller, cfg: OpConfig, dto: ReportDto, env: Env)
    requires Owns(s, who.tenant, dto.equipmentId)
    requires forall q :: 0 <= q < |s.events| ==> s.events[q].id != env.eventId
    requires FindCell(s.cells, who.tenant, dto.equipmentId, NormalizeReportDate(dto.reportDate),
                      ResolveShift(cfg, dto.shift)).None?
    requires ReturnsToService(dto.status, PreviousFor(s, who, dto, ResolveShift(cfg, dto.shift), false)) ==>
               Resolve(s, who.tenant, dto.equipmentId, None).allowed
    ensures AvailabilityReports.Create(s, who, cfg, dto, env).Committed?
  {
    var date := NormalizeReportDate(dto.reportDate);
    var shift := ResolveShift(cfg, dto.shift);
    var previous := PreviousFor(s, who, dto, shift, false);
    FreshFinishCommits(s.(cells := StoredCells(s, who, dto, shift)), who, dto, |s.cells|, previous,
                       ShiftStartAt(date, shift, cfg),
                       ReturnDecision(s, who.tenant, dto.equipmentId, dto.status, previous), env);
  }
}

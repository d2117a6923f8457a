/**
 * What the three records of a report say about each other over whole runs: the cell of a
 * shift, the events registered for it, and the meter log rows that name their origin.
 */
module ReportTrail {
  import opened Common
  import opened Tables
  import opened MeterSync
  import opened AvailabilityReports
  import opened OperationalSteps
  import OperationalBlockers
  import Orchestrator
  import Faults = FaultReports
  import Orders = WorkOrders
  import Equipments = EquipmentService
  import Bulk = BulkMeterSync
  import Adjustments = MeterAdjustments
  import Lube = LubeReports
  import Timeline = AvailabilityTimeline
  import Stops = StopTransitions

  // ---------------------------------------------------------- cells and events

  /** Row i is the event registered last for cell c, whatever its place in time. */
  ghost predicate LastEventOf(events: seq<Event>, c: nat, i: int) {
    0 <= i < |events| && events[i].availabilityId == Some(c)
    && forall j :: i < j < |events| ==> events[j].availabilityId != Some(c)
  }

  predicate Tells(e: Event, c: Cell) {
    && e.tenant == c.tenant && e.equipmentId == c.equipmentId && e.reportedBy == Some(c.reportedBy)
    && e.status == c.status && e.meterReading == c.meterReading && e.comments == c.comments
    && e.source == Manual && e.faultReportId == None
  }

  ghost predicate HasEvent(events: seq<Event>, c: nat) {
    exists i :: LastEventOf(events, c, i)
  }

  /** Every cell has events, and the last one registered for it says what the cell says. */
  ghost predicate CellsMatchEvents(cells: seq<Cell>, events: seq<Event>) {
    && (forall c: nat :: c < |cells| ==> HasEvent(events, c))
    && (forall c: nat, i :: LastEventOf(events, c, i) ==> c < |cells| && Tells(events[i], cells[c]))
  }

  /** The older rows keep everything but their derived fields. */
  ghost predicate KeepsEvents(events: seq<Event>, events': seq<Event>) {
    |events| <= |events'| && forall i :: 0 <= i < |events| ==> Timeline.SameBase(events'[i], events[i])
  }

  lemma LastEventAfter(events: seq<Event>, events': seq<Event>, cellId: nat, c: nat, i: int)
    requires |events'| == |events| + 1 && KeepsEvents(events, events')
    requires events'[|events|].availabilityId == Some(cellId)
    ensures LastEventOf(events', c, i) <==> if c == cellId then i == |events| else LastEventOf(events, c, i)
  {
  }

  /** A report writes its cell and appends the event that tells it. */
  lemma MatchAfterReport(cells: seq<Cell>, events: seq<Event>, events': seq<Event>, cellId: nat, cell: Cell)
    requires CellsMatchEvents(cells, events) && cellId <= |cells|
    requires |events'| == |events| + 1 && KeepsEvents(events, events')
    requires events'[|events|].availabilityId == Some(cellId) && Tells(events'[|events|], cell)
    ensures CellsMatchEvents(if cellId < |cells| then cells[cellId := cell] else cells + [cell], events')
  {
    var cells' := if cellId < |cells| then cells[cellId := cell] else cells + [cell];
    forall c: nat | c < |cells'|
      ensures HasEvent(events', c)
    {
      if c == cellId {
        LastEventAfter(events, events', cellId, c, |events|);
      } else {
        assert HasEvent(events, c);
        var i :| LastEventOf(events, c, i);
        LastEventAfter(events, events', cellId, c, i);
      }
    }
    forall c: nat, i | LastEventOf(events', c, i)
      ensures c < |cells'| && Tells(events'[i], cells'[c])
    {
      LastEventAfter(events, events', cellId, c, i);
      if c != cellId {
        assert Tells(events[i], cells[c]) && Timeline.SameBase(events'[i], events[i]);
      }
    }
  }

  // -------------------------------------------------------- meter log and origins

  /** An event of the report that log row m names declares the value the row wrote. */
  ghost predicate DeclaredBy(events: seq<Event>, m: MeterLog) {
    exists i :: 0 <= i < |events| && events[i].availabilityId == m.sourceId
                && events[i].equipmentId == m.equipmentId && events[i].meterReading == Some(m.newValue)
  }

  /** The origin a log row names exists, is about the same equipment, and explains the value. */
  ghost predicate Sourced(s: State, m: MeterLog) {
    match m.source
    case ManualEntry =>
      m.sourceId.Some? ==>
        && m.sourceId.value < |s.adjustments|
        && s.adjustments[m.sourceId.value].equipmentId == m.equipmentId
        && s.adjustments[m.sourceId.value].newValue == m.newValue
    case AvailabilityReport => m.sourceId.Some? && m.oldValue < m.newValue && DeclaredBy(s.events, m)
    case FaultReading =>
      && m.oldValue < m.newValue && m.sourceId.Some? && m.sourceId.value < |s.faults|
      && s.faults[m.sourceId.value].equipmentId == m.equipmentId
      && s.faults[m.sourceId.value].meterAtFault == Some(m.newValue)
    case OrderClosure =>
      && m.oldValue < m.newValue && m.sourceId.Some? && m.sourceId.value < |s.orders|
      && s.orders[m.sourceId.value].equipmentId == m.equipmentId
  }

  ghost predicate LogSourced(s: State) {
    forall i :: 0 <= i < |s.meterLog| ==> Sourced(s, s.meterLog[i])
  }

  /** Origins stay: no step takes a row away or hands it to another equipment. */
  ghost predicate KeepsOrigins(s: State, s': State) {
    && KeepsEvents(s.events, s'.events)
    && |s.faults| <= |s'.faults| && |s.orders| <= |s'.orders| && s.adjustments <= s'.adjustments
    && (forall i :: 0 <= i < |s.faults| ==>
          s'.faults[i].equipmentId == s.faults[i].equipmentId && s'.faults[i].meterAtFault == s.faults[i].meterAtFault)
    && (forall o :: 0 <= o < |s.orders| ==> s'.orders[o].equipmentId == s.orders[o].equipmentId)
  }

  lemma LogSourcedFrame(s: State, s': State, added: seq<MeterLog>)
    requires LogSourced(s) && KeepsOrigins(s, s') && s'.meterLog == s.meterLog + added
    requires forall m :: m in added ==> Sourced(s', m)
    ensures LogSourced(s')
  {
  }

  // ------------------------------------------------------------- all together

  ghost predicate Traceable(s: State) {
    CellsMatchEvents(s.cells, s.events) && LogSourced(s)
  }

  lemma EmptyIsTraceable(equipment: map<EquipmentId, Equipment>, counters: map<(TenantId, string), nat>)
    ensures Traceable(State(equipment, [], [], [], [], [], counters, []))
  {
  }

  /** What one log write adds: a row, or nothing when the meter did not move. */
  function LogOf(c: MeterChange): seq<MeterLog> {
    if c.oldMeter == c.newMeter then [] else [LogRow(c)]
  }

  /** Steps that write no cell and no event. */
  lemma TraceableFrame(s: State, s': State, added: seq<MeterLog>)
    requires Traceable(s) && KeepsOrigins(s, s') && s'.cells == s.cells && s'.events == s.events
    requires s'.meterLog == s.meterLog + added && forall m :: m in added ==> Sourced(s', m)
    ensures Traceable(s')
  {
  }

  /** What a finished report leaves: one event more, at most one log row more, the same cells. */
  ghost predicate ReportTrace(s: State, s': State, who: Caller, dto: ReportDto, cellId: nat, eventAt: int,
                              added: seq<MeterLog>) {
    && |s'.events| == |s.events| + 1 && KeepsOrigins(s, s') && s'.cells == s.cells
    && (var e := s'.events[|s.events|];
        && e.availabilityId == Some(cellId) && e.eventAt == eventAt && e.meterReading == dto.meterReading
        && e.tenant == who.tenant && e.equipmentId == dto.equipmentId && e.reportedBy == Some(who.userId)
        && e.status == dto.status && e.comments == dto.comments && e.source == Manual && e.faultReportId == None)
    && s'.meterLog == s.meterLog + added
    && (forall m :: m in added ==>
          m.source == AvailabilityReport && m.sourceId == Some(cellId) && m.equipmentId == dto.equipmentId
          && m.oldValue < m.newValue && dto.meterReading == Some(m.newValue))
  }

  lemma TransitionKeepsTrace(s: State, input: Orchestrator.TransitionInput)
    requires Orchestrator.StatusChange(s, input).Committed?
    ensures var s' := Orchestrator.StatusChange(s, input).state;
            && s'.events == s.events && s'.cells == s.cells && s'.meterLog == s.meterLog && s'.orders == s.orders
            && s.faults <= s'.faults && s'.adjustments == s.adjustments
  {
  }

  lemma AdvanceTrace(s: State, e: EquipmentId, reading: Option<int>, cellId: nat, userId: UserId) returns (added: seq<MeterLog>)
    requires e in s.equipment
    ensures var s' := MeterAdvanced(s, e, reading, AvailabilityReport, cellId, userId);
            && s'.events == s.events && s'.cells == s.cells && s'.faults == s.faults && s'.orders == s.orders
            && s'.adjustments == s.adjustments && s'.meterLog == s.meterLog + added
    ensures forall m :: m in added ==>
              m.source == AvailabilityReport && m.sourceId == Some(cellId) && m.equipmentId == e
              && m.oldValue < m.newValue && reading == Some(m.newValue)
  {
    added := MeterAdvanced(s, e, reading, AvailabilityReport, cellId, userId).meterLog[|s.meterLog|..];
  }

  lemma FinishTrace(s: State, who: Caller, dto: ReportDto, cellId: nat, previous: Option<OperationalStatus>, eventAt: int,
                    decision: Option<OperationalBlockers.Decision>, env: Env)
    returns (added: seq<MeterLog>)
    requires dto.equipmentId in s.equipment && Finish(s, who, dto, cellId, previous, eventAt, decision, env).Committed?
    ensures ReportTrace(s, Finish(s, who, dto, cellId, previous, eventAt, decision, env).state, who, dto, cellId, eventAt,
                        added)
  {
    var input := EventInput(who, dto, cellId, previous, eventAt);
    var initial := Timeline.InitialEvent(input, env.eventId, env.createdAt);
    Timeline.InsertedBase(s.events, initial, previous);
    var s1 := s.(events := Timeline.Inserted(s.events, initial, previous));
    added := AdvanceTrace(s1, dto.equipmentId, dto.meterReading, cellId, who.userId);
    var s2 := MeterAdvanced(s1, dto.equipmentId, dto.meterReading, AvailabilityReport, cellId, who.userId);
    TransitionKeepsTrace(s2, Orchestrator.TransitionInput(who.tenant, dto.equipmentId, dto.status, previous,
                                                          dto.meterReading, decision));
  }

  lemma TraceableAfterReport(s: State, stored: State, s': State, who: Caller, dto: ReportDto, cellId: nat, cell: Cell,
                             eventAt: int, added: seq<MeterLog>)
    requires Traceable(s) && cellId <= |s.cells|
    requires stored == s.(cells := if cellId < |s.cells| then s.cells[cellId := cell] else s.cells + [cell])
    requires ReportTrace(stored, s', who, dto, cellId, eventAt, added)
    requires cell.tenant == who.tenant && cell.equipmentId == dto.equipmentId && cell.reportedBy == who.userId
    requires cell.status == dto.status && cell.meterReading == dto.meterReading && cell.comments == dto.comments
    ensures Traceable(s')
  {
    MatchAfterReport(s.cells, s.events, s'.events, cellId, cell);
    forall m | m in added
      ensures Sourced(s', m)
    {
      assert s'.events[|s.events|].availabilityId == m.sourceId;
    }
    LogSourcedFrame(s, s', added);
  }

  lemma CreateTraceable(s: State, who: Caller, cfg: OpConfig, dto: ReportDto, env: Env)
    requires Traceable(s) && AvailabilityReports.Create(s, who, cfg, dto, env).Committed?
    ensures Traceable(AvailabilityReports.Create(s, who, cfg, dto, env).state)
  {
    var shift := ResolveShift(cfg, dto.shift);
    var date := NormalizeReportDate(dto.reportDate);
    var previous := PreviousFor(s, who, dto, shift, false);
    var cell := NewCell(s, who, dto, date, shift);
    var stored := s.(cells := s.cells + [cell]);
    var eventAt := ShiftStartAt(date, shift, cfg);
    var decision := ReturnDecision(s, who.tenant, dto.equipmentId, dto.status, previous);
    var added := FinishTrace(stored, who, dto, |s.cells|, previous, eventAt, decision, env);
    TraceableAfterReport(s, stored, Finish(stored, who, dto, |s.cells|, previous, eventAt, decision, env).state, who, dto,
                         |s.cells|, cell, eventAt, added);
  }

  lemma UpsertTraceable(s: State, who: Caller, cfg: OpConfig, dto: ReportDto, shift: ShiftType, env: Env)
    requires Traceable(s) && Upsert(s, who, cfg, dto, shift, env).Committed?
    ensures Traceable(Upsert(s, who, cfg, dto, shift, env).state)
  {
    var date := NormalizeReportDate(dto.reportDate);
    var existing := FindCell(s.cells, who.tenant, dto.equipmentId, date, shift);
    var previous := PreviousFor(s, who, dto, shift, true);
    var cellId := if existing.Some? then existing.value else |s.cells|;
    var cell := if existing.Some? then EditedCell(s.cells[cellId], who, dto) else NewCell(s, who, dto, date, shift);
    var stored := s.(cells := Stops.StoredCells(s, who, dto, shift));
    var eventAt := if existing.Some? then env.now else ShiftStartAt(date, shift, cfg);
    var decision := ReturnDecision(s, who.tenant, dto.equipmentId, dto.status, previous);
    var added := FinishTrace(stored, who, dto, cellId, previous, eventAt, decision, env);
    TraceableAfterReport(s, stored, Finish(stored, who, dto, cellId, previous, eventAt, decision, env).state, who, dto,
                         cellId, cell, eventAt, added);
  }

  // ------------------------------------------------------- the moment of an event

  /** The configured start of a shift on the day of a report, in milliseconds. */
  function StartOfShift(cfg: OpConfig, reportDate: int, night: bool): int {
    var start := if night then cfg.nightStart else cfg.dayStart;
    reportDate / 86_400_000 * 86_400_000 + start.hours * 3_600_000 + start.minutes * 60_000
  }

  lemma ShiftStartSpelled(cfg: OpConfig, reportDate: int, shift: ShiftType)
    ensures ShiftStartAt(NormalizeReportDate(reportDate), shift, cfg) == StartOfShift(cfg, reportDate, shift == Night)
  {
  }

  /** The event of a created report happens at the start of its shift. */
  lemma CreateEventMoment(s: State, who: Caller, cfg: OpConfig, dto: ReportDto, env: Env)
    requires AvailabilityReports.Create(s, who, cfg, dto, env).Committed?
    ensures var s' := AvailabilityReports.Create(s, who, cfg, dto, env).state;
            && |s'.events| == |s.events| + 1
            && s'.events[|s.events|].eventAt ==
               StartOfShift(cfg, dto.reportDate, dto.shift == Some(Night) && cfg.hasNightShift)
  {
    var shift := ResolveShift(cfg, dto.shift);
    var date := NormalizeReportDate(dto.reportDate);
    var previous := PreviousFor(s, who, dto, shift, false);
    ShiftStartSpelled(cfg, dto.reportDate, shift);
    var added := FinishTrace(s.(cells := s.cells + [NewCell(s, who, dto, date, shift)]), who, dto, |s.cells|, previous,
                             ShiftStartAt(date, shift, cfg),
                             ReturnDecision(s, who.tenant, dto.equipmentId, dto.status, previous), env);
  }

  /** A cell of the report's key is already stored. */
  ghost predicate CellStored(s: State, who: Caller, dto: ReportDto, shift: ShiftType) {
    exists c :: c in s.cells && c.tenant == who.tenant && c.equipmentId == dto.equipmentId
                && c.date == dto.reportDate / 86_400_000 * 86_400_000 && c.shift == shift
  }

  lemma StoredIffFound(s: State, who: Caller, dto: ReportDto, shift: ShiftType)
    ensures CellStored(s, who, dto, shift) <==>
            FindCell(s.cells, who.tenant, dto.equipmentId, NormalizeReportDate(dto.reportDate), shift).Some?
  {
    var found := FindCell(s.cells, who.tenant, dto.equipmentId, NormalizeReportDate(dto.reportDate), shift);
    if found.Some? {
      assert s.cells[found.value] in s.cells;
    }
  }

  /** The event of an upsert happens now when it edits a cell, and at the start of its shift when it stores a new one. */
  lemma UpsertEventMoment(s: State, who: Caller, cfg: OpConfig, dto: ReportDto, shift: ShiftType, env: Env)
    requires Upsert(s, who, cfg, dto, shift, env).Committed?
    ensures var s' := Upsert(s, who, cfg, dto, shift, env).state;
            && |s'.events| == |s.events| + 1
            && s'.events[|s.events|].eventAt ==
               if CellStored(s, who, dto, shift) then env.now else StartOfShift(cfg, dto.reportDate, shift == Night)
  {
    var date := NormalizeReportDate(dto.reportDate);
    var existing := FindCell(s.cells, who.tenant, dto.equipmentId, date, shift);
    var previous := PreviousFor(s, who, dto, shift, true);
    StoredIffFound(s, who, dto, shift);
    ShiftStartSpelled(cfg, dto.reportDate, shift);
    var added := FinishTrace(s.(cells := Stops.StoredCells(s, who, dto, shift)), who, dto,
                             if existing.Some? then existing.value else |s.cells|, previous,
                             if existing.Some? then env.now else ShiftStartAt(date, shift, cfg),
                             ReturnDecision(s, who.tenant, dto.equipmentId, dto.status, previous), env);
  }

  lemma UpsertAddsEvent(s: State, who: Caller, cfg: OpConfig, dto: ReportDto, shift: ShiftType, env: Env)
    requires Upsert(s, who, cfg, dto, shift, env).Committed?
    ensures |Upsert(s, who, cfg, dto, shift, env).state.events| == |s.events| + 1
  {
    var date := NormalizeReportDate(dto.reportDate);
    var existing := FindCell(s.cells, who.tenant, dto.equipmentId, date, shift);
    var previous := PreviousFor(s, who, dto, shift, true);
    var added := FinishTrace(s.(cells := Stops.StoredCells(s, who, dto, shift)), who, dto,
                             if existing.Some? then existing.value else |s.cells|, previous,
                             if existing.Some? then env.now else ShiftStartAt(date, shift, cfg),
                             ReturnDecision(s, who.tenant, dto.equipmentId, dto.status, previous), env);
  }

  lemma FaultTraceable(s: State, who: Caller, dto: Faults.FaultDto)
    requires Traceable(s) && Faults.Create(s, who, dto).Committed?
    ensures Traceable(Faults.Create(s, who, dto).state)
  {
    var s' := Faults.Create(s, who, dto).state;
    var added := s'.meterLog[|s.meterLog|..];
    assert s'.meterLog == s.meterLog + added;
    assert |s'.faults| == |s.faults| + 1 && s'.faults[|s.faults|].equipmentId == dto.equipmentId
           && s'.faults[|s.faults|].meterAtFault == dto.meterAtFault;
    TraceableFrame(s, s', added);
  }

  lemma CloseTraceable(s: State, who: Caller, o: nat, left: bool, meter: Option<int>, confirmed: bool, guards: bool)
    requires Traceable(s) && Orders.Close(s, who, o, left, meter, confirmed, guards).Committed?
    ensures Traceable(Orders.Close(s, who, o, left, meter, confirmed, guards).state)
  {
  }

  lemma ManualTraceable(s: State, s': State, c: MeterChange)
    requires Traceable(s) && s'.meterLog == s.meterLog + LogOf(c) && c.source == ManualEntry && c.sourceId == None
    requires s'.cells == s.cells && s'.events == s.events && s'.faults == s.faults && s'.orders == s.orders
    requires s'.adjustments == s.adjustments
    ensures Traceable(s')
  {
  }

  lemma {:induction false} BulkTraceable(s: State, who: Caller, visible: set<EquipmentId>, items: seq<Bulk.Item>)
    requires Traceable(s)
    ensures Traceable(Bulk.SyncAll(s, who, visible, items).0)
  {
    if items != [] {
      var rest, it := items[..|items| - 1], items[|items| - 1];
      BulkTraceable(s, who, visible, rest);
      var s1 := Bulk.SyncAll(s, who, visible, rest).0;
      var v := Bulk.Judge(s1, who, visible, it);
      if v.Applied? {
        ManualTraceable(s1, Bulk.SyncOne(s1, who, visible, it),
                        MeterChange(who.tenant, it.equipmentId, v.from, v.to, ManualEntry, None, who.userId));
      }
    }
  }

  lemma AdjustmentTraceable(s: State, who: Caller, dto: Adjustments.AdjustDto)
    requires Traceable(s) && Adjustments.Adjusted(s, who, dto).Committed?
    ensures Traceable(Adjustments.Adjusted(s, who, dto).state)
  {
    var c := MeterChange(who.tenant, dto.equipmentId, s.equipment[dto.equipmentId].currentMeter, dto.newValue, ManualEntry,
                         Some(|s.adjustments|), who.userId);
    TraceableFrame(s, Adjustments.Adjusted(s, who, dto).state, LogOf(c));
  }

  lemma DispatchTraceable(s: State, who: Caller, dto: Lube.DispatchDto, warehouseOk: bool, linesOk: bool)
    requires Traceable(s) && Lube.Dispatched(s, who, dto, warehouseOk, linesOk).Committed?
    ensures Traceable(Lube.Dispatched(s, who, dto, warehouseOk, linesOk).state)
  {
    var current := s.equipment[dto.equipmentId].currentMeter;
    ManualTraceable(s, Lube.Dispatched(s, who, dto, warehouseOk, linesOk).state,
                    MeterChange(who.tenant, dto.equipmentId, current, Max(current, dto.meterReading.GetOr(current)),
                                ManualEntry, None, who.userId));
  }

  /** Steps that write neither cells nor events nor meters. */
  lemma QuietTraceable(s: State, step: Step)
    requires Traceable(s)
    requires step.EscalateFault? || step.OpenOrder? || step.EditOrderImpact? || step.MoveOrder?
    ensures Traceable(Apply(s, step))
  {
  }

  lemma StepTraceable(s: State, step: Step)
    requires Traceable(s)
    ensures Traceable(Apply(s, step))
  {
    match step
    case CreateReport(who, cfg, dto, env) =>
      if AvailabilityReports.Create(s, who, cfg, dto, env).Committed? { CreateTraceable(s, who, cfg, dto, env); }
    case UpsertReport(who, cfg, dto, shift, env) =>
      if Upsert(s, who, cfg, dto, shift, env).Committed? { UpsertTraceable(s, who, cfg, dto, shift, env); }
    case ReportFault(who, fault) =>
      if Faults.Create(s, who, fault).Committed? { FaultTraceable(s, who, fault); }
    case CloseOrder(who, o, left, meter, confirmed, guards) =>
      if Orders.Close(s, who, o, left, meter, confirmed, guards).Committed? {
        CloseTraceable(s, who, o, left, meter, confirmed, guards);
      }
    case AddEquipment(who, e, contract, initial, current, meterType) =>
      if Equipments.Created(s, who, e, contract, initial, current, meterType).Committed? {
        ManualTraceable(s, Apply(s, step), MeterChange(who.tenant, e, initial, current, ManualEntry, None, who.userId));
      }
    case EditEquipment(who, e, patch, guards) =>
      if Equipments.Updated(s, who, e, patch, guards).Committed? {
        var current := s.equipment[e].currentMeter;
        ManualTraceable(s, Apply(s, step), MeterChange(who.tenant, e, current, patch.currentMeter.GetOr(current),
                                                       ManualEntry, None, who.userId));
      }
    case SyncMeters(who, visible, raw) =>
      if Bulk.BulkSync(s, who, visible, raw).Committed? {
        Bulk.FirstErrorNone(raw);
        BulkTraceable(s, who, visible, Bulk.Merged(raw));
      }
    case AdjustMeter(who, adjustment) =>
      if Adjustments.Adjusted(s, who, adjustment).Committed? { AdjustmentTraceable(s, who, adjustment); }
    case DispatchLubricants(who, dispatch, warehouseOk, linesOk) =>
      if Lube.Dispatched(s, who, dispatch, warehouseOk, linesOk).Committed? {
        DispatchTraceable(s, who, dispatch, warehouseOk, linesOk);
      }
    case _ => QuietTraceable(s, step);
  }

  /**
   * Over any run of steps: each cell says what the event registered last for it says, and
   * each log row that names an origin can be traced to the report, fault, order or adjustment that moved the meter.
   */
  lemma {:induction false} RunTraceable(s: State, steps: seq<Step>)
    requires Traceable(s)
    ensures Traceable(Run(s, steps))
  {
    if steps != [] {
      RunTraceable(s, steps[..|steps| - 1]);
      StepTraceable(Run(s, steps[..|steps| - 1]), steps[|steps| - 1]);
    }
  }
}
